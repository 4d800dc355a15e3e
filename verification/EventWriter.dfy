/** Building an event log message in place (the writing half of liblog/log_event_list.cpp): elements are appended to a
    fixed buffer, and a list's element count is patched in when the list ends.
 */
module EventWriter {
  import opened Basics
  import opened EventList

  datatype Message =
    | NotEnded                 // a list has not been ended
    | Overrun(len: nat)        // the length is beyond the buffer
    | Message(bytes: seq<byte>)

  /** What is delivered for a list of elements: a single element travels without the list around it. */
  function Delivered(es: seq<Event>): seq<byte>
  {
    if es == [] then [] else if |es| == 1 then Encode(es[0]) else Encode(List(es))
  }

  class Writer {
    const storage: array<byte>
    var pos: nat
    var count: seq<nat>
    var list: seq<nat>
    var depth: nat
    var overflow: bool
    ghost var truncated: bool      // some string was cut to the room that was left

    /** The position is within the payload exactly until a string is truncated. */
    ghost predicate Valid()
      reads this
    {
      && storage.Length == LOGGER_ENTRY_MAX_PAYLOAD && 2 <= pos && (truncated <==> MAX_EVENT_PAYLOAD < pos)
      && |count| == |list| == MAX_NEST + 1 && depth <= MAX_NEST + 1 && (!overflow ==> depth <= MAX_NEST)
      && (forall i :: 0 <= i <= MAX_NEST ==> list[i] < MAX_EVENT_PAYLOAD)
    }

    /** create_android_logger and init_context. */
    constructor ()
      ensures Valid() && fresh(storage) && pos == 2 && depth == 0 && !overflow && !truncated
      ensures storage[0] == TYPE_LIST && count == seq(MAX_NEST + 1, _ => 0)
    {
      var s := new byte[LOGGER_ENTRY_MAX_PAYLOAD](_ => 0);
      s[0] := TYPE_LIST;
      storage := s;
      pos, depth, overflow, truncated := 2, 0, false, false;
      count := seq(MAX_NEST + 1, _ => 0);
      list := seq(MAX_NEST + 1, _ => 0)[0 := 1];
    }

    /** Store bytes at the position; the rest of the buffer is as before. */
    method Put(bytes: seq<byte>)
      requires pos + |bytes| <= storage.Length
      modifies storage
      ensures storage[pos..pos + |bytes|] == bytes && storage[..pos] == old(storage[..pos])
    {
      forall i | 0 <= i < |bytes| {
        storage[pos + i] := bytes[i];
      }
    }

    /** android_log_write_int32, android_log_write_int64 and android_log_write_float32 differ in the bytes. */
    method WriteFixed(bytes: seq<byte>) returns (ok: bool)
      requires Valid()
      modifies this, storage
      ensures Valid() && depth == old(depth) && list == old(list) && truncated == old(truncated)
      ensures ok <==> !old(overflow) && old(pos) + |bytes| <= MAX_EVENT_PAYLOAD
      ensures ok ==> !overflow && pos == old(pos) + |bytes| && count == old(count[depth := count[depth] + 1])
      ensures ok ==> storage[old(pos)..pos] == bytes && storage[..old(pos)] == old(storage[..pos])
      ensures !ok ==> overflow && pos == old(pos) && count == old(count) && storage[..] == old(storage[..])
    {
      if overflow {
        return false;
      }
      if pos + |bytes| > MAX_EVENT_PAYLOAD {
        overflow := true;
        return false;
      }
      count := count[depth := count[depth] + 1];
      Put(bytes);
      pos := pos + |bytes|;
      ok := true;
    }

    /** android_log_write_string8_len, for a string whose bytes before the terminator are `s`. */
    method WriteString(s: seq<byte>, maxlen: nat) returns (ok: bool, len: nat)
      requires Valid()
      modifies this, storage
      ensures Valid() && depth == old(depth) && list == old(list)
      ensures ok <==> !old(overflow) && (old(pos) + 5 + Min(|s|, maxlen) <= MAX_EVENT_PAYLOAD
                                         || old(pos) + 5 < MAX_EVENT_PAYLOAD)
      ensures ok ==> !overflow && len <= |s| && count == old(count[depth := count[depth] + 1])
      ensures ok ==> len == Min(Min(|s|, maxlen), MAX_EVENT_PAYLOAD - old(pos) - 5)
      ensures ok ==> old(pos) + |Encode(Str(s[..len]))| <= MAX_EVENT_PAYLOAD
      ensures ok ==> storage[old(pos)..old(pos) + |Encode(Str(s[..len]))|] == Encode(Str(s[..len]))
      ensures ok ==> storage[..old(pos)] == old(storage[..pos])
      ensures ok ==> pos == old(pos) + 5 + Min(|s|, maxlen)
      ensures ok ==> (truncated <==> len < Min(|s|, maxlen))
      ensures !ok ==>
              overflow && pos == old(pos) && count == old(count) && truncated == old(truncated)
              && storage[..] == old(storage[..])
    {
      if overflow {
        return false, 0;
      }
      len := Min(|s|, maxlen);
      var needed := 5 + len;
      if pos + needed > MAX_EVENT_PAYLOAD {
        var room: int := MAX_EVENT_PAYLOAD - pos - 5;
        if room <= 0 {
          overflow := true;
          return false, 0;
        }
        len := room;
        truncated := true;
      }
      count := count[depth := count[depth] + 1];
      StrEncoding(s[..len]);
      Put(Encode(Str(s[..len])));
      pos := pos + needed;
      ok := true;
    }

    /** android_log_write_list_begin. */
    method ListBegin() returns (ok: bool)
      requires Valid()
      modifies this, storage
      ensures Valid() && truncated == old(truncated)
      ensures ok <==> !old(overflow) && old(depth) < MAX_NEST && old(pos) + 2 <= MAX_EVENT_PAYLOAD
      ensures ok ==> !overflow && depth == old(depth) + 1 && pos == old(pos) + 2
      ensures ok ==> list == old(list[depth + 1 := pos + 1])
      ensures ok ==> count == old(count[depth := count[depth] + 1][depth + 1 := 0])
      ensures ok ==> storage[old(pos)..pos] == [TYPE_LIST, 0] && storage[..old(pos)] == old(storage[..pos])
      ensures !ok ==> overflow && pos == old(pos) && list == old(list) && storage[..] == old(storage[..])
      ensures !ok ==>
                if old(depth) > MAX_NEST || old(pos) + 2 > MAX_EVENT_PAYLOAD
                then depth == old(depth) && count == old(count)
                else depth == old(depth) + 1 && count == old(count[depth := count[depth] + 1])
    {
      if depth > MAX_NEST {
        overflow := true;
        return false;
      }
      if pos + 2 > MAX_EVENT_PAYLOAD {
        overflow := true;
        return false;
      }
      count := count[depth := count[depth] + 1];
      depth := depth + 1;
      if depth > MAX_NEST {
        overflow := true;
        return false;
      }
      if overflow {
        return false;
      }
      Put([TYPE_LIST, 0]);
      list := list[depth := pos + 1];
      count := count[depth := 0];
      pos := pos + 2;
      ok := true;
    }

    /** android_log_write_list_end: the count goes into the header of the list. */
    method ListEnd() returns (ok: bool)
      requires Valid()
      modifies this, storage
      ensures Valid() && truncated == old(truncated) && pos == old(pos) && count == old(count) && list == old(list)
      ensures ok <==> 0 < old(depth) <= MAX_NEST && old(list[depth]) > 0
      ensures ok ==> depth == old(depth) - 1 && overflow == old(overflow)
      ensures ok ==> storage[..] == old(storage[..][list[depth] := count[depth] % 256])
      ensures !ok ==> overflow && storage[..] == old(storage[..])
      ensures !ok ==> depth == if old(depth) == 0 then 0 else old(depth) - 1
    {
      if depth > MAX_NEST {
        overflow := true;
        depth := depth - 1;
        return false;
      }
      if depth == 0 {
        overflow := true;
        return false;
      }
      if list[depth] <= 0 {
        depth := depth - 1;
        overflow := true;
        return false;
      }
      storage[list[depth]] := count[depth] % 256;
      depth := depth - 1;
      ok := true;
    }

    method WriteScalar(e: Event)
      requires Valid() && !overflow && !e.List? && pos + |Encode(e)| <= MAX_EVENT_PAYLOAD
      modifies this, storage
      ensures Valid() && !overflow && depth == old(depth) && pos == old(pos) + |Encode(e)|
      ensures storage[old(pos)..pos] == Encode(e) && storage[..old(pos)] == old(storage[..pos])
      ensures count == old(count[depth := count[depth] + 1]) && list == old(list)
    {
      var ok;
      match e
      case Int(v) => ok := WriteFixed([TYPE_INT] + LE(v, 4));
      case Long(v) => ok := WriteFixed([TYPE_LONG] + LE(v, 8));
      case Float(bits) => ok := WriteFixed([TYPE_FLOAT] + LE(bits, 4));
      case Str(s) =>
        StrEncoding(s);
        var len;
        ok, len := WriteString(s, MAX_EVENT_PAYLOAD);
        assert s[..|s|] == s;
    }

    /** The calls that write one event, given that it fits: its encoding is appended and counted. */
    method WriteEvent(e: Event)
      requires Valid() && !overflow && depth + Depth(e) <= MAX_NEST && pos + |Encode(e)| <= MAX_EVENT_PAYLOAD
      modifies this, storage
      ensures Valid() && !overflow && depth == old(depth) && pos == old(pos) + |Encode(e)|
      ensures storage[old(pos)..pos] == Encode(e) && storage[..old(pos)] == old(storage[..pos])
      ensures count[..depth + 1] == old(count[depth := count[depth] + 1][..depth + 1])
      ensures list[..depth + 1] == old(list[..depth + 1])
      decreases e, 0
    {
      if e.List? {
        WriteList(e.es);
      } else {
        WriteScalar(e);
      }
    }

    method WriteList(es: seq<Event>)
      requires Valid() && !overflow && depth + Depth(List(es)) <= MAX_NEST
               && pos + |Encode(List(es))| <= MAX_EVENT_PAYLOAD
      modifies this, storage
      ensures Valid() && !overflow && depth == old(depth) && pos == old(pos) + |Encode(List(es))|
      ensures storage[old(pos)..pos] == Encode(List(es)) && storage[..old(pos)] == old(storage[..pos])
      ensures count[..depth + 1] == old(count[depth := count[depth] + 1][..depth + 1])
      ensures list[..depth + 1] == old(list[..depth + 1])
      decreases es, 2
    {
      ghost var p := pos;
      WriteOpenList(es);
      ghost var body := storage[..pos];
      var ok := ListEnd();
      Patched(body, storage[..pos], p, |es| % 256, EncodeAll(es));
    }

    /** Everything but the end of a list: its count is still to be filled in. */
    method WriteOpenList(es: seq<Event>)
      requires Valid() && !overflow && depth + Depth(List(es)) <= MAX_NEST
               && pos + |Encode(List(es))| <= MAX_EVENT_PAYLOAD
      modifies this, storage
      ensures Valid() && !overflow && depth == old(depth) + 1 && pos == old(pos) + 2 + |EncodeAll(es)|
      ensures storage[..pos][old(pos)..old(pos) + 2] == [TYPE_LIST, 0]
      ensures storage[..pos][old(pos) + 2..] == EncodeAll(es)
      ensures storage[..old(pos)] == old(storage[..pos])
      ensures count[depth] == |es| && count[..depth] == old(count[depth := count[depth] + 1][..depth + 1])
      ensures list[depth] == old(pos) + 1 && list[..depth] == old(list[..depth + 1])
      decreases es, 1
    {
      ghost var p, d := pos, depth;
      var ok := ListBegin();
      ghost var counts, lists := count, list;
      WriteEvents(es);
      PrefixAt(list, lists, d + 1);
      PrefixAt(count, counts[d + 1 := counts[d + 1] + |es|], d + 1);
      assert storage[..pos][p..p + 2] == [TYPE_LIST, 0];
    }

    method WriteEvents(es: seq<Event>)
      requires Valid() && !overflow && depth + DepthAll(es) <= MAX_NEST && pos + |EncodeAll(es)| <= MAX_EVENT_PAYLOAD
      modifies this, storage
      ensures Valid() && !overflow && depth == old(depth) && pos == old(pos) + |EncodeAll(es)|
      ensures storage[old(pos)..pos] == EncodeAll(es) && storage[..old(pos)] == old(storage[..pos])
      ensures count[..depth + 1] == old(count[depth := count[depth] + |es|][..depth + 1])
      ensures list[..depth + 1] == old(list[..depth + 1])
      decreases es, 0
    {
      if es != [] {
        WriteEvent(es[0]);
        ghost var mid := storage[..pos];
        ghost var q := pos;
        WriteEvents(es[1..]);
        Appended(old(storage[..pos]), mid, storage[..pos], Encode(es[0]), EncodeAll(es[1..]));
      }
    }

    /** android_log_write_list_buffer. */
    method Buffer() returns (m: Message)
      requires Valid()
      modifies this, storage
      ensures Valid() && pos == old(pos) && truncated == old(truncated)
      ensures m.NotEnded? <==> old(depth) != 0
      ensures m.Overrun? <==> old(depth) == 0 && old(pos) > LOGGER_ENTRY_MAX_PAYLOAD
      ensures m.Overrun? ==> truncated
      ensures m.Message? && count[0] <= 1 ==> m.bytes == old(storage[2..Min(pos, storage.Length)])
      ensures m.Message? && count[0] > 1 ==>
                m.bytes == old(storage[..Min(pos, storage.Length)][1 := count[0] % 256])
      ensures !truncated && depth == 0 ==> m.Message?
      ensures count == old(count)
    {
      if depth != 0 {
        return NotEnded;
      }
      storage[1] := count[0] % 256;
      if pos > storage.Length {
        return Overrun(pos);
      }
      if count[0] <= 1 {
        return Message(storage[2..pos]);
      }
      return Message(storage[..pos]);
    }
  }

  lemma PrefixAt(s: seq<nat>, t: seq<nat>, k: nat)
    requires k < |s| && k < |t| && s[..k + 1] == t[..k + 1]
    ensures s[k] == t[k] && s[..k] == t[..k]
  {
    assert s[..k + 1][k] == s[k] && t[..k + 1][k] == t[k];
    assert s[..k + 1][..k] == s[..k] && t[..k + 1][..k] == t[..k];
  }

  /** Patching the count into a list's header completes its encoding. */
  lemma Patched(before: seq<byte>, after: seq<byte>, p: nat, n: byte, body: seq<byte>)
    requires |before| == p + 2 + |body| && before[p..p + 2] == [TYPE_LIST, 0] && before[p + 2..] == body
    requires after == before[p + 1 := n]
    ensures after[p..] == Framed(n, body) && after[..p] == before[..p]
  {
    assert before[p] == before[p..p + 2][0];
    assert after[p + 2..] == before[p + 2..];
  }

  lemma Appended(start: seq<byte>, mid: seq<byte>, end: seq<byte>, a: seq<byte>, b: seq<byte>)
    requires |mid| == |start| + |a| && mid[..|start|] == start && mid[|start|..] == a
    requires |end| == |mid| + |b| && end[..|mid|] == mid && end[|mid|..] == b
    ensures end[..|start|] == start && end[|start|..] == a + b
  {
    assert end == mid + b && mid == start + a;
  }
}
