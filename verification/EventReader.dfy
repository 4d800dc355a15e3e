/** Reading an event log message in place, and what writing and reading give together. */
module EventReader {
  import opened Basics
  import opened EventList
  import opened EventWriter

  class ReadContext {
    const storage: array<byte>
    var len: nat
    var pos: nat
    var count: seq<nat>
    var depth: nat
    var stop: bool

    ghost function State(): Reader
      reads this, storage
    {
      Reader(storage[..], len, pos, count, depth, stop)
    }

    /** create_android_log_parser. */
    constructor (msg: seq<byte>)
      ensures fresh(storage) && State() == Parser(msg)
    {
      var n := Min(|msg|, MAX_EVENT_PAYLOAD);
      storage := new byte[LOGGER_ENTRY_MAX_PAYLOAD](i => if 0 <= i < n then msg[i] else 0);
      len, pos, depth, stop := n, 0, 0, false;
      count := seq(MAX_NEST + 1, _ => 0);
      new;
      assert storage[..] == Parser(msg).buf;
    }

    /** An element that is not a list was read. */
    method Consume(next: nat)
      requires Valid(State()) && depth <= MAX_NEST
      modifies this
      ensures State() == Consumed(old(State()), next)
    {
      if count[depth] == 0 {
        stop := true;
      } else {
        count := count[depth := count[depth] - 1];
        if count[depth] == 0 {
          stop := true;
        }
      }
      pos := next;
    }

    method NextStop(peek: bool) returns (elem: Elem)
      requires Valid(State()) && depth <= MAX_NEST && stop
      modifies this
      ensures (elem, State()) == ReadStop(old(State()), peek)
    {
      elem := Elem(StopElem, count[0] == 0 && (depth == 0 || (depth == 1 && count[1] == 0)));
      if !peek {
        if storage[pos] == TYPE_LIST_STOP {
          pos := pos + 1;
        }
        if depth > 0 {
          depth := depth - 1;
          if count[depth] != 0 {
            stop := false;
          }
        } else {
          stop := false;
        }
      }
    }

    method NextScalar(size: nat, peek: bool) returns (elem: Elem)
      requires Valid(State()) && depth <= MAX_NEST && pos < len && (size == 4 || size == 8)
      modifies this
      ensures (elem, State()) == ReadScalar(old(State()), size, peek)
    {
      if pos + 1 + size > len {
        return Elem(UnknownElem, false);
      }
      var v := Signed(storage[pos + 1..pos + 1 + size]);
      assert storage[..][pos + 1..pos + 1 + size] == storage[pos + 1..pos + 1 + size];
      elem := Elem(if storage[pos] == TYPE_FLOAT then FloatElem(v) else if size == 4 then IntElem(v) else LongElem(v),
                   depth == 0 && count[0] == 0);
      if !peek {
        Consume(pos + 1 + size);
      }
    }

    method NextString(peek: bool) returns (elem: Elem)
      requires Valid(State()) && depth <= MAX_NEST && pos < len
      modifies this
      ensures (elem, State()) == ReadString(old(State()), peek)
    {
      var start := pos + 5;
      if start > len {
        return Elem(UnknownElem, true);
      }
      var length := Signed(storage[pos + 1..start]);
      assert storage[..][pos + 1..start] == storage[pos + 1..start];
      if length >= 65535 {
        return Elem(UnknownElem, false);
      }
      var n: nat := length % 65536;
      if start + n > len {
        n := len - start;
        if n == 0 {
          return Elem(UnknownElem, true);
        }
      }
      assert storage[..][start..start + n] == storage[start..start + n];
      elem := Elem(StrElem(storage[start..start + n]), depth == 0 && count[0] == 0);
      if !peek {
        Consume(start + n);
      }
    }

    method NextList(peek: bool) returns (elem: Elem)
      requires Valid(State()) && depth <= MAX_NEST && pos < len
      modifies this
      ensures (elem, State()) == ReadList(old(State()), peek)
    {
      if pos + 2 > len {
        return Elem(UnknownElem, true);
      }
      elem := Elem(ListElem, depth >= MAX_NEST);
      if peek {
        return;
      }
      if count[depth] != 0 {
        count := count[depth := count[depth] - 1];
      }
      assert count == old(count[depth := if count[depth] == 0 then 0 else count[depth] - 1]);
      stop := ElementCount(storage[pos + 1]) == 0;
      depth := depth + 1;
      if depth <= MAX_NEST {
        count := count[depth := ElementCount(storage[pos + 1])];
      }
      pos := pos + 2;
    }

    method NextNewline(peek: bool) returns (elem: Elem)
      requires Valid(State()) && depth <= MAX_NEST && pos < len
      modifies this
      ensures (elem, State()) == ReadNewline(old(State()), peek)
    {
      elem := Elem(if depth > 0 then StopElem else UnknownElem, depth == 0);
      if !peek {
        pos := pos + 1;
        if depth > 0 {
          depth := depth - 1;
        }
      }
    }

    /** android_log_read_next_internal. */
    method Next(peek: bool) returns (elem: Elem)
      requires Valid(State())
      modifies this
      ensures (elem, State()) == Read(old(State()), peek)
      ensures Valid(State())
    {
      ReadStaysInside(State(), peek);
      if depth > MAX_NEST || count[depth] >= MAX_EVENT_PAYLOAD / 2 {
        elem := Elem(if stop || (depth <= MAX_NEST && count[depth] == 0) then StopElem else UnknownElem, true);
      } else if stop {
        elem := NextStop(peek);
      } else if pos + 1 > len {
        elem := Elem(UnknownElem, true);
      } else if storage[pos] == TYPE_INT || storage[pos] == TYPE_FLOAT {
        elem := NextScalar(4, peek);
      } else if storage[pos] == TYPE_LONG {
        elem := NextScalar(8, peek);
      } else if storage[pos] == TYPE_STRING {
        elem := NextString(peek);
      } else if storage[pos] == TYPE_LIST {
        elem := NextList(peek);
      } else if storage[pos] == TYPE_LIST_STOP {
        elem := NextNewline(peek);
      } else {
        elem := Elem(UnknownElem, false);
      }
    }
  }

  /** Writing elements and delivering the message yields their encoding. */
  method BuildMessage(es: seq<Event>) returns (m: Message)
    requires DepthAll(es) <= MAX_NEST && 2 + |EncodeAll(es)| <= MAX_EVENT_PAYLOAD
    ensures m == Message(Delivered(es))
  {
    var w := new Writer();
    w.WriteEvents(es);
    assert w.count[0] == |es| by { assert w.count[..1][0] == |es|; }
    ghost var bytes := w.storage[..w.pos];
    assert bytes[2..] == EncodeAll(es);
    assert bytes[0] == TYPE_LIST by { assert bytes[..2][0] == TYPE_LIST; }
    m := w.Buffer();
    DeliveredBytes(es, bytes);
  }

  lemma {:induction false} DeliveredBytes(es: seq<Event>, bytes: seq<byte>)
    requires |bytes| >= 2 && bytes[0] == TYPE_LIST && bytes[2..] == EncodeAll(es)
    ensures |es| <= 1 ==> bytes[2..] == Delivered(es)
    ensures |es| > 1 ==> bytes[1 := |es| % 256] == Delivered(es)
  {
    if |es| == 1 {
      assert es[1..] == [];
      assert EncodeAll(es) == Encode(es[0]);
    } else if |es| > 1 {
      assert bytes[1 := |es| % 256] == Framed(|es| % 256, EncodeAll(es));
    }
  }

  /** The event that a message stands for. */
  function Sole(es: seq<Event>): Event
  {
    if |es| == 1 then es[0] else List(es)
  }

  /** Of the messages that can be written, those with a list, or themselves, of more than 127 elements do not read back;
      otherwise those of a single element do, and with two or more elements the writer takes one more level of nesting
      than the reader. */
  lemma {:induction false} MessageReadsBackIff(es: seq<Event>)
    requires AllFit(es) && es != [] && DepthAll(es) <= MAX_NEST && 2 + |EncodeAll(es)| <= MAX_EVENT_PAYLOAD
    ensures ReadMany(Parser(Delivered(es)), |Expect(Sole(es), true)|).0 == Expect(Sole(es), true)
       <==> |es| <= 127 && AllCountable(es) && (|es| == 1 || DepthAll(es) < MAX_NEST)
  {
    if |es| == 1 {
      assert es[1..] == [];
      assert EncodeAll(es) == Encode(es[0]) + [];
    }
    RoundTripIff(Sole(es));
  }

  function Nested(depth: nat): Event
  {
    if depth == 0 then Int(0) else List([Nested(depth - 1)])
  }

  lemma {:induction false} NestedFacts(depth: nat)
    ensures Fits(Nested(depth)) && Depth(Nested(depth)) == depth && |Encode(Nested(depth))| == 5 + 2 * depth
  {
    assert Pow256(4) == 0x1_0000_0000;
    if depth > 0 {
      NestedFacts(depth - 1);
      var es := [Nested(depth - 1)];
      assert es[1..] == [];
      assert EncodeAll(es) == Encode(es[0]) + [];
      assert DepthAll(es) == Max(Depth(es[0]), DepthAll([]));
    }
  }

  /** Eight lists within each other and a number can be written, and do not read back. */
  lemma DeepMessageLost()
    ensures var es := [Nested(MAX_NEST), Int(0)];
            && DepthAll(es) <= MAX_NEST && 2 + |EncodeAll(es)| <= MAX_EVENT_PAYLOAD
            && ReadMany(Parser(Delivered(es)), |Expect(Sole(es), true)|).0 != Expect(Sole(es), true)
  {
    NestedFacts(MAX_NEST);
    NestedFacts(0);
    var es := [Nested(MAX_NEST), Int(0)];
    assert es[1..] == [Int(0)] && es[1..][1..] == [];
    assert EncodeAll([Int(0)]) == Encode(Int(0)) + [];
    assert AllFit([Int(0)]);
    MessageReadsBackIff(es);
  }

  function Zeros(n: nat): (es: seq<Event>)
    ensures |es| == n && AllFit(es) && DepthAll(es) == 0 && |EncodeAll(es)| == 5 * n
  {
    assert Pow256(4) == 0x1_0000_0000;
    if n == 0 then [] else
      assert ([Int(0)] + Zeros(n - 1))[1..] == Zeros(n - 1);
      [Int(0)] + Zeros(n - 1)
  }

  /** So do 128 numbers. */
  lemma LongMessageLost()
    ensures var es := Zeros(128);
            && DepthAll(es) <= MAX_NEST && 2 + |EncodeAll(es)| <= MAX_EVENT_PAYLOAD
            && ReadMany(Parser(Delivered(es)), |Expect(Sole(es), true)|).0 != Expect(Sole(es), true)
  {
    MessageReadsBackIff(Zeros(128));
  }
}
