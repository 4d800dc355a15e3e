/** The binary event log format of liblog/log_event_list.cpp: nested lists of integers, floats and strings.

    This module holds the format, the reading state machine and the proof that it reads back what was encoded.
    A float is its 32 bits, as in the source, which moves it through the integer member of a union.
 */
module EventList {
  import opened Basics
  import opened Arith

  const LOGGER_ENTRY_MAX_PAYLOAD := 4068
  const MAX_EVENT_PAYLOAD := 4064
  const MAX_NEST := 8

  const TYPE_INT := 0
  const TYPE_LONG := 1
  const TYPE_STRING := 2
  const TYPE_LIST := 3
  const TYPE_FLOAT := 4
  const TYPE_LIST_STOP := 10

  type byte = x: int | 0 <= x < 256

  datatype Event =
    | Int(v: int)
    | Long(v: int)
    | Float(bits: int)
    | Str(s: seq<byte>)
    | List(es: seq<Event>)

  // ---------------------------------------------------------------- bytes

  function Pow256(n: nat): (r: nat)
    ensures 1 <= r
  {
    if n == 0 then 1 else 256 * Pow256(n - 1)
  }

  /** The low `n` bytes of a two's complement number, low byte first. */
  function LE(v: int, n: nat): (r: seq<byte>)
    ensures |r| == n
    decreases n
  {
    if n == 0 then [] else [v % 256] + LE(v / 256, n - 1)
  }

  function Unsigned(s: seq<byte>): (r: nat)
  {
    if s == [] then 0 else s[0] + 256 * Unsigned(s[1..])
  }

  /** The signed value of a four or eight byte field. */
  function Signed(s: seq<byte>): int
  {
    if 2 * Unsigned(s) >= Pow256(|s|) then Unsigned(s) - Pow256(|s|) else Unsigned(s)
  }

  predicate FitsIn(v: int, n: nat)
  {
    0 <= 2 * v + Pow256(n) < 2 * Pow256(n)
  }

  lemma {:induction false} UnsignedLE(v: int, n: nat)
    ensures Unsigned(LE(v, n)) == v % Pow256(n)
    decreases n
  {
    if n > 0 {
      UnsignedLE(v / 256, n - 1);
      assert LE(v, n)[1..] == LE(v / 256, n - 1);
      ModSplit(v, Pow256(n - 1));
    }
  }

  lemma {:induction false} ModSplit(v: int, p: nat)
    requires 1 <= p
    ensures v % (256 * p) == v % 256 + 256 * ((v / 256) % p)
  {
    var q, r := v / 256, v % 256;
    var q', r' := q / p, q % p;
    assert v == 256 * (p * q' + r') + r;
    assert v == (256 * p) * q' + (256 * r' + r);
    DivisionUnique(v, 256 * p, q', 256 * r' + r);
  }

  lemma {:induction false} SignedLE(v: int, n: nat)
    requires 1 <= n && FitsIn(v, n)
    ensures Signed(LE(v, n)) == v
  {
    UnsignedLE(v, n);
    if v < 0 {
      DivisionUnique(v, Pow256(n), -1, v + Pow256(n));
    } else {
      DivisionUnique(v, Pow256(n), 0, v);
    }
  }

  // ---------------------------------------------------------------- the format

  /** A list's header and its elements. */
  function Framed(n: byte, body: seq<byte>): (r: seq<byte>)
    ensures |r| == 2 + |body| && r[0] == TYPE_LIST && r[1] == n && r[2..] == body
  {
    [TYPE_LIST, n] + body
  }

  function Encode(e: Event): (r: seq<byte>)
    ensures |r| >= 2 && r[0] <= TYPE_FLOAT
    decreases e
  {
    match e
    case Int(v) => [TYPE_INT] + LE(v, 4)
    case Long(v) => [TYPE_LONG] + LE(v, 8)
    case Float(bits) => [TYPE_FLOAT] + LE(bits, 4)
    case Str(s) => [TYPE_STRING] + LE(|s|, 4) + s
    case List(es) => Framed(|es| % 256, EncodeAll(es))
  }

  function EncodeAll(es: seq<Event>): seq<byte>
    decreases es
  {
    if es == [] then [] else Encode(es[0]) + EncodeAll(es[1..])
  }

  /** Byte `i` of a number is the digit of its weight to the base 256. */
  lemma {:induction false} LEByte(v: int, n: nat, i: nat)
    requires i < n
    ensures LE(v, n)[i] == (v / Pow256(i)) % 256
    decreases n
  {
    if i > 0 {
      LEByte(v / 256, n - 1, i - 1);
      DivideTwice(v, Pow256(i - 1));
    }
  }

  lemma DivideTwice(v: int, p: nat)
    requires 1 <= p
    ensures v / 256 / p == v / (256 * p)
  {
    var q, r := v / 256, v % 256;
    var q', r' := q / p, q % p;
    assert v == (256 * p) * q' + (256 * r' + r);
    DivisionUnique(v, 256 * p, q', 256 * r' + r);
  }

  /** The bytes of an event: a type, then a number with its low byte first, or a length and a text, or a count and the
      elements. */
  lemma WireFormat(e: Event)
    ensures e.Int? ==> |Encode(e)| == 5 && Encode(e)[0] == 0 && IsNumber(Encode(e)[1..], e.v)
    ensures e.Long? ==> |Encode(e)| == 9 && Encode(e)[0] == 1 && IsNumber(Encode(e)[1..], e.v)
    ensures e.Float? ==> |Encode(e)| == 5 && Encode(e)[0] == 4 && IsNumber(Encode(e)[1..], e.bits)
    ensures e.Str? ==>
              && |Encode(e)| == 5 + |e.s| && Encode(e)[0] == 2 && IsNumber(Encode(e)[1..5], |e.s|)
              && Encode(e)[5..] == e.s
    ensures e.List? ==> Encode(e)[0] == 3 && Encode(e)[1] == |e.es| % 256 && Encode(e)[2..] == EncodeAll(e.es)
  {
    if !e.List? {
      var v := match e
        case Int(v) => v
        case Long(v) => v
        case Float(bits) => bits
        case Str(s) => |s|
        case List(_) => 0;
      var n := if e.Long? then 8 else 4;
      forall i | 0 <= i < n ensures LE(v, n)[i] == (v / Pow256(i)) % 256 { LEByte(v, n, i); }
      assert Encode(e)[1..1 + n] == LE(v, n);
    }
  }

  ghost predicate IsNumber(bytes: seq<byte>, v: int)
  {
    forall i :: 0 <= i < |bytes| ==> bytes[i] == (v / Pow256(i)) % 256
  }

  /** Values that their fields can hold. */
  predicate Fits(e: Event)
    decreases e
  {
    match e
    case Int(v) => FitsIn(v, 4)
    case Long(v) => FitsIn(v, 8)
    case Float(bits) => FitsIn(bits, 4)
    case Str(_) => true
    case List(es) => AllFit(es)
  }

  predicate AllFit(es: seq<Event>)
    decreases es
  {
    es == [] || (Fits(es[0]) && AllFit(es[1..]))
  }

  /** Lists that the reader can count: their length is a positive signed byte. */
  predicate Countable(e: Event)
    decreases e
  {
    e.List? ==> |e.es| <= 127 && AllCountable(e.es)
  }

  predicate AllCountable(es: seq<Event>)
    decreases es
  {
    es == [] || (Countable(es[0]) && AllCountable(es[1..]))
  }

  predicate Proper(e: Event)
  {
    Fits(e) && Countable(e)
  }

  predicate AllProper(es: seq<Event>)
  {
    AllFit(es) && AllCountable(es)
  }

  /** How deep lists are nested. */
  function Depth(e: Event): nat
    decreases e
  {
    if e.List? then 1 + DepthAll(e.es) else 0
  }

  function DepthAll(es: seq<Event>): nat
    decreases es
  {
    if es == [] then 0 else Max(Depth(es[0]), DepthAll(es[1..]))
  }

  // ---------------------------------------------------------------- reading

  datatype Kind =
    | IntElem(v: int)
    | LongElem(v: int)
    | FloatElem(bits: int)
    | StrElem(s: seq<byte>)
    | ListElem
    | StopElem
    | UnknownElem

  datatype Elem = Elem(kind: Kind, complete: bool)

  /** The reading context: `count[d]` elements are still to come at depth `d`, and `stop` says that the next
      element is the end of a list. */
  datatype Reader = Reader(buf: seq<byte>, len: nat, pos: nat, count: seq<nat>, depth: nat, stop: bool)

  /** The position stays within the message, whatever the message is. */
  ghost predicate Valid(r: Reader)
  {
    && |r.buf| == LOGGER_ENTRY_MAX_PAYLOAD && r.pos <= r.len <= MAX_EVENT_PAYLOAD
    && |r.count| == MAX_NEST + 1 && r.depth <= MAX_NEST + 1
    && (forall i :: r.len <= i < |r.buf| ==> r.buf[i] == 0)
  }

  /** The element count is a signed byte, widened to an unsigned int. */
  function ElementCount(b: byte): nat
  {
    if b < 128 then b else 0x1_0000_0000 - 256 + b
  }

  /** After an element that is not a list: one fewer to come, and the list ends with the last one. */
  function Consumed(r: Reader, pos: nat): Reader
    requires r.depth < |r.count|
  {
    var c := r.count[r.depth];
    r.(pos := pos, count := r.count[r.depth := if c == 0 then 0 else c - 1], stop := r.stop || c <= 1)
  }

  function ReadStop(r: Reader, peek: bool): (Elem, Reader)
    requires Valid(r) && r.depth <= MAX_NEST
  {
    var complete := r.count[0] == 0 && (r.depth == 0 || (r.depth == 1 && r.count[1] == 0));
    var pos := if r.buf[r.pos] == TYPE_LIST_STOP then r.pos + 1 else r.pos;
    (Elem(StopElem, complete),
     if peek then r
     else if r.depth > 0 then r.(pos := pos, depth := r.depth - 1, stop := r.count[r.depth - 1] == 0)
     else r.(pos := pos, stop := false))
  }

  function ReadScalar(r: Reader, size: nat, peek: bool): (Elem, Reader)
    requires Valid(r) && r.depth <= MAX_NEST && r.pos < r.len && (size == 4 || size == 8)
  {
    var next := r.pos + 1 + size;
    if next > r.len then (Elem(UnknownElem, false), r)
    else
      var v := Signed(r.buf[r.pos + 1..next]);
      var kind := if r.buf[r.pos] == TYPE_FLOAT then FloatElem(v) else if size == 4 then IntElem(v) else LongElem(v);
      (Elem(kind, r.depth == 0 && r.count[0] == 0), if peek then r else Consumed(r, next))
  }

  function ReadString(r: Reader, peek: bool): (Elem, Reader)
    requires Valid(r) && r.depth <= MAX_NEST && r.pos < r.len
  {
    var start := r.pos + 5;
    if start > r.len then (Elem(UnknownElem, true), r)
    else
      var length := Signed(r.buf[r.pos + 1..start]);
      if length >= 65535 then (Elem(UnknownElem, false), r)
      else
        var n := if start + length % 65536 > r.len then r.len - start else length % 65536;
        if n == 0 && length % 65536 != 0 then (Elem(UnknownElem, true), r)
        else (Elem(StrElem(r.buf[start..start + n]), r.depth == 0 && r.count[0] == 0),
              if peek then r else Consumed(r, start + n))
  }

  function ReadList(r: Reader, peek: bool): (Elem, Reader)
    requires Valid(r) && r.depth <= MAX_NEST && r.pos < r.len
  {
    if r.pos + 2 > r.len then (Elem(UnknownElem, true), r)
    else
      var c := r.count[r.depth];
      var counts := r.count[r.depth := if c == 0 then 0 else c - 1];
      var inner := ElementCount(r.buf[r.pos + 1]);
      (Elem(ListElem, r.depth >= MAX_NEST),
       if peek then r
       else r.(pos := r.pos + 2, depth := r.depth + 1, stop := inner == 0,
               count := if r.depth < MAX_NEST then counts[r.depth + 1 := inner] else counts))
  }

  /** A newline where an element should be ends the list. */
  function ReadNewline(r: Reader, peek: bool): (Elem, Reader)
    requires Valid(r) && r.depth <= MAX_NEST && r.pos < r.len
  {
    (Elem(if r.depth > 0 then StopElem else UnknownElem, r.depth == 0),
     if peek then r else r.(pos := r.pos + 1, depth := if r.depth > 0 then r.depth - 1 else 0))
  }

  /** android_log_read_next_internal. */
  function Read(r: Reader, peek: bool): (Elem, Reader)
    requires Valid(r)
  {
    if r.depth > MAX_NEST || r.count[r.depth] >= MAX_EVENT_PAYLOAD / 2 then
      (Elem(if r.stop || (r.depth <= MAX_NEST && r.count[r.depth] == 0) then StopElem else UnknownElem, true), r)
    else if r.stop then ReadStop(r, peek)
    else if r.pos + 1 > r.len then (Elem(UnknownElem, true), r)
    else
      var t := r.buf[r.pos];
      if t == TYPE_INT || t == TYPE_FLOAT then ReadScalar(r, 4, peek)
      else if t == TYPE_LONG then ReadScalar(r, 8, peek)
      else if t == TYPE_STRING then ReadString(r, peek)
      else if t == TYPE_LIST then ReadList(r, peek)
      else if t == TYPE_LIST_STOP then ReadNewline(r, peek)
      else (Elem(UnknownElem, false), r)
  }

  /** Reading any message, well formed or not, stays within it. */
  lemma {:induction false} ReadStaysInside(r: Reader, peek: bool)
    requires Valid(r)
    ensures Valid(Read(r, peek).1) && Read(r, peek).1.buf == r.buf && Read(r, peek).1.len == r.len
    ensures r.pos <= Read(r, peek).1.pos
  {
  }

  /** Peeking gives what the next read will give, and changes nothing. */
  lemma {:induction false} PeekIsNext(r: Reader)
    requires Valid(r)
    ensures Read(r, true) == (Read(r, false).0, r)
  {
  }

  // ---------------------------------------------------------------- what a well formed message reads as

  function ScalarKind(e: Event): Kind
    requires !e.List?
  {
    match e
    case Int(v) => IntElem(v)
    case Long(v) => LongElem(v)
    case Float(bits) => FloatElem(bits)
    case Str(s) => StrElem(s)
  }

  /** The elements that an event reads as; the last one is marked complete when the event is the whole message. */
  function Expect(e: Event, top: bool): (r: seq<Elem>)
    ensures |r| >= 1
    decreases e
  {
    if e.List? then [Elem(ListElem, false)] + ExpectAll(e.es) + [Elem(StopElem, top)]
    else [Elem(ScalarKind(e), top)]
  }

  function ExpectAll(es: seq<Event>): seq<Elem>
    decreases es
  {
    if es == [] then [] else Expect(es[0], false) + ExpectAll(es[1..])
  }

  /** The next `n` elements. */
  function ReadMany(r: Reader, n: nat): (seq<Elem>, Reader)
    requires Valid(r)
    decreases n
  {
    if n == 0 then ([], r)
    else
      var (elem, r1) := Read(r, false);
      ReadStaysInside(r, false);
      var (rest, r2) := ReadMany(r1, n - 1);
      ([elem] + rest, r2)
  }

  lemma {:induction false} ReadManyValid(r: Reader, n: nat)
    requires Valid(r)
    ensures Valid(ReadMany(r, n).1) && |ReadMany(r, n).0| == n
    ensures ReadMany(r, n).1.buf == r.buf && ReadMany(r, n).1.len == r.len
    decreases n
  {
    if n > 0 {
      ReadStaysInside(r, false);
      ReadManyValid(Read(r, false).1, n - 1);
    }
  }

  lemma {:induction false} ReadManySplit(r: Reader, a: nat, b: nat)
    requires Valid(r)
    ensures Valid(ReadMany(r, a).1)
    ensures ReadMany(r, a + b) == (ReadMany(r, a).0 + ReadMany(ReadMany(r, a).1, b).0, ReadMany(ReadMany(r, a).1, b).1)
    decreases a
  {
    if a > 0 {
      ReadStaysInside(r, false);
      ReadManySplit(Read(r, false).1, a - 1, b);
      var (elem, r1) := Read(r, false);
      assert a + b - 1 == (a - 1) + b;
      var x, y := ReadMany(r1, a - 1).0, ReadMany(ReadMany(r1, a - 1).1, b).0;
      assert [elem] + (x + y) == ([elem] + x) + y;
    } else {
      assert [] + ReadMany(r, b).0 == ReadMany(r, b).0;
    }
  }

  /** The bytes at the reading position are `bytes`, and what follows them is not a stray newline. */
  ghost predicate Holds(r: Reader, bytes: seq<byte>)
  {
    && Valid(r) && r.pos + |bytes| <= r.len && r.buf[r.pos + |bytes|] != TYPE_LIST_STOP
    && (forall key {:trigger Open(key)} :: Open(key) ==> r.buf[r.pos..r.pos + |bytes|] == bytes)
  }

  /** The reader is about to read an element: the message itself, or one of those its list still expects. */
  ghost predicate Ready(r: Reader)
  {
    && Valid(r) && r.depth <= MAX_NEST && !r.stop
    && (if r.depth == 0 then r.count[0] == 0 else 1 <= r.count[r.depth] <= 127)
  }

  /** The reader after an element of `n` bytes. */
  ghost predicate After(r: Reader, r': Reader, n: nat)
    requires Ready(r) && Valid(r')
  {
    && r'.buf == r.buf && r'.len == r.len && r'.pos == r.pos + n && r'.depth == r.depth
    && (forall i :: 0 <= i < r.depth ==> r'.count[i] == r.count[i])
    && r'.count[r.depth] == (if r.depth == 0 then 0 else r.count[r.depth] - 1)
    && r'.stop == (r'.count[r.depth] == 0)
  }

  /** A piece of what the buffer holds. */
  lemma {:induction false} Piece(r: Reader, bytes: seq<byte>, i: nat, j: nat)
    requires Holds(r, bytes) && i <= j <= |bytes|
    ensures r.buf[r.pos + i..r.pos + j] == bytes[i..j]
    ensures bytes != [] ==> r.buf[r.pos] == bytes[0]
  {
    assert Open(0);
    SliceOfSlice(r.buf, r.pos, |bytes|, i, j);
    assert bytes != [] ==> r.buf[r.pos..r.pos + |bytes|][0] == r.buf[r.pos];
  }

  lemma SliceOfSlice(s: seq<byte>, p: nat, n: nat, i: nat, j: nat)
    requires p + n <= |s| && i <= j <= n
    ensures s[p..p + n][i..j] == s[p + i..p + j]
  {
    var piece := s[p..p + n];
    assert forall k :: i <= k < j ==> piece[k] == s[p + k];
  }

  lemma {:induction false} ByteAt(r: Reader, bytes: seq<byte>, i: nat)
    requires Holds(r, bytes) && i < |bytes|
    ensures r.buf[r.pos + i] == bytes[i]
  {
    assert Open(0);
    assert r.buf[r.pos..r.pos + |bytes|][i] == r.buf[r.pos + i];
  }

  function FixedKind(t: byte, v: int): Kind
  {
    if t == TYPE_FLOAT then FloatElem(v) else if t == TYPE_INT then IntElem(v) else LongElem(v)
  }

  lemma {:induction false} FixedStep(r: Reader, t: byte, v: int, n: nat)
    requires Ready(r) && r.pos + 1 + n <= r.len && r.buf[r.pos] == t && Signed(r.buf[r.pos + 1..r.pos + 1 + n]) == v
    requires (t == TYPE_LONG && n == 8) || ((t == TYPE_INT || t == TYPE_FLOAT) && n == 4)
    ensures Read(r, false).0 == Elem(FixedKind(t, v), r.depth == 0)
    ensures Valid(Read(r, false).1) && After(r, Read(r, false).1, 1 + n)
  {
  }

  lemma AfterTag(t: byte, s: seq<byte>)
    ensures ([t] + s)[1..1 + |s|] == s
  {
  }

  lemma {:induction false} ReadsFixed(r: Reader, t: byte, v: int, n: nat)
    requires Ready(r) && Holds(r, [t] + LE(v, n)) && FitsIn(v, n)
    requires (t == TYPE_LONG && n == 8) || ((t == TYPE_INT || t == TYPE_FLOAT) && n == 4)
    ensures Read(r, false).0 == Elem(FixedKind(t, v), r.depth == 0)
    ensures Valid(Read(r, false).1) && After(r, Read(r, false).1, 1 + n)
  {
    Piece(r, [t] + LE(v, n), 1, 1 + n);
    AfterTag(t, LE(v, n));
    SignedLE(v, n);
    FixedStep(r, t, v, n);
  }

  lemma {:induction false} StrEncoding(s: seq<byte>)
    ensures |Encode(Str(s))| == 5 + |s| && Encode(Str(s))[0] == TYPE_STRING
    ensures Encode(Str(s))[1..5] == LE(|s|, 4) && Encode(Str(s))[5..5 + |s|] == s
  {
  }

  lemma {:induction false} StrStep(r: Reader, s: seq<byte>)
    requires Ready(r) && r.pos + 5 + |s| <= r.len && r.buf[r.pos] == TYPE_STRING
    requires Signed(r.buf[r.pos + 1..r.pos + 5]) == |s| && r.buf[r.pos + 5..r.pos + 5 + |s|] == s
    ensures Read(r, false).0 == Elem(StrElem(s), r.depth == 0)
    ensures Valid(Read(r, false).1) && After(r, Read(r, false).1, 5 + |s|)
  {
  }

  lemma {:induction false} ReadsStr(r: Reader, s: seq<byte>)
    requires Ready(r) && Holds(r, Encode(Str(s)))
    ensures Read(r, false).0 == Elem(StrElem(s), r.depth == 0)
    ensures Valid(Read(r, false).1) && After(r, Read(r, false).1, 5 + |s|)
  {
    StrEncoding(s);
    Piece(r, Encode(Str(s)), 1, 5);
    Piece(r, Encode(Str(s)), 5, 5 + |s|);
    assert Pow256(4) == 0x1_0000_0000;
    SignedLE(|s|, 4);
    StrStep(r, s);
  }

  lemma {:induction false} ReadsScalar(e: Event, r: Reader)
    requires !e.List? && Proper(e) && Ready(r) && Holds(r, Encode(e))
    ensures Read(r, false).0 == Elem(ScalarKind(e), r.depth == 0)
    ensures Valid(Read(r, false).1) && After(r, Read(r, false).1, |Encode(e)|)
  {
    match e
    case Int(v) => ReadsFixed(r, TYPE_INT, v, 4);
    case Float(v) => ReadsFixed(r, TYPE_FLOAT, v, 4);
    case Long(v) => ReadsFixed(r, TYPE_LONG, v, 8);
    case Str(s) => ReadsStr(r, s);
  }

  /** The reader inside a list that has just begun. */
  ghost predicate Inside(r: Reader, r': Reader, n: nat)
    requires Ready(r) && Valid(r') && r.depth < MAX_NEST
  {
    && r'.buf == r.buf && r'.len == r.len && r'.pos == r.pos + 2 && r'.depth == r.depth + 1
    && (forall i :: 0 <= i < r.depth ==> r'.count[i] == r.count[i])
    && r'.count[r.depth] == (if r.depth == 0 then 0 else r.count[r.depth] - 1)
    && r'.count[r.depth + 1] == n && r'.stop == (n == 0)
  }

  lemma {:induction false} Suffix(r: Reader, r': Reader, bytes: seq<byte>, n: nat)
    requires Holds(r, bytes) && n <= |bytes|
    requires Valid(r') && r'.buf == r.buf && r'.len == r.len && r'.pos == r.pos + n
    ensures Holds(r', bytes[n..])
  {
    Piece(r, bytes, n, |bytes|);
    assert bytes[n..] == bytes[n..|bytes|];
  }

  lemma {:induction false} ListEncoding(es: seq<Event>)
    requires |es| <= 127
    ensures Encode(List(es)) == Framed(|es|, EncodeAll(es))
  {
    assert |es| % 256 == |es|;
  }

  lemma {:induction false} ListBytes(es: seq<Event>, r: Reader)
    requires |es| <= 127 && Holds(r, Encode(List(es)))
    ensures r.pos + 2 <= r.len && r.buf[r.pos] == TYPE_LIST && r.buf[r.pos + 1] == |es|
    ensures Encode(List(es))[2..] == EncodeAll(es)
  {
    ListEncoding(es);
    ByteAt(r, Encode(List(es)), 0);
    ByteAt(r, Encode(List(es)), 1);
  }

  lemma {:induction false} BeginStep(r: Reader, n: nat)
    requires Ready(r) && r.depth < MAX_NEST && r.pos + 2 <= r.len
    requires n <= 127 && r.buf[r.pos] == TYPE_LIST && r.buf[r.pos + 1] == n
    ensures Read(r, false).0 == Elem(ListElem, false)
    ensures Valid(Read(r, false).1) && Inside(r, Read(r, false).1, n)
  {
  }

  lemma {:induction false} ReadsBegin(es: seq<Event>, r: Reader)
    requires |es| <= 127 && Ready(r) && r.depth < MAX_NEST && Holds(r, Encode(List(es)))
    ensures Read(r, false).0 == Elem(ListElem, false)
    ensures Valid(Read(r, false).1) && Inside(r, Read(r, false).1, |es|)
    ensures Holds(Read(r, false).1, EncodeAll(es))
  {
    ListBytes(es, r);
    BeginStep(r, |es|);
    Suffix(r, Read(r, false).1, Encode(List(es)), 2);
  }

  lemma {:induction false} ReadsEnd(r: Reader, r1: Reader, r2: Reader, n: nat)
    requires Ready(r) && Valid(r1) && r.depth < MAX_NEST
    requires Valid(r2) && r2.buf == r.buf && r2.len == r.len && r2.depth == r.depth + 1 && r2.stop
             && r2.count[r.depth + 1] == 0
    requires r2.pos == r.pos + n && r2.buf[r2.pos] != TYPE_LIST_STOP
    requires forall i :: 0 <= i < r.depth ==> r2.count[i] == r.count[i]
    requires r2.count[r.depth] == (if r.depth == 0 then 0 else r.count[r.depth] - 1)
    ensures Read(r2, false).0 == Elem(StopElem, r.depth == 0)
    ensures Valid(Read(r2, false).1) && After(r, Read(r2, false).1, n)
  {
    ReadStaysInside(r2, false);
  }

  // ---------------------------------------------------------------- the round trip

  /** From `r`, the next elements are `elems`, and then the reader is at `r'`. */
  ghost predicate Yields(r: Reader, elems: seq<Elem>, r': Reader)
  {
    Valid(r) && Valid(r') && forall key {:trigger Open(key)} :: Open(key) ==> ReadMany(r, |elems|) == (elems, r')
  }

  lemma {:induction false} YieldsOne(r: Reader)
    requires Valid(r)
    ensures Yields(r, [Read(r, false).0], Read(r, false).1)
  {
    ReadStaysInside(r, false);
    var (elem, r1) := Read(r, false);
    assert ReadMany(r1, 0) == ([], r1);
    assert [elem] + [] == [elem];
  }

  lemma {:induction false} YieldsNone(r: Reader)
    requires Valid(r)
    ensures Yields(r, [], r)
  {
  }

  lemma {:induction false} YieldsJoin(r: Reader, a: seq<Elem>, r1: Reader, b: seq<Elem>, r2: Reader)
    requires Yields(r, a, r1) && Yields(r1, b, r2)
    ensures Yields(r, a + b, r2)
  {
    assert Open(0);
    ReadManySplit(r, |a|, |b|);
  }

  lemma {:induction false} Prefix(r: Reader, first: seq<byte>, rest: seq<byte>)
    requires Holds(r, first + rest) && (rest != [] ==> rest[0] != TYPE_LIST_STOP)
    ensures Holds(r, first)
  {
    Piece(r, first + rest, 0, |first|);
    assert (first + rest)[0..|first|] == first;
    if rest == [] {
      assert first + rest == first;
    } else {
      Piece(r, first + rest, |first|, |first| + 1);
      assert (first + rest)[|first|..|first| + 1] == [rest[0]];
      assert r.buf[r.pos + |first|..r.pos + |first| + 1][0] == r.buf[r.pos + |first|];
    }
  }

  lemma YieldsList(r: Reader, r1: Reader, es: seq<Event>, r2: Reader, r': Reader, last: bool)
    requires Yields(r, [Elem(ListElem, false)], r1) && Yields(r1, ExpectAll(es), r2)
    requires Yields(r2, [Elem(StopElem, last)], r')
    ensures Yields(r, Expect(List(es), last), r')
  {
    YieldsJoin(r, [Elem(ListElem, false)], r1, ExpectAll(es), r2);
    YieldsJoin(r, [Elem(ListElem, false)] + ExpectAll(es), r2, [Elem(StopElem, last)], r');
  }

  /** An event that is not nested too deeply reads back as itself, element by element. */
  lemma {:induction false} ReadsEvent(e: Event, r: Reader) returns (r': Reader)
    requires Proper(e) && Ready(r) && Holds(r, Encode(e)) && r.depth + Depth(e) <= MAX_NEST
    ensures Yields(r, Expect(e, r.depth == 0), r') && After(r, r', |Encode(e)|)
    decreases e
  {
    YieldsOne(r);
    if e.List? {
      ReadsBegin(e.es, r);
      var r1, r2 := Read(r, false).1, Read(r, false).1;
      YieldsNone(r1);
      if e.es != [] {
        r2 := ReadsEvents(e.es, r1);
      }
      ReadsEnd(r, r1, r2, |Encode(e)|);
      YieldsOne(r2);
      r' := Read(r2, false).1;
      YieldsList(r, r1, e.es, r2, r', r.depth == 0);
    } else {
      ReadsScalar(e, r);
      r' := Read(r, false).1;
    }
  }

  /** Reading the first element of a list leads to the rest of the list. */
  lemma {:induction false} ReadsFirst(es: seq<Event>, r: Reader) returns (r': Reader)
    requires es != [] && Proper(es[0]) && Ready(r) && r.depth > 0
    requires Holds(r, EncodeAll(es)) && r.depth + Depth(es[0]) <= MAX_NEST
    ensures Yields(r, Expect(es[0], false), r') && After(r, r', |Encode(es[0])|)
    ensures Holds(r', EncodeAll(es[1..])) && r'.pos + |EncodeAll(es[1..])| == r.pos + |EncodeAll(es)|
    decreases es, 0
  {
    Prefix(r, Encode(es[0]), EncodeAll(es[1..]));
    r' := ReadsEvent(es[0], r);
    Suffix(r, r', EncodeAll(es), |Encode(es[0])|);
    assert EncodeAll(es)[|Encode(es[0])|..] == EncodeAll(es[1..]);
  }

  lemma {:induction false} ReadsEvents(es: seq<Event>, r: Reader) returns (r': Reader)
    requires es != [] && AllProper(es) && Ready(r) && r.depth > 0 && r.count[r.depth] == |es|
    requires Holds(r, EncodeAll(es)) && r.depth + DepthAll(es) <= MAX_NEST
    ensures Yields(r, ExpectAll(es), r')
    ensures r'.buf == r.buf && r'.len == r.len && r'.pos == r.pos + |EncodeAll(es)| && r'.depth == r.depth
    ensures forall i :: 0 <= i < r.depth ==> r'.count[i] == r.count[i]
    ensures r'.count[r.depth] == 0 && r'.stop
    decreases es, 1
  {
    var r1 := ReadsFirst(es, r);
    if es[1..] == [] {
      r' := r1;
      YieldsNone(r1);
    } else {
      r' := ReadsEvents(es[1..], r1);
    }
    YieldsJoin(r, Expect(es[0], false), r1, ExpectAll(es[1..]), r');
  }

  lemma {:induction false} TooDeep(r: Reader)
    requires Ready(r) && r.depth == MAX_NEST && r.pos + 2 <= r.len && r.buf[r.pos] == TYPE_LIST
    ensures Read(r, false).0 == Elem(ListElem, true)
  {
  }

  /** A mark that lets a proof look inside `Diverges`; elsewhere it is kept as one fact. */
  ghost predicate Looking(key: int)
  {
    true
  }

  /** From `r` the elements read agree with `all` up to position `n` and differ there. */
  ghost predicate Diverges(r: Reader, all: seq<Elem>, n: nat, r': Reader)
  {
    forall key {:trigger Looking(key)} :: Looking(key) ==>
      n < |all| && Yields(r, all[..n], r') && Read(r', false).0 != all[n]
  }

  lemma {:induction false} DivergesFirst(r: Reader, first: seq<Elem>, rest: seq<Elem>, n: nat, r': Reader)
    requires Diverges(r, first, n, r')
    ensures Diverges(r, first + rest, n, r')
  {
    assert Looking(0);
    assert (first + rest)[..n] == first[..n] && (first + rest)[n] == first[n];
  }

  lemma {:induction false} DivergesRest(r: Reader, first: seq<Elem>, r1: Reader, rest: seq<Elem>, n: nat, r': Reader)
    requires Yields(r, first, r1) && Diverges(r1, rest, n, r')
    ensures Diverges(r, first + rest, |first| + n, r')
  {
    assert Looking(0);
    YieldsJoin(r, first, r1, rest[..n], r');
    assert (first + rest)[..|first| + n] == first + rest[..n] && (first + rest)[|first| + n] == rest[n];
  }

  /** The header of any list. */
  lemma {:induction false} ListHeader(es: seq<Event>, r: Reader)
    requires Holds(r, Encode(List(es)))
    ensures r.pos + 2 <= r.len && r.buf[r.pos] == TYPE_LIST && r.buf[r.pos + 1] == |es| % 256
    ensures Encode(List(es))[2..] == EncodeAll(es)
  {
    ByteAt(r, Encode(List(es)), 0);
    ByteAt(r, Encode(List(es)), 1);
  }

  /** Reading the header of a list with a count that the reader cannot use: the next element is not one of the list. */
  lemma {:induction false} MiscountStep(r: Reader, b: byte)
    requires Ready(r) && r.depth < MAX_NEST && r.pos + 2 <= r.len && r.buf[r.pos] == TYPE_LIST && r.buf[r.pos + 1] == b
    requires b == 0 || b >= 128
    ensures Read(r, false).0 == Elem(ListElem, false) && Valid(Read(r, false).1)
    ensures var elem := Read(Read(r, false).1, false).0; elem.complete || elem.kind == StopElem
  {
  }

  /** The reader can read the event: its lists are short enough, and not nested too deeply. */
  predicate Readable(e: Event, depth: nat)
  {
    Countable(e) && depth + Depth(e) <= MAX_NEST
  }

  predicate AllReadable(es: seq<Event>, depth: nat)
    decreases es
  {
    es == [] || (Readable(es[0], depth) && AllReadable(es[1..], depth))
  }

  lemma {:induction false} ReadableList(es: seq<Event>, depth: nat)
    requires depth < MAX_NEST && |es| <= 127 && AllReadable(es, depth + 1)
    ensures Readable(List(es), depth)
  {
    ReadableParts(es, depth + 1);
  }

  lemma {:induction false} ReadableParts(es: seq<Event>, depth: nat)
    requires depth <= MAX_NEST && AllReadable(es, depth)
    ensures AllCountable(es) && depth + DepthAll(es) <= MAX_NEST
    decreases es
  {
    if es != [] {
      ReadableParts(es[1..], depth);
    }
  }

  /** What an event is expected to read as begins with an element that is neither a stop nor complete. */
  lemma {:induction false} ExpectStarts(es: seq<Event>)
    requires es != []
    ensures ExpectAll(es) != [] && !ExpectAll(es)[0].complete && ExpectAll(es)[0].kind != StopElem
  {
    assert ExpectAll(es)[0] == Expect(es[0], false)[0];
  }

  lemma {:induction false} DivergesAt(r: Reader, first: seq<Elem>, r1: Reader, rest: seq<Elem>)
    requires Yields(r, first, r1) && rest != [] && Read(r1, false).0 != rest[0]
    ensures Diverges(r, first + rest, |first|, r1)
  {
    assert (first + rest)[..|first|] == first && (first + rest)[|first|] == rest[0];
  }

  /** The list whose count the reader cannot use. */
  lemma {:induction false} ReadsMiscounted(es: seq<Event>, r: Reader) returns (n: nat, r': Reader)
    requires es != [] && Ready(r) && r.depth < MAX_NEST && Holds(r, Encode(List(es)))
    requires |es| % 256 == 0 || |es| % 256 >= 128
    ensures Diverges(r, [Elem(ListElem, false)] + ExpectAll(es), n, r')
  {
    ListHeader(es, r);
    MiscountStep(r, |es| % 256);
    YieldsOne(r);
    ExpectStarts(es);
    n, r' := 1, Read(r, false).1;
    DivergesAt(r, [Elem(ListElem, false)], r', ExpectAll(es));
  }

  /** The reader inside a list, as far as it can count it. */
  lemma {:induction false} ReadsHeader(es: seq<Event>, r: Reader)
    requires Ready(r) && r.depth < MAX_NEST && Holds(r, Encode(List(es))) && 1 <= |es| % 256 <= 127
    ensures Read(r, false).0 == Elem(ListElem, false)
    ensures Valid(Read(r, false).1) && Inside(r, Read(r, false).1, |es| % 256)
    ensures Holds(Read(r, false).1, EncodeAll(es))
  {
    ListHeader(es, r);
    BeginStep(r, |es| % 256);
    Suffix(r, Read(r, false).1, Encode(List(es)), 2);
  }

  lemma {:induction false} SomeUnreadable(es: seq<Event>, depth: nat)
    requires depth < MAX_NEST && !Readable(List(es), depth)
    ensures es != [] && (|es| % 256 <= 127 ==> |es| % 256 < |es| || !AllReadable(es, depth + 1))
  {
    if |es| <= 127 && AllReadable(es, depth + 1) {
      ReadableList(es, depth);
    }
  }

  /** An event that the reader cannot read reads back as itself only up to some element. */
  lemma {:induction false} ReadsUnreadable(e: Event, r: Reader) returns (n: nat, r': Reader)
    requires Fits(e) && Ready(r) && Holds(r, Encode(e)) && !Readable(e, r.depth)
    ensures Diverges(r, Expect(e, r.depth == 0), n, r')
    decreases e, 2
  {
    if r.depth == MAX_NEST {
      ListHeader(e.es, r);
      TooDeep(r);
      YieldsNone(r);
      n, r' := 0, r;
      assert Expect(e, r.depth == 0)[..0] == [];
    } else {
      SomeUnreadable(e.es, r.depth);
      if 1 <= |e.es| % 256 <= 127 {
        n, r' := ReadsUnreadableList(e, r);
      } else {
        n, r' := ReadsMiscounted(e.es, r);
      }
      DivergesFirst(r, [Elem(ListElem, false)] + ExpectAll(e.es), [Elem(StopElem, r.depth == 0)], n, r');
    }
  }

  lemma {:induction false} ReadsUnreadableList(e: Event, r: Reader) returns (n: nat, r': Reader)
    requires e.List? && e.es != [] && AllFit(e.es) && Ready(r) && r.depth < MAX_NEST && Holds(r, Encode(e))
    requires 1 <= |e.es| % 256 <= 127 && (|e.es| % 256 < |e.es| || !AllReadable(e.es, r.depth + 1))
    ensures Diverges(r, [Elem(ListElem, false)] + ExpectAll(e.es), n, r')
    decreases e, 1
  {
    YieldsOne(r);
    ReadsHeader(e.es, r);
    var r1 := Read(r, false).1;
    n, r' := ReadsUnreadableAll(e.es, r1);
    DivergesRest(r, [Elem(ListElem, false)], r1, ExpectAll(e.es), n, r');
    n := 1 + n;
  }

  /** A list that is longer than its count says, or that has an element which cannot be read. */
  lemma {:induction false} ReadsUnreadableAll(es: seq<Event>, r: Reader) returns (n: nat, r': Reader)
    requires es != [] && AllFit(es) && Ready(r) && r.depth > 0 && r.count[r.depth] <= |es| && Holds(r, EncodeAll(es))
    requires r.count[r.depth] < |es| || !AllReadable(es, r.depth)
    ensures Diverges(r, ExpectAll(es), n, r')
    decreases es, 0
  {
    var first, rest := Expect(es[0], false), ExpectAll(es[1..]);
    if !Readable(es[0], r.depth) {
      Prefix(r, Encode(es[0]), EncodeAll(es[1..]));
      n, r' := ReadsUnreadable(es[0], r);
      DivergesFirst(r, first, rest, n, r');
    } else {
      var r1 := ReadsFirst(es, r);
      RestUnreadable(es, r.count[r.depth], r.depth);
      n, r' := ReadsUnreadableRest(first, es[1..], r, r1, |Encode(es[0])|);
    }
  }

  lemma {:induction false} RestUnreadable(es: seq<Event>, count: int, depth: nat)
    requires es != [] && AllFit(es) && Readable(es[0], depth) && 1 <= count <= |es| && depth <= MAX_NEST
    requires count < |es| || !AllReadable(es, depth)
    ensures es[1..] != [] && AllFit(es[1..]) && (count - 1 < |es[1..]| || !AllReadable(es[1..], depth))
  {
  }

  lemma {:induction false} ReadsUnreadableRest(first: seq<Elem>, es: seq<Event>, r: Reader, r1: Reader, m: nat)
    returns (n: nat, r': Reader)
    requires es != [] && AllFit(es) && Ready(r) && r.depth > 0 && r.count[r.depth] <= |es| + 1
    requires r.count[r.depth] <= |es| || !AllReadable(es, r.depth)
    requires Yields(r, first, r1) && After(r, r1, m) && Holds(r1, EncodeAll(es))
    ensures Diverges(r, first + ExpectAll(es), n, r')
    decreases es, 2
  {
    if r.count[r.depth] == 1 {
      n, r' := |first|, r1;
      StopsInstead(es, r, first, r1);
    } else {
      NextReady(r, r1, m);
      n, r' := ReadsUnreadableOn(first, es, r, r1);
    }
  }

  lemma {:induction false} ReadsUnreadableOn(first: seq<Elem>, es: seq<Event>, r: Reader, r1: Reader)
    returns (n: nat, r': Reader)
    requires es != [] && AllFit(es) && Ready(r1) && r1.depth > 0 && r1.count[r1.depth] <= |es|
    requires r1.count[r1.depth] < |es| || !AllReadable(es, r1.depth)
    requires Yields(r, first, r1) && Holds(r1, EncodeAll(es))
    ensures Diverges(r, first + ExpectAll(es), n, r')
    decreases es, 1
  {
    n, r' := ReadsUnreadableAll(es, r1);
    DivergesRest(r, first, r1, ExpectAll(es), n, r');
    n := |first| + n;
  }

  lemma {:induction false} NextReady(r: Reader, r1: Reader, n: nat)
    requires Ready(r) && r.depth > 0 && r.count[r.depth] > 1 && Valid(r1) && After(r, r1, n)
    ensures Ready(r1) && r1.depth == r.depth && r1.count[r1.depth] == r.count[r.depth] - 1
  {
  }

  lemma {:induction false} StopsInstead(es: seq<Event>, r: Reader, first: seq<Elem>, r1: Reader)
    requires es != [] && Yields(r, first, r1) && r1.depth <= MAX_NEST && r1.stop && r1.count[r1.depth] == 0
    ensures Diverges(r, first + ExpectAll(es), |first|, r1)
  {
    StoppedRead(r1);
    ExpectStarts(es);
    DivergesAt(r, first, r1, ExpectAll(es));
  }

  lemma {:induction false} StoppedRead(r: Reader)
    requires Valid(r) && r.depth <= MAX_NEST && r.stop && r.count[r.depth] == 0
    ensures Read(r, false).0.kind == StopElem
  {
  }

  /** create_android_log_parser. */
  function Parser(msg: seq<byte>): (r: Reader)
    ensures Valid(r)
  {
    var len := if |msg| <= MAX_EVENT_PAYLOAD then |msg| else MAX_EVENT_PAYLOAD;
    Reader(msg[..len] + seq(LOGGER_ENTRY_MAX_PAYLOAD - len, _ => 0), len, 0, seq(MAX_NEST + 1, _ => 0), 0, false)
  }

  /** A message reads back as the event it encodes if and only if its lists have at most 127 elements and are nested at
      most eight deep. */
  lemma {:induction false} RoundTripIff(e: Event)
    requires Fits(e) && |Encode(e)| <= MAX_EVENT_PAYLOAD
    ensures ReadMany(Parser(Encode(e)), |Expect(e, true)|).0 == Expect(e, true) <==>
            Countable(e) && Depth(e) <= MAX_NEST
  {
    var r := Parser(Encode(e));
    ParserHolds(Encode(e));
    if Readable(e, 0) {
      var r' := ReadsEvent(e, r);
      assert Open(0);
    } else {
      var n, r' := ReadsUnreadable(e, r);
      Differs(r, Expect(e, true), n, r');
    }
  }

  lemma {:induction false} ParserHolds(bytes: seq<byte>)
    requires |bytes| <= MAX_EVENT_PAYLOAD
    ensures Holds(Parser(bytes), bytes) && Ready(Parser(bytes))
  {
  }

  lemma {:induction false} Differs(r: Reader, all: seq<Elem>, n: nat, r': Reader)
    requires Valid(r) && Diverges(r, all, n, r')
    ensures ReadMany(r, |all|).0 != all
  {
    assert Open(0) && Looking(0);
    ReadManySplit(r, n, |all| - n);
    assert ReadMany(r', |all| - n).0[0] == Read(r', false).0;
    ReadManyValid(r, n);
  }

  // ---------------------------------------------------------------- what the elements say

  lemma {:induction false} NoneComplete(es: seq<Event>)
    ensures forall i :: 0 <= i < |ExpectAll(es)| ==> !ExpectAll(es)[i].complete
    decreases es
  {
    if es != [] {
      NoneComplete(es[1..]);
      if es[0].List? {
        NoneComplete(es[0].es);
      }
      assert forall i :: 0 <= i < |Expect(es[0], false)| ==> !Expect(es[0], false)[i].complete;
    }
  }

  /** The first element marked complete is the last one of the message. */
  lemma {:induction false} CompleteIsLast(e: Event, i: nat)
    requires i < |Expect(e, true)|
    ensures Expect(e, true)[i].complete <==> i == |Expect(e, true)| - 1
  {
    if e.List? {
      NoneComplete(e.es);
    }
  }

  /** Different events read as different elements, even when something follows. */
  lemma {:induction false} Unambiguous(a: Event, b: Event, x: seq<Elem>, y: seq<Elem>)
    requires Expect(a, false) + x == Expect(b, false) + y
    ensures a == b && x == y
    decreases a
  {
    var s, t := Expect(a, false) + x, Expect(b, false) + y;
    assert s[0] == Expect(a, false)[0] && t[0] == Expect(b, false)[0];
    if a.List? {
      assert b.List?;
      var stop := [Elem(StopElem, false)];
      assert s[1..] == ExpectAll(a.es) + (stop + x) && t[1..] == ExpectAll(b.es) + (stop + y);
      UnambiguousAll(a.es, b.es, x, y);
    } else {
      assert s[1..] == x && t[1..] == y;
    }
  }

  lemma {:induction false} UnambiguousAll(ps: seq<Event>, qs: seq<Event>, x: seq<Elem>, y: seq<Elem>)
    requires ExpectAll(ps) + ([Elem(StopElem, false)] + x) == ExpectAll(qs) + ([Elem(StopElem, false)] + y)
    ensures ps == qs && x == y
    decreases ps
  {
    var stop := [Elem(StopElem, false)];
    var s, t := ExpectAll(ps) + (stop + x), ExpectAll(qs) + (stop + y);
    FirstKind(ps, stop + x);
    FirstKind(qs, stop + y);
    if ps == [] {
      assert s[1..] == x && t[1..] == y;
    } else {
      assert s == Expect(ps[0], false) + (ExpectAll(ps[1..]) + (stop + x));
      assert t == Expect(qs[0], false) + (ExpectAll(qs[1..]) + (stop + y));
      Unambiguous(ps[0], qs[0], ExpectAll(ps[1..]) + (stop + x), ExpectAll(qs[1..]) + (stop + y));
      UnambiguousAll(ps[1..], qs[1..], x, y);
    }
  }

  lemma {:induction false} FirstKind(es: seq<Event>, rest: seq<Elem>)
    requires rest != [] && rest[0].kind == StopElem
    ensures (ExpectAll(es) + rest)[0].kind == StopElem <==> es == []
  {
    if es == [] {
      assert ExpectAll(es) + rest == rest;
    } else {
      assert (ExpectAll(es) + rest)[0] == Expect(es[0], false)[0];
    }
  }
}
