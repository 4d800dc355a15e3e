/** The quarantine of quarantine.c: freed objects wait in a ring buffer, oldest first, until their total size would
    exceed a limit.
 */
module Quarantine {
  import opened Basics
  import opened Arith

  datatype Obj = Obj(ptr: nat, usize: nat)

  /** A position in the ring, `i` places after `first`: masking with the size less one is the remainder. */
  function Wrap(first: nat, i: nat, size: nat): (r: nat)
    requires first < size && i <= size
    ensures r < size
  {
    if first + i < size then first + i else first + i - size
  }

  lemma WrapIsRemainder(first: nat, i: nat, size: nat)
    requires first < size && i <= size
    ensures Wrap(first, i, size) == (first + i) % size
  {
    DivisionUnique(first + i, size, if first + i < size then 0 else 1, Wrap(first, i, size));
  }

  /** The contents of a ring buffer, oldest first. */
  ghost function Ring(objs: seq<Obj>, first: nat, n: nat): (r: seq<Obj>)
    requires n <= |objs| && (|objs| > 0 ==> first < |objs|)
    ensures |r| == n
  {
    seq(n, i requires 0 <= i < n => objs[Wrap(first, i, |objs|)])
  }

  ghost function Bytes(s: seq<Obj>): nat
  {
    if s == [] then 0 else s[0].usize + Bytes(s[1..])
  }

  lemma {:induction false} BytesAppend(s: seq<Obj>, x: Obj)
    ensures Bytes(s + [x]) == Bytes(s) + x.usize
  {
    if s == [] {
      assert s + [x] == [x] && [x][1..] == [];
    } else {
      assert (s + [x])[1..] == s[1..] + [x];
      BytesAppend(s[1..], x);
    }
  }

  lemma RingPop(objs: seq<Obj>, first: nat, n: nat)
    requires 0 < n <= |objs| && first < |objs|
    ensures Ring(objs, first, n)[0] == objs[first]
    ensures Ring(objs, first, n)[1..] == Ring(objs, Wrap(first, 1, |objs|), n - 1)
  {
    var next := Wrap(first, 1, |objs|);
    forall i | 0 <= i < n - 1
      ensures Ring(objs, first, n)[1..][i] == Ring(objs, next, n - 1)[i]
    {
      assert Wrap(first, i + 1, |objs|) == Wrap(next, i, |objs|);
    }
  }

  lemma RingPush(objs: seq<Obj>, first: nat, n: nat, x: Obj)
    requires n < |objs| && first < |objs|
    ensures Ring(objs[Wrap(first, n, |objs|) := x], first, n + 1) == Ring(objs, first, n) + [x]
  {
    var objs' := objs[Wrap(first, n, |objs|) := x];
    forall i | 0 <= i < n
      ensures Ring(objs', first, n + 1)[i] == Ring(objs, first, n)[i]
    {
      assert Wrap(first, i, |objs|) != Wrap(first, n, |objs|);
    }
  }

  /** `bytes` is the total size of the objects, and every size is positive. */
  ghost predicate Sized(ring: seq<Obj>, bytes: int)
  {
    forall key {:trigger Open(key)} :: Open(key) ==> bytes == Bytes(ring) && forall x :: x in ring ==> x.usize > 0
  }

  lemma SizedPop(ring: seq<Obj>, bytes: int)
    requires ring != [] && Sized(ring, bytes)
    ensures Sized(ring[1..], bytes - ring[0].usize) && ring[0].usize > 0
  {
    assert Open(0);
    assert ring[0] in ring && forall x :: x in ring[1..] ==> x in ring;
  }

  lemma SizedPush(ring: seq<Obj>, bytes: int, x: Obj)
    requires Sized(ring, bytes) && x.usize > 0
    ensures Sized(ring + [x], bytes + x.usize)
  {
    assert Open(0);
    BytesAppend(ring, x);
  }

  lemma SizedZero(ring: seq<Obj>, bytes: int)
    requires Sized(ring, bytes)
    ensures bytes >= 0 && (bytes == 0 <==> ring == [])
  {
    assert Open(0);
    if ring != [] {
      assert ring[0] in ring;
    }
  }

  /** Releasing the `k` oldest objects brings the rest within the bound, and releasing fewer does not. */
  ghost predicate Drops(ring: seq<Obj>, bound: nat, k: nat)
  {
    k <= |ring| && Bytes(ring[k..]) <= bound && (k > 0 ==> Bytes(ring[k - 1..]) > bound)
  }

  /** The `k` oldest objects were released, in order, and the others are still there. */
  ghost predicate ReleasedFirst(released: seq<Obj>, ring: seq<Obj>, released': seq<Obj>, ring': seq<Obj>, k: nat)
  {
    k <= |ring| && released' == released + ring[..k] && ring' == ring[k..]
  }

  lemma ReleasedTwice(released: seq<Obj>, ring: seq<Obj>, released': seq<Obj>, ring': seq<Obj>, j: nat,
                      released'': seq<Obj>, ring'': seq<Obj>, k: nat)
    requires ReleasedFirst(released, ring, released', ring', j)
    requires ReleasedFirst(released', ring', released'', ring'', k)
    ensures ReleasedFirst(released, ring, released'', ring'', j + k)
  {
    assert ring[j..][k..] == ring[j + k..] && ring[..j] + ring[j..][..k] == ring[..j + k];
  }

  lemma ReleasedWhole(released: seq<Obj>, ring: seq<Obj>, released': seq<Obj>, ring': seq<Obj>, k: nat)
    requires ReleasedFirst(released, ring, released', ring', k)
    ensures released' + ring' == released + ring
  {
  }

  lemma Whole(released: seq<Obj>, ring: seq<Obj>, released': seq<Obj>, ring': seq<Obj>, x: Obj)
    requires exists k {:trigger ReleasedFirst(released, ring, released', ring', k)} ::
               ReleasedFirst(released, ring, released', ring', k)
    ensures released' + (ring' + [x]) == released + ring + [x]
    ensures ring' == [] ==> released' + [x] + [] == released + ring + [x]
  {
    var k :| ReleasedFirst(released, ring, released', ring', k);
    ReleasedWhole(released, ring, released', ring', k);
  }

  lemma OneReleased(released: seq<Obj>, ring: seq<Obj>)
    requires ring != []
    ensures ReleasedFirst(released, ring, released + [ring[0]], ring[1..], 1)
  {
    assert ring[..1] == [ring[0]];
  }

  lemma NoneReleased(released: seq<Obj>, ring: seq<Obj>)
    ensures ReleasedFirst(released, ring, released, ring, 0)
  {
    assert ring[0..] == ring;
  }

  lemma SizedBytes(ring: seq<Obj>, bytes: int)
    requires Sized(ring, bytes)
    ensures bytes == Bytes(ring)
  {
    assert Open(0);
  }

  class Ringbuffer {
    const limit: nat           // opt_quarantine
    var objs: array<Obj>
    var lgMaxobjs: nat
    var first: nat
    var curobjs: nat
    var curbytes: int
    ghost var released: seq<Obj>    // given back to the allocator so far
    ghost var handed: seq<Obj>      // handed in so far

    ghost predicate Shape()
      reads this, objs
    {
      && objs.Length == Pow2(lgMaxobjs) && first < objs.Length && curobjs <= objs.Length
      && Sized(Ring(objs[..], first, curobjs), curbytes)
    }

    /** What was released, followed by the ring, is what was handed in. */
    ghost predicate Valid()
      reads this, objs
    {
      Shape() && curbytes <= limit && released + Ring(objs[..], first, curobjs) == handed
    }

    constructor (lg: nat, bound: nat)
      ensures Valid() && fresh(objs) && handed == [] && limit == bound
    {
      objs := new Obj[Pow2(lg)](_ => Obj(0, 0));
      lgMaxobjs, first, curobjs, curbytes, limit := lg, 0, 0, 0, bound;
      released, handed := [], [];
    }

    /** quarantine_drain_one. */
    method DrainOne()
      requires Shape() && curobjs > 0
      modifies this
      ensures Shape() && objs == old(objs) && lgMaxobjs == old(lgMaxobjs) && handed == old(handed)
      ensures curobjs == old(curobjs) - 1 && curbytes < old(curbytes)
      ensures ReleasedFirst(old(released), old(Ring(objs[..], first, curobjs)), released,
                            Ring(objs[..], first, curobjs), 1)
    {
      OneReleased(released, Ring(objs[..], first, curobjs));
      RingPop(objs[..], first, curobjs);
      SizedPop(Ring(objs[..], first, curobjs), curbytes);
      var obj := objs[first];
      released := released + [obj];
      curbytes := curbytes - obj.usize;
      curobjs := curobjs - 1;
      WrapIsRemainder(first, 1, objs.Length);
      first := (first + 1) % objs.Length;
    }

    /** quarantine_drain: oldest first, until the rest is within the bound. */
    method Drain(upperBound: nat) returns (ghost k: nat)
      requires Shape()
      modifies this
      ensures Shape() && objs == old(objs) && lgMaxobjs == old(lgMaxobjs) && handed == old(handed)
      ensures curbytes <= upperBound && curobjs == old(curobjs) - k
      ensures Drops(old(Ring(objs[..], first, curobjs)), upperBound, k)
      ensures ReleasedFirst(old(released), old(Ring(objs[..], first, curobjs)), released,
                            Ring(objs[..], first, curobjs), k)
    {
      k := 0;
      ghost var r0, before := released, Ring(objs[..], first, curobjs);
      NoneReleased(released, before);
      while curbytes > upperBound && curobjs > 0
        invariant Shape() && objs == old(objs) && lgMaxobjs == old(lgMaxobjs) && handed == old(handed)
        invariant k <= old(curobjs) && curobjs == old(curobjs) - k
        invariant k > 0 ==> Bytes(before[k - 1..]) > upperBound
        invariant ReleasedFirst(r0, before, released, Ring(objs[..], first, curobjs), k)
        decreases curobjs
      {
        ghost var r, ring := released, Ring(objs[..], first, curobjs);
        SizedBytes(ring, curbytes);
        DrainOne();
        ReleasedTwice(r0, before, r, ring, k, released, Ring(objs[..], first, curobjs), 1);
        k := k + 1;
      }
      SizedZero(Ring(objs[..], first, curobjs), curbytes);
      SizedBytes(Ring(objs[..], first, curobjs), curbytes);
    }

    /** The two copies of quarantine_grow: the part up to the end of the buffer, and the part that wrapped around. */
    method CopyRing(size: nat) returns (bigger: array<Obj>)
      requires 0 < objs.Length <= size && first < objs.Length && curobjs <= objs.Length
      ensures fresh(bigger) && bigger.Length == size
      ensures Ring(bigger[..], 0, curobjs) == Ring(objs[..], first, curobjs)
    {
      bigger := new Obj[size](_ => Obj(0, 0));
      if first + curobjs <= objs.Length {
        forall i | 0 <= i < curobjs {
          bigger[i] := objs[first + i];
        }
      } else {
        var a := objs.Length - first;
        var b := curobjs - a;
        forall i | 0 <= i < a {
          bigger[i] := objs[first + i];
        }
        forall i | a <= i < a + b {
          bigger[i] := objs[i - a];
        }
      }
      Copied(objs[..], first, curobjs, bigger[..]);
    }

    /** quarantine_grow: a ring of twice the size with the same contents, or one object fewer. */
    method Grow(granted: bool)
      requires Shape() && curobjs == objs.Length
      modifies this
      ensures Shape() && curobjs < objs.Length && curbytes <= old(curbytes) && handed == old(handed)
      ensures if granted then fresh(objs) && objs.Length == 2 * old(objs.Length) else objs == old(objs)
      ensures ReleasedFirst(old(released), old(Ring(objs[..], first, curobjs)), released,
                            Ring(objs[..], first, curobjs), if granted then 0 else 1)
    {
      ghost var ring := Ring(objs[..], first, curobjs);
      NoneReleased(released, ring);
      if !granted {
        DrainOne();
        return;
      }
      var bigger := CopyRing(Pow2(lgMaxobjs + 1));
      objs, first, lgMaxobjs := bigger, 0, lgMaxobjs + 1;
    }

    method Append(x: Obj)
      requires Shape() && curobjs < objs.Length && x.usize > 0
      modifies this, objs
      ensures Shape() && objs == old(objs) && released == old(released) && handed == old(handed)
      ensures curbytes == old(curbytes) + x.usize && curobjs == old(curobjs) + 1
      ensures Ring(objs[..], first, curobjs) == old(Ring(objs[..], first, curobjs)) + [x]
    {
      RingPush(objs[..], first, curobjs, x);
      SizedPush(Ring(objs[..], first, curobjs), curbytes, x);
      var offset := (first + curobjs) % objs.Length;
      WrapIsRemainder(first, curobjs, objs.Length);
      ghost var before := objs[..];
      objs[offset] := x;
      assert objs[..] == before[offset := x];
      curbytes := curbytes + x.usize;
      curobjs := curobjs + 1;
    }

    /** The first part of quarantine: as many objects are released as the limit asks for, and one more if the buffer is
        full and cannot be enlarged. */
    method MakeRoom(usize: nat, granted: bool) returns (ghost k: nat)
      requires Valid() && usize > 0
      modifies this
      ensures Shape() && curobjs < objs.Length && handed == old(handed) && curbytes <= limit
      ensures objs == old(objs) || fresh(objs)
      ensures usize <= limit ==> curbytes + usize <= limit
      ensures usize > limit ==> curobjs == 0
      ensures Drops(old(Ring(objs[..], first, curobjs)), if limit >= usize then limit - usize else 0, k)
      ensures ReleasedFirst(old(released), old(Ring(objs[..], first, curobjs)), released,
                            Ring(objs[..], first, curobjs),
                            if k == 0 && old(curobjs) == old(objs.Length) && !granted then 1 else k)
    {
      k := 0;
      ghost var r0, before := released, Ring(objs[..], first, curobjs);
      SizedBytes(before, curbytes);
      NoneReleased(released, before);
      if curbytes + usize > limit {
        var upperBound := if limit >= usize then limit - usize else 0;
        k := Drain(upperBound);
        SizedZero(Ring(objs[..], first, curobjs), curbytes);
      }
      if curobjs == objs.Length {
        ghost var r, ring := released, Ring(objs[..], first, curobjs);
        Grow(granted);
        ReleasedTwice(r0, before, r, ring, k, released, Ring(objs[..], first, curobjs), if granted then 0 else 1);
      }
    }

    /** The last part of quarantine: the object is queued, or released if there is no room for it even so. */
    method Place(x: Obj)
      requires Shape() && curobjs < objs.Length && x.usize > 0 && curbytes <= limit
      requires x.usize > limit ==> curobjs == 0
      requires x.usize <= limit ==> curbytes + x.usize <= limit
      modifies this, objs
      ensures Shape() && curbytes <= limit && objs == old(objs) && handed == old(handed)
      ensures x.usize <= limit ==>
                && released == old(released)
                && Ring(objs[..], first, curobjs) == old(Ring(objs[..], first, curobjs)) + [x]
      ensures x.usize > limit ==> curobjs == 0 && released == old(released) + [x]
    {
      SizedZero(Ring(objs[..], first, curobjs), curbytes);
      if curbytes + x.usize <= limit {
        Append(x);
      } else {
        assert curbytes == 0;
        released := released + [x];
      }
    }

    /** quarantine: the object is queued, or, if it alone exceeds the limit, released after everything before it. */
    method Add(ptr: nat, usize: nat, granted: bool) returns (ghost k: nat)
      requires Valid() && usize > 0
      modifies this, objs
      ensures Valid() && handed == old(handed) + [Obj(ptr, usize)]
      ensures objs == old(objs) || fresh(objs)
      ensures usize > limit ==> curobjs == 0 && released == handed
      ensures usize <= limit ==> curobjs > 0 && Ring(objs[..], first, curobjs)[curobjs - 1] == Obj(ptr, usize)
      ensures Drops(old(Ring(objs[..], first, curobjs)), if limit >= usize then limit - usize else 0, k)
      ensures usize <= limit ==>
                ReleasedFirst(old(released), old(Ring(objs[..], first, curobjs)), released,
                              Ring(objs[..], first, curobjs)[..curobjs - 1],
                              if k == 0 && old(curobjs) == old(objs.Length) && !granted then 1 else k)
    {
      var x := Obj(ptr, usize);
      ghost var r0, before := released, Ring(objs[..], first, curobjs);
      k := MakeRoom(usize, granted);
      ghost var r, ring := released, Ring(objs[..], first, curobjs);
      Place(x);
      handed := handed + [x];
      Whole(r0, before, r, ring, x);
      assert (ring + [x])[..|ring|] == ring;
    }

    /** quarantine_cleanup: everything is released, in the order in which it was handed in. */
    method Cleanup()
      requires Valid()
      modifies this
      ensures curobjs == 0 && released == handed == old(handed)
    {
      var _ := Drain(0);
      SizedZero(Ring(objs[..], first, curobjs), curbytes);
    }
  }

  lemma Copied(objs: seq<Obj>, first: nat, n: nat, bigger: seq<Obj>)
    requires 0 < |objs| && first < |objs| && n <= |objs| <= |bigger|
    requires forall i :: 0 <= i < n ==> bigger[i] == objs[Wrap(first, i, |objs|)]
    ensures Ring(bigger, 0, n) == Ring(objs, first, n)
  {
    forall i | 0 <= i < n
      ensures Ring(bigger, 0, n)[i] == Ring(objs, first, n)[i]
    {
      assert Wrap(0, i, |bigger|) == i;
    }
  }
}
