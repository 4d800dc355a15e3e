/** Flushing a thread cache bin (tcache.c): the cached objects are given back to the arenas that own them, one arena
    at a time, and the objects of other arenas are moved up in place for the next pass.

    The bin is a stack that grows down from the end of an array: `Slot(0)` is the last element.
 */
module Tcache {
  import opened Basics
  import opened Arith

  /** One pass of the flush: the arena whose lock is taken, and the objects it gets. */
  datatype Pass = Pass(arena: nat, objs: seq<nat>)

  /** The arena that an object belongs to, from the header of its chunk. */
  function Arena(owner: map<nat, nat>, obj: nat): nat
  {
    if obj in owner then owner[obj] else 0
  }

  // ---------------------------------------------------------------- what a flush does

  /** The objects of one arena, or of all the others, in order. */
  ghost function Owned(owner: map<nat, nat>, objs: seq<nat>, arena: nat, mine: bool): seq<nat>
  {
    if objs == [] then []
    else
      var last := |objs| - 1;
      Owned(owner, objs[..last], arena, mine) + (if (Arena(owner, objs[last]) == arena) == mine then [objs[last]]
                                                 else [])
  }

  lemma {:induction false} OwnedShorter(owner: map<nat, nat>, objs: seq<nat>, arena: nat, mine: bool)
    ensures |Owned(owner, objs, arena, mine)| <= |objs|
    ensures |Owned(owner, objs, arena, false)| + |Owned(owner, objs, arena, true)| == |objs|
  {
    if objs != [] {
      OwnedShorter(owner, objs[..|objs| - 1], arena, mine);
    }
  }

  lemma {:induction false} FirstIsOwned(owner: map<nat, nat>, objs: seq<nat>)
    requires objs != []
    ensures |Owned(owner, objs, Arena(owner, objs[0]), true)| >= 1
  {
    var last := |objs| - 1;
    if last > 0 {
      FirstIsOwned(owner, objs[..last]);
    }
  }

  /** One pass per owner, in the order in which their first objects come up. */
  ghost function Passes(owner: map<nat, nat>, objs: seq<nat>): seq<Pass>
    decreases |objs|
  {
    if objs == [] then []
    else
      var arena := Arena(owner, objs[0]);
      FirstIsOwned(owner, objs);
      OwnedShorter(owner, objs, arena, true);
      [Pass(arena, Owned(owner, objs, arena, true))] + Passes(owner, Owned(owner, objs, arena, false))
  }

  ghost function Returned(passes: seq<Pass>): multiset<nat>
  {
    if passes == [] then multiset{} else multiset(passes[0].objs) + Returned(passes[1..])
  }

  lemma {:induction false} OwnedSplits(owner: map<nat, nat>, objs: seq<nat>, arena: nat)
    ensures multiset(Owned(owner, objs, arena, true)) + multiset(Owned(owner, objs, arena, false)) == multiset(objs)
  {
    if objs != [] {
      var last := |objs| - 1;
      OwnedSplits(owner, objs[..last], arena);
      assert objs == objs[..last] + [objs[last]];
      assert multiset(objs) == multiset(objs[..last]) + multiset{objs[last]};
    }
  }

  lemma {:induction false} OwnedBy(owner: map<nat, nat>, objs: seq<nat>, arena: nat, mine: bool)
    ensures forall x :: x in Owned(owner, objs, arena, mine) <==> x in objs && (Arena(owner, x) == arena) == mine
  {
    if objs != [] {
      var last := |objs| - 1;
      OwnedBy(owner, objs[..last], arena, mine);
      assert objs == objs[..last] + [objs[last]];
    }
  }

  /** Each object is given back exactly as often as it was cached. */
  lemma {:induction false} PassesConserve(owner: map<nat, nat>, objs: seq<nat>)
    ensures Returned(Passes(owner, objs)) == multiset(objs)
    decreases |objs|
  {
    if objs != [] {
      PassesStep(owner, objs);
      OwnedSplits(owner, objs, Arena(owner, objs[0]));
      var rest := Owned(owner, objs, Arena(owner, objs[0]), false);
      PassesConserve(owner, rest);
      assert Passes(owner, objs)[1..] == Passes(owner, rest);
    }
  }

  /** A pass gives an arena some objects, all of which it owns. */
  lemma {:induction false} PassesOwned(owner: map<nat, nat>, objs: seq<nat>, i: nat)
    requires i < |Passes(owner, objs)|
    ensures var p := Passes(owner, objs)[i]; p.objs != [] && forall x :: x in p.objs ==> Arena(owner, x) == p.arena
    decreases |objs|
  {
    PassesStep(owner, objs);
    if i == 0 {
      FirstIsOwned(owner, objs);
      OwnedBy(owner, objs, Arena(owner, objs[0]), true);
    } else {
      PassesOwned(owner, Owned(owner, objs, Arena(owner, objs[0]), false), i - 1);
    }
  }

  ghost function Arenas(passes: seq<Pass>): set<nat>
  {
    set p | p in passes :: p.arena
  }

  ghost function Owners(owner: map<nat, nat>, objs: seq<nat>): set<nat>
  {
    set x | x in objs :: Arena(owner, x)
  }

  lemma OwnersOfRest(owner: map<nat, nat>, objs: seq<nat>, arena: nat)
    ensures Owners(owner, Owned(owner, objs, arena, false)) == Owners(owner, objs) - {arena}
  {
    OwnedBy(owner, objs, arena, false);
  }

  /** The arenas that get a pass are the owners of the objects. */
  lemma {:induction false} PassPerOwner(owner: map<nat, nat>, objs: seq<nat>)
    ensures Arenas(Passes(owner, objs)) == Owners(owner, objs)
    decreases |objs|
  {
    if objs != [] {
      var arena := Arena(owner, objs[0]);
      FirstIsOwned(owner, objs);
      OwnedShorter(owner, objs, arena, true);
      var rest := Owned(owner, objs, arena, false);
      PassPerOwner(owner, rest);
      OwnersOfRest(owner, objs, arena);
      var all := Passes(owner, objs);
      assert all == [all[0]] + Passes(owner, rest) && all[0].arena == arena;
      assert Arenas(all) == {arena} + Arenas(Passes(owner, rest));
      assert objs[0] in objs && arena in Owners(owner, objs);
    }
  }

  /** No arena gets a second pass. */
  lemma {:induction false} OnePassPerArena(owner: map<nat, nat>, objs: seq<nat>, i: nat, j: nat)
    requires i < j < |Passes(owner, objs)|
    ensures Passes(owner, objs)[i].arena != Passes(owner, objs)[j].arena
    decreases |objs|
  {
    var arena := Arena(owner, objs[0]);
    FirstIsOwned(owner, objs);
    OwnedShorter(owner, objs, arena, true);
    var rest := Owned(owner, objs, arena, false);
    var all, more := Passes(owner, objs), Passes(owner, rest);
    assert all[j] == more[j - 1];
    if i > 0 {
      assert all[i] == more[i - 1];
      OnePassPerArena(owner, rest, i - 1, j - 1);
    } else {
      PassPerOwner(owner, rest);
      OwnersOfRest(owner, objs, arena);
      assert more[j - 1] in more && more[j - 1].arena in Arenas(more);
    }
  }

  // ---------------------------------------------------------------- a pass, as the loops see it

  /** `mine` are the arena's objects among `objs`, and `rest` the others. */
  ghost predicate Split(owner: map<nat, nat>, objs: seq<nat>, arena: nat, mine: seq<nat>, rest: seq<nat>)
  {
    forall key {:trigger Open(key)} :: Open(key) ==>
      mine == Owned(owner, objs, arena, true) && rest == Owned(owner, objs, arena, false)
  }

  lemma SplitNone(owner: map<nat, nat>, arena: nat)
    ensures Split(owner, [], arena, [], [])
  {
  }

  lemma SplitOne(owner: map<nat, nat>, objs: seq<nat>, i: nat, arena: nat, mine: seq<nat>, rest: seq<nat>)
    requires i < |objs| && Split(owner, objs[..i], arena, mine, rest)
    ensures Arena(owner, objs[i]) == arena ==> Split(owner, objs[..i + 1], arena, mine + [objs[i]], rest)
    ensures Arena(owner, objs[i]) != arena ==> Split(owner, objs[..i + 1], arena, mine, rest + [objs[i]])
  {
    assert Open(0);
    assert objs[..i + 1][..i] == objs[..i];
  }

  /** The passes `done` and those still to come for `left` are the passes for `objs`. */
  ghost predicate Remaining(owner: map<nat, nat>, objs: seq<nat>, done: seq<Pass>, left: seq<nat>)
  {
    forall key {:trigger Open(key)} :: Open(key) ==> done + Passes(owner, left) == Passes(owner, objs)
  }

  lemma RemainingAll(owner: map<nat, nat>, objs: seq<nat>)
    ensures Remaining(owner, objs, [], objs)
  {
  }

  lemma RemainingNone(owner: map<nat, nat>, objs: seq<nat>, done: seq<Pass>)
    requires Remaining(owner, objs, done, [])
    ensures done == Passes(owner, objs)
  {
    assert Open(0);
  }

  /** The next pass is for an arena that has not had one, and leaves fewer objects. */
  lemma RemainingStep(owner: map<nat, nat>, objs: seq<nat>, done: seq<Pass>, left: seq<nat>, mine: seq<nat>,
                      rest: seq<nat>)
    requires left != [] && Remaining(owner, objs, done, left) && Split(owner, left, Arena(owner, left[0]), mine, rest)
    ensures Remaining(owner, objs, done + [Pass(Arena(owner, left[0]), mine)], rest) && |rest| < |left|
    ensures Arenas(done + [Pass(Arena(owner, left[0]), mine)]) == Arenas(done) + {Arena(owner, left[0])}
  {
    assert Open(0);
    PassesStep(owner, left);
    Regroup(done, Pass(Arena(owner, left[0]), mine), Passes(owner, rest));
    ArenasAdd(done, Pass(Arena(owner, left[0]), mine));
  }

  lemma RemainingFresh(owner: map<nat, nat>, objs: seq<nat>, done: seq<Pass>, left: seq<nat>)
    requires left != [] && Remaining(owner, objs, done, left)
    ensures Arena(owner, left[0]) !in Arenas(done)
  {
    assert Open(0);
    PassesStep(owner, left);
    FreshArena(owner, objs, done, Passes(owner, left));
  }

  // ---------------------------------------------------------------- the bin

  function At(a: seq<nat>, i: nat): nat
    requires i < |a|
  {
    a[|a| - 1 - i]
  }

  /** The first `n` objects of a stack that grows down from the end of `a`. */
  ghost function Stack(a: seq<nat>, n: nat): (r: seq<nat>)
    requires n <= |a|
    ensures |r| == n && forall i {:trigger r[i]} {:trigger At(a, i)} :: 0 <= i < n ==> r[i] == At(a, i)
  {
    seq(n, i requires 0 <= i < n => At(a, i))
  }

  class TcacheBin {
    const avail: array<nat>
    const owner: map<nat, nat>          // the arena that an object belongs to
    const ncachedMax: nat
    var ncached: nat
    var lowWater: int
    var lgFillDiv: nat
    var nrequests: nat               // requests not yet added to the arena's statistics
    ghost var merged: nat            // requests added so far

    /** The fill count, ncached_max shifted by lg_fill_div, is never zero. */
    ghost predicate Valid()
      reads this
    {
      ncached <= avail.Length && -1 <= lowWater <= ncached && lgFillDiv >= 1 && Pow2(lgFillDiv) <= ncachedMax
    }

    constructor (capacity: nat, fillMax: nat, arenas: map<nat, nat>)
      requires fillMax >= 2
      ensures Valid() && fresh(avail) && ncached == 0 && nrequests == 0 && merged == 0 && owner == arenas
    {
      avail := new nat[capacity];
      owner, ncachedMax := arenas, fillMax;
      ncached, lowWater, lgFillDiv, nrequests, merged := 0, 0, 1, 0, 0;
    }

    /** The inner loop of a flush: `arena` gets its objects, the others move up. */
    method FlushPass(nflush: nat, arena: nat) returns (ndeferred: nat, ghost objs: seq<nat>)
      requires nflush <= avail.Length
      modifies avail
      ensures ndeferred <= nflush
      ensures Split(owner, Stack(old(avail[..]), nflush), arena, objs, Stack(avail[..], ndeferred))
      ensures avail[..avail.Length - nflush] == old(avail[..avail.Length - nflush])
    {
      ghost var all := Stack(avail[..], nflush);
      ndeferred, objs := 0, [];
      var i := 0;
      SplitNone(owner, arena);
      assert all[..0] == [] && Stack(avail[..], 0) == [];
      while i < nflush
        invariant ndeferred <= i <= nflush
        invariant Split(owner, all[..i], arena, objs, Stack(avail[..], ndeferred))
        invariant avail[..avail.Length - i] == old(avail[..avail.Length - i])
      {
        var ptr := avail[avail.Length - 1 - i];
        assert ptr == all[i] by { assert avail[..avail.Length - i][avail.Length - 1 - i] == ptr; }
        SplitOne(owner, all, i, arena, objs, Stack(avail[..], ndeferred));
        if Arena(owner, ptr) == arena {
          objs := objs + [ptr];
        } else {
          ghost var before := avail[..];
          avail[avail.Length - 1 - ndeferred] := ptr;
          assert Stack(avail[..], ndeferred + 1) == Stack(before, ndeferred) + [ptr];
          ndeferred := ndeferred + 1;
        }
        i := i + 1;
      }
      assert all[..nflush] == all;
    }

    /** One turn of the outer loop.  The request count is added to the statistics in the pass for this thread's
        arena `self`, of which there is at most one. */
    method OnePass(nflush: nat, self: nat, mergedStats: bool, ghost objs: seq<nat>, ghost done: seq<Pass>)
      returns (ndeferred: nat, mergedStats': bool, ghost done': seq<Pass>)
      requires 0 < nflush <= avail.Length && Remaining(owner, objs, done, Stack(avail[..], nflush))
      requires mergedStats ==> self in Arenas(done) && nrequests == 0
      modifies avail, `nrequests, `merged
      ensures ndeferred < nflush && Remaining(owner, objs, done', Stack(avail[..], ndeferred))
      ensures mergedStats' ==> self in Arenas(done') && nrequests == 0
      ensures nrequests + merged == old(nrequests + merged)
      ensures avail[..avail.Length - nflush] == old(avail[..avail.Length - nflush])
    {
      var arena := Arena(owner, avail[avail.Length - 1]);
      ghost var left := Stack(avail[..], nflush);
      assert left[0] == At(avail[..], 0);
      mergedStats' := mergedStats;
      if arena == self {
        RemainingFresh(owner, objs, done, left);
        assert !mergedStats';
        mergedStats' := true;
        merged := merged + nrequests;
        nrequests := 0;
      }
      ghost var given;
      ndeferred, given := FlushPass(nflush, arena);
      RemainingStep(owner, objs, done, left, given, Stack(avail[..], ndeferred));
      done' := done + [Pass(arena, given)];
    }

    /** The outer loop. */
    method FlushTop(n: nat, self: nat) returns (ghost passes: seq<Pass>, mergedStats: bool)
      requires n <= avail.Length
      modifies avail, `nrequests, `merged
      ensures passes == Passes(owner, Stack(old(avail[..]), n))
      ensures avail[..avail.Length - n] == old(avail[..avail.Length - n])
      ensures nrequests + merged == old(nrequests + merged) && (mergedStats ==> nrequests == 0)
    {
      var nflush: nat := n;
      ghost var objs := Stack(avail[..], n);
      passes, mergedStats := [], false;
      RemainingAll(owner, objs);
      while nflush > 0
        invariant nflush <= n
        invariant Remaining(owner, objs, passes, Stack(avail[..], nflush))
        invariant avail[..avail.Length - n] == old(avail[..avail.Length - n])
        invariant mergedStats ==> self in Arenas(passes) && nrequests == 0
        invariant nrequests + merged == old(nrequests + merged)
      {
        ghost var before, was := avail[..], nflush;
        nflush, mergedStats, passes := OnePass(nflush, self, mergedStats, objs, passes);
        PrefixKept(before, avail[..], avail.Length - n, avail.Length - was);
      }
      assert Stack(avail[..], 0) == [];
      RemainingNone(owner, objs, passes);
    }

    /** The outer loop, and the statistics if no pass was for `self`. */
    method FlushOnce(n: nat, self: nat) returns (ghost passes: seq<Pass>)
      requires n <= avail.Length
      modifies avail, `nrequests, `merged
      ensures passes == Passes(owner, Stack(old(avail[..]), n))
      ensures avail[..avail.Length - n] == old(avail[..avail.Length - n])
      ensures nrequests == 0 && merged == old(merged + nrequests)
    {
      var mergedStats;
      passes, mergedStats := FlushTop(n, self);
      if !mergedStats {
        merged := merged + nrequests;
        nrequests := 0;
      }
    }

    /** The same, and the memmove. */
    method FlushKeep(rem: nat, self: nat) returns (ghost passes: seq<Pass>)
      requires rem <= ncached <= avail.Length
      modifies avail, `nrequests, `merged
      ensures passes == Passes(owner, Stack(old(avail[..]), ncached - rem))
      ensures Stack(avail[..], rem) == Stack(old(avail[..]), ncached)[ncached - rem..]
      ensures nrequests == 0 && merged == old(merged + nrequests)
    {
      ghost var before := avail[..];
      passes := FlushOnce(ncached - rem, self);
      Kept(before, avail[..], ncached, rem);
      MoveUp(rem);
    }

    /** tcache_bin_flush_small and tcache_bin_flush_large, by a thread whose arena is `self`: all but `rem` objects
        go back to their arenas, the others stay in order, and the request count is added to the statistics once. */
    method Flush(rem: nat, self: nat) returns (ghost passes: seq<Pass>)
      requires Valid() && rem <= ncached
      modifies this, avail
      ensures Valid() && ncached == rem && lgFillDiv == old(lgFillDiv)
      ensures lowWater == if rem < old(lowWater) then rem else old(lowWater)
      ensures passes == Passes(owner, Stack(old(avail[..]), old(ncached) - rem))
      ensures Stack(avail[..], rem) == Stack(old(avail[..]), old(ncached))[old(ncached) - rem..]
      ensures nrequests == 0 && merged == old(merged + nrequests)
    {
      passes := FlushKeep(rem, self);
      ncached := rem;
      if ncached < lowWater {
        lowWater := ncached;
      }
    }

    /** The memmove at the end: the lowest `rem` of the cached objects move to the end of the array. */
    method MoveUp(rem: nat)
      requires rem <= ncached <= avail.Length
      modifies avail
      ensures Stack(avail[..], rem) == Stack(old(avail[..]), ncached)[ncached - rem..]
    {
      var from, to := avail.Length - ncached, avail.Length - rem;
      forall k | 0 <= k < rem {
        avail[to + k] := avail[from + k];
      }
      forall j | 0 <= j < rem
        ensures At(avail[..], j) == At(old(avail[..]), ncached - rem + j)
      {
        var k := rem - 1 - j;
        assert avail[to + k] == old(avail[from + k]);
      }
    }

    /** tcache_event_hard, for one bin: flush three quarters of what was not used, and adjust the fill count. */
    method EventHard(self: nat) returns (ghost passes: seq<Pass>)
      requires Valid()
      modifies this, avail
      ensures Valid() && lowWater == ncached
      ensures old(lowWater) > 0 ==> ncached == old(ncached - (lowWater - lowWater / 4))
      ensures old(lowWater) <= 0 ==> ncached == old(ncached) && passes == [] && avail[..] == old(avail[..])
      ensures old(lowWater) > 0 ==>
                var n: nat := old(lowWater - lowWater / 4);
                && n <= old(ncached) && passes == Passes(owner, Stack(old(avail[..]), n))
                && Stack(avail[..], ncached) == Stack(old(avail[..]), old(ncached))[n..]
      ensures old(lowWater) > 0 ==>
              lgFillDiv == old(lgFillDiv) + if Pow2(old(lgFillDiv) + 1) <= ncachedMax then 1 else 0
      ensures old(lowWater) < 0 ==> lgFillDiv == old(lgFillDiv) - if old(lgFillDiv) > 1 then 1 else 0
      ensures old(lowWater) == 0 ==> lgFillDiv == old(lgFillDiv)
      ensures if old(lowWater) > 0 then nrequests == 0 && merged == old(merged + nrequests)
              else nrequests == old(nrequests) && merged == old(merged)
    {
      passes := [];
      if lowWater > 0 {
        passes := Flush(ncached - lowWater + lowWater / 4, self);
        DivisionAtLeastOne(ncachedMax, Pow2(lgFillDiv + 1));
        if ncachedMax / Pow2(lgFillDiv + 1) >= 1 {
          lgFillDiv := lgFillDiv + 1;
        }
      } else if lowWater < 0 {
        if lgFillDiv > 1 {
          lgFillDiv := lgFillDiv - 1;
        }
      }
      lowWater := ncached;
    }
  }

  lemma Regroup(passes: seq<Pass>, p: Pass, rest: seq<Pass>)
    ensures passes + ([p] + rest) == (passes + [p]) + rest
  {
  }

  lemma PrefixKept(a: seq<nat>, b: seq<nat>, i: nat, j: nat)
    requires i <= j <= |a| == |b| && a[..j] == b[..j]
    ensures a[..i] == b[..i]
  {
    assert a[..j][..i] == a[..i] && b[..j][..i] == b[..i];
  }

  lemma ArenasAdd(passes: seq<Pass>, p: Pass)
    ensures Arenas(passes + [p]) == Arenas(passes) + {p.arena}
  {
    assert forall q :: q in passes + [p] <==> q in passes || q == p;
  }

  /** The arena of the next pass has not had one. */
  lemma FreshArena(owner: map<nat, nat>, objs: seq<nat>, done: seq<Pass>, more: seq<Pass>)
    requires more != [] && done + more == Passes(owner, objs)
    ensures more[0].arena !in Arenas(done)
  {
    var all := done + more;
    forall p | p in done
      ensures p.arena != more[0].arena
    {
      var j :| 0 <= j < |done| && done[j] == p;
      OnePassPerArena(owner, objs, j, |done|);
      assert all[j] == p && all[|done|] == more[0];
    }
  }

  lemma DivisionAtLeastOne(a: nat, b: nat)
    requires b >= 1
    ensures a / b >= 1 <==> b <= a
  {
  }

  lemma PassesStep(owner: map<nat, nat>, objs: seq<nat>)
    requires objs != []
    ensures |Owned(owner, objs, Arena(owner, objs[0]), false)| < |objs|
    ensures Passes(owner, objs)
         == [Pass(Arena(owner, objs[0]), Owned(owner, objs, Arena(owner, objs[0]), true))]
           + Passes(owner, Owned(owner, objs, Arena(owner, objs[0]), false))
  {
    FirstIsOwned(owner, objs);
    OwnedShorter(owner, objs, Arena(owner, objs[0]), true);
  }

  /** What lies below the flushed objects is untouched. */
  lemma Kept(before: seq<nat>, after: seq<nat>, ncached: nat, rem: nat)
    requires rem <= ncached <= |before| == |after|
    requires after[..|after| - (ncached - rem)] == before[..|before| - (ncached - rem)]
    ensures Stack(after, ncached)[ncached - rem..] == Stack(before, ncached)[ncached - rem..]
  {
    var n := |before| - (ncached - rem);
    forall i | ncached - rem <= i < ncached
      ensures At(after, i) == At(before, i)
    {
      assert after[..n][|before| - 1 - i] == before[..n][|before| - 1 - i];
    }
  }
}
