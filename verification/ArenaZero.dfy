/** Which pages the arena takes to be zero: those of clean runs that are decommitted, or whose unzeroed bit is not set.
    No operation may add a page to them unless the memory is known to be zero.
 */
module ArenaZero {
  import opened Basics
  import opened ArenaState
  import opened ArenaPages
  import opened PageMap

  /** Nothing was written to the run since it was last known what it holds. */
  predicate Clean(k: Kind)
  {
    (k.Free? || k.Detached? || k.Large?) && !k.dirty
  }

  /** Page `q` of a chunk has no unzeroed bit. */
  predicate NotMarked(maps: View, x: PageId)
  {
    x.chunk in maps && x.ind < |maps[x.chunk]| && !maps[x.chunk][x.ind].unzeroed
  }

  ghost predicate ClearIn(maps: View, runs: map<PageId, Run>, y: PageId, x: PageId)
  {
    && y in runs && x in Interval(y, runs[y].n) && Clean(runs[y].kind)
    && (runs[y].kind.decommitted || NotMarked(maps, x))
  }

  /** The page counts as zero, unless its run is held and was written to. */
  ghost predicate IsClear(maps: View, runs: map<PageId, Run>, x: PageId)
  {
    exists y :: ClearIn(maps, runs, y, x)
  }

  /** Only the pages in `extra` have come to count as zero. */
  ghost predicate ClearFrom(maps: View, runs: map<PageId, Run>, maps': View, runs': map<PageId, Run>,
                            extra: set<PageId>)
  {
    forall x {:trigger IsClear(maps', runs', x)} :: IsClear(maps', runs', x) ==> IsClear(maps, runs, x) || x in extra
  }

  /** Some of these pages were cleared; each of the others counted as zero before, or is known to be zero. */
  ghost predicate ZeroMet(maps: View, runs: map<PageId, Run>, extra: set<PageId>, pages: set<PageId>,
                          cleared: set<PageId>)
  {
    && cleared <= pages
    && forall x {:trigger x in pages} :: x in pages ==> x in cleared || IsClear(maps, runs, x) || x in extra
  }

  lemma ZeroMetFrom(maps: View, runs: map<PageId, Run>, maps1: View, runs1: map<PageId, Run>, extra: set<PageId>,
                    pages: set<PageId>, cleared: set<PageId>)
    requires ClearFrom(maps, runs, maps1, runs1, extra) && ZeroMet(maps1, runs1, {}, pages, cleared)
    ensures ZeroMet(maps, runs, extra, pages, cleared)
  {
  }

  /** What arena_run_split_large_helper does if the memory is to be zero: the pages that it clears.  A decommitted run
      is zero when it is committed, a dirty one is cleared, and of a clean one only the pages with an unzeroed bit. */
  method ZeroRun(maps: View, id: PageId, need: nat, flagDirty: bool, flagDecommitted: bool)
    returns (cleared: set<PageId>)
    requires id.chunk in maps && id.ind + need <= |maps[id.chunk]|
    ensures cleared <= Interval(id, need) && (flagDecommitted ==> cleared == {})
    ensures !flagDecommitted && !flagDirty ==> forall x :: x in cleared ==> !NotMarked(maps, x)
    ensures !flagDecommitted ==>
              forall x :: x in Interval(id, need) ==> x in cleared || (!flagDirty && NotMarked(maps, x))
  {
    cleared := {};
    if flagDecommitted {
      return;
    }
    for i := 0 to need
      invariant cleared <= Interval(id, need)
      invariant !flagDirty ==> forall x :: x in cleared ==> !NotMarked(maps, x)
      invariant forall x :: x in Interval(id, i) ==> x in cleared || (!flagDirty && NotMarked(maps, x))
    {
      var x := Page(id.chunk, id.ind + i);
      if flagDirty || maps[id.chunk][id.ind + i].unzeroed {
        cleared := cleared + {x};
      }
      assert forall y :: y in Interval(id, i + 1) ==> y in Interval(id, i) || y == x;
    }
  }

  /** The pages of the run are zero when they are handed out. */
  lemma ZeroRunMet(maps: View, runs: map<PageId, Run>, maps1: View, id: PageId, need: nat, cleared: set<PageId>)
    requires id in runs && (runs[id].kind.Free? || runs[id].kind.Large?) && need <= runs[id].n
    requires !runs[id].kind.decommitted ==>
               forall x :: x in Interval(id, need) ==> x in cleared || (!runs[id].kind.dirty && NotMarked(maps1, x))
    requires cleared <= Interval(id, need) && (runs[id].kind.decommitted ==> !runs[id].kind.dirty)
    requires Clean(runs[id].kind) && !runs[id].kind.decommitted ==>
               MarksKept(maps, maps1, id.chunk, id.ind, id.ind + runs[id].n)
    ensures ZeroMet(maps, runs, {}, Interval(id, need), cleared)
  {
    forall x | x in Interval(id, need)
      ensures x in cleared || IsClear(maps, runs, x)
    {
      assert x in Interval(id, runs[id].n);
      if x !in cleared {
        assert ClearIn(maps, runs, id, x);
      }
    }
  }

  lemma ClearStill(maps: View, runs: map<PageId, Run>)
    ensures ClearFrom(maps, runs, maps, runs, {})
  {
  }

  lemma ClearTwice(maps: View, runs: map<PageId, Run>, maps1: View, runs1: map<PageId, Run>, maps2: View,
                   runs2: map<PageId, Run>, a: set<PageId>, b: set<PageId>)
    requires ClearFrom(maps, runs, maps1, runs1, a) && ClearFrom(maps1, runs1, maps2, runs2, b)
    ensures ClearFrom(maps, runs, maps2, runs2, a + b)
  {
  }

  lemma ClearOnce(maps: View, runs: map<PageId, Run>, maps1: View, runs1: map<PageId, Run>, maps2: View,
                  runs2: map<PageId, Run>)
    requires ClearFrom(maps, runs, maps1, runs1, {}) && ClearFrom(maps1, runs1, maps2, runs2, {})
    ensures ClearFrom(maps, runs, maps2, runs2, {})
  {
    ClearTwice(maps, runs, maps1, runs1, maps2, runs2, {}, {});
    var none: set<PageId> := {};
    assert none + none == none;
  }

  /** The unzeroed bits of these pages are as before. */
  ghost predicate MarksKept(maps: View, maps': View, c: nat, lo: nat, hi: nat)
  {
    forall x: PageId {:trigger NotMarked(maps', x)} :: x.chunk == c && lo <= x.ind < hi ==>
      NotMarked(maps', x) == NotMarked(maps, x)
  }

  lemma MarksTwice(maps: View, maps1: View, maps2: View, c: nat, lo: nat, mid: nat, hi: nat)
    requires WrittenWithin(maps, maps1, c, lo, hi) && WrittenWithin(maps1, maps2, c, lo, mid) && mid <= hi
    requires MarksKept(maps, maps1, c, lo, hi) && MarksKept(maps1, maps2, c, lo, mid)
    ensures MarksKept(maps, maps2, c, lo, hi)
  {
    forall x: PageId | x.chunk == c && lo <= x.ind < hi
      ensures NotMarked(maps2, x) == NotMarked(maps, x)
    {
      if x.ind >= mid {
        MarksOutside(maps1, maps2, c, lo, mid, x);
      }
    }
  }

  lemma MarksOutside(maps: View, maps': View, c: nat, lo: nat, hi: nat, x: PageId)
    requires WrittenWithin(maps, maps', c, lo, hi) && !(x.chunk == c && lo <= x.ind < hi)
    ensures NotMarked(maps', x) == NotMarked(maps, x)
  {
  }

  /** What is written inside one run does not concern the pages of another. */
  lemma OtherClear(maps: View, maps': View, runs: map<PageId, Run>, runs': map<PageId, Run>, id: PageId, n: nat,
                   y: PageId, x: PageId)
    requires WrittenWithin(maps, maps', id.chunk, id.ind, id.ind + n)
    requires ClearIn(maps', runs', y, x) && y in runs && runs'[y] == runs[y] && x !in Interval(id, n)
    ensures IsClear(maps, runs, x)
  {
    assert x == Page(x.chunk, x.ind);
    MarksOutside(maps, maps', id.chunk, id.ind, id.ind + n, x);
    assert ClearIn(maps, runs, y, x);
  }

  /** A clean run stays as it was, or the run is not clean afterwards. */
  ghost predicate KindKeeps(maps: View, maps': View, id: PageId, n: nat, before: Kind, after: Kind)
  {
    Clean(after) ==>
      && Clean(before)
      && (!before.decommitted ==> !after.decommitted && MarksKept(maps, maps', id.chunk, id.ind, id.ind + n))
  }

  lemma KindClear(maps: View, maps': View, runs: map<PageId, Run>, runs': map<PageId, Run>, id: PageId, y: PageId,
                  x: PageId)
    requires ClearIn(maps', runs', y, x) && id in runs && x in Interval(id, runs[id].n)
    requires KindKeeps(maps, maps', id, runs[id].n, runs[id].kind, runs'[y].kind)
    ensures IsClear(maps, runs, x)
  {
    assert ClearIn(maps, runs, id, x);
  }

  /** A run changes its kind. */
  lemma RekindClear(maps: View, maps': View, runs: map<PageId, Run>, id: PageId, kind: Kind, extra: set<PageId>)
    requires AllApart(runs) && id in runs && WrittenWithin(maps, maps', id.chunk, id.ind, id.ind + runs[id].n)
    requires KindKeeps(maps, maps', id, runs[id].n, runs[id].kind, kind) || Interval(id, runs[id].n) <= extra
    ensures ClearFrom(maps, runs, maps', runs[id := Run(runs[id].n, kind)], extra)
  {
    var runs' := runs[id := Run(runs[id].n, kind)];
    forall x | IsClear(maps', runs', x)
      ensures IsClear(maps, runs, x) || x in extra
    {
      var y :| ClearIn(maps', runs', y, x);
      if y == id {
        if x !in extra {
          KindClear(maps, maps', runs, runs', id, y, x);
        }
      } else {
        assert Apart(y, runs[y], id) && Apart(id, runs[id], y);
        OtherClear(maps, maps', runs, runs', id, runs[id].n, y, x);
      }
    }
  }

  /** A run whose pages all get an unzeroed bit. */
  lemma MarkedClear(maps: View, maps': View, runs: map<PageId, Run>, id: PageId, kind: Kind)
    requires AllApart(runs) && id in runs && WrittenWithin(maps, maps', id.chunk, id.ind, id.ind + runs[id].n)
    requires kind.Large? && !kind.decommitted && forall x :: x in Interval(id, runs[id].n) ==> !NotMarked(maps', x)
    ensures ClearFrom(maps, runs, maps', runs[id := Run(runs[id].n, kind)], {})
  {
    var runs' := runs[id := Run(runs[id].n, kind)];
    forall x | IsClear(maps', runs', x)
      ensures IsClear(maps, runs, x)
    {
      var y :| ClearIn(maps', runs', y, x);
      assert Apart(y, runs[y], id) && Apart(id, runs[id], y);
      OtherClear(maps, maps', runs, runs', id, runs[id].n, y, x);
    }
  }

  /** A run is cut in two. */
  lemma CutClear(maps: View, maps': View, runs: map<PageId, Run>, id: PageId, need: nat, head: Kind, tail: Kind)
    requires AllApart(runs) && id in runs && 1 <= need <= runs[id].n
    requires WrittenWithin(maps, maps', id.chunk, id.ind, id.ind + runs[id].n)
    requires KindKeeps(maps, maps', id, runs[id].n, runs[id].kind, head)
    requires KindKeeps(maps, maps', id, runs[id].n, runs[id].kind, tail)
    ensures ClearFrom(maps, runs, maps', Cut(runs, id, need, head, tail), {})
  {
    var runs' := Cut(runs, id, need, head, tail);
    var rest := Page(id.chunk, id.ind + need);
    forall x | IsClear(maps', runs', x)
      ensures IsClear(maps, runs, x)
    {
      var y :| ClearIn(maps', runs', y, x);
      if y == id || (need < runs[id].n && y == rest) {
        assert x in Interval(id, runs[id].n);
        KindClear(maps, maps', runs, runs', id, y, x);
      } else {
        assert Apart(y, runs[y], id) && Apart(id, runs[id], y);
        OtherClear(maps, maps', runs, runs', id, runs[id].n, y, x);
      }
    }
  }

  /** Two neighbours become one run. */
  lemma FuseClear(maps: View, maps': View, runs: map<PageId, Run>, id: PageId, kind: Kind)
    requires AllApart(runs) && id in runs && 1 <= runs[id].n && Next(id, runs[id]) in runs
    requires WrittenWithin(maps, maps', id.chunk, id.ind, id.ind + runs[id].n + runs[Next(id, runs[id])].n)
    requires KindKeeps(maps, maps', id, runs[id].n, runs[id].kind, kind)
    requires KindKeeps(maps, maps', Next(id, runs[id]), runs[Next(id, runs[id])].n, runs[Next(id, runs[id])].kind, kind)
    ensures ClearFrom(maps, runs, maps', Fuse(runs, id, kind), {})
  {
    var nxt := Next(id, runs[id]);
    var runs' := Fuse(runs, id, kind);
    forall x | IsClear(maps', runs', x)
      ensures IsClear(maps, runs, x)
    {
      var y :| ClearIn(maps', runs', y, x);
      assert x == Page(x.chunk, x.ind);
      if y == id {
        if x in Interval(id, runs[id].n) {
          KindClear(maps, maps', runs, runs', id, y, x);
        } else {
          assert x in Interval(nxt, runs[nxt].n);
          KindClear(maps, maps', runs, runs', nxt, y, x);
        }
      } else {
        assert Apart(y, runs[y], id) && Apart(id, runs[id], y) && Apart(nxt, runs[nxt], y) && Apart(y, runs[y], nxt);
        OtherClear(maps, maps', runs, runs', id, runs[id].n + runs[nxt].n, y, x);
      }
    }
  }

  /** A chunk leaves the arena. */
  lemma DropClear(maps: View, runs: map<PageId, Run>, c: nat, id: PageId)
    ensures ClearFrom(maps, runs, maps - {c}, runs - {id}, {})
  {
    forall x | IsClear(maps - {c}, runs - {id}, x)
      ensures IsClear(maps, runs, x)
    {
      var y :| ClearIn(maps - {c}, runs - {id}, y, x);
      assert ClearIn(maps, runs, y, x);
    }
  }

  /** A chunk is added, as one run. */
  lemma AddClear(maps: View, runs: map<PageId, Run>, c: nat, m: seq<MapBits>, id: PageId, r: Run, extra: set<PageId>)
    requires c !in maps && id.chunk == c && id !in runs && (forall y :: y in runs ==> y.chunk != c)
    requires Clean(r.kind) ==>
               Interval(id, r.n) <= extra
               || (!r.kind.decommitted && forall x :: x in Interval(id, r.n) ==> !NotMarked(maps[c := m], x))
    ensures ClearFrom(maps, runs, maps[c := m], runs[id := r], extra)
  {
    forall x | IsClear(maps[c := m], runs[id := r], x)
      ensures IsClear(maps, runs, x) || x in extra
    {
      var y :| ClearIn(maps[c := m], runs[id := r], y, x);
      if y != id {
        assert ClearIn(maps, runs, y, x);
      }
    }
  }

  // ---------------------------------------------------------------- free pages

  /** The page is free, and counts as zero. */
  ghost predicate FreeClear(maps: View, runs: map<PageId, Run>, x: PageId)
  {
    exists y :: ClearIn(maps, runs, y, x) && runs[y].kind.Free?
  }

  /** No free page has come to count as zero but those in `extra`.  What is held, and may have been written to, has no
      part in this. */
  ghost predicate ZeroKept(maps: View, runs: map<PageId, Run>, maps': View, runs': map<PageId, Run>,
                           extra: set<PageId>)
  {
    forall x {:trigger FreeClear(maps', runs', x)} ::
      FreeClear(maps', runs', x) ==> FreeClear(maps, runs, x) || x in extra
  }

  /** A page that is free and clean now, and counted as zero, was free. */
  ghost predicate WasFree(maps: View, runs: map<PageId, Run>, runs': map<PageId, Run>, x: PageId)
  {
    x in Covered(runs', Idle) && x !in Covered(runs', Dirty) && IsClear(maps, runs, x) ==> x in Covered(runs, Idle)
  }

  lemma FreeClearFrom(maps: View, runs: map<PageId, Run>, maps': View, runs': map<PageId, Run>, extra: set<PageId>)
    requires AllApart(runs) && AllApart(runs') && Settled(runs) && ClearFrom(maps, runs, maps', runs', extra)
    requires forall x {:trigger WasFree(maps, runs, runs', x)} :: WasFree(maps, runs, runs', x)
    ensures ZeroKept(maps, runs, maps', runs', extra)
  {
    forall x | FreeClear(maps', runs', x)
      ensures FreeClear(maps, runs, x) || x in extra
    {
      var y' :| ClearIn(maps', runs', y', x) && runs'[y'].kind.Free?;
      assert IsClear(maps', runs', x) && x in Covered(runs', Idle);
      OnlyRun(runs', x, y', Dirty);
      assert WasFree(maps, runs, runs', x);
      if x !in extra {
        var y :| ClearIn(maps, runs, y, x);
        OnlyRun(runs, x, y, Idle);
      }
    }
  }

  /** Pages that are taken, or freed as dirty. */
  lemma MovedZeroKept(maps: View, runs: map<PageId, Run>, maps': View, runs': map<PageId, Run>, moved: set<PageId>,
                      kind: Kind, chunks: set<nat>, extra: set<PageId>)
    requires AllApart(runs) && AllApart(runs') && Settled(runs) && ClearFrom(maps, runs, maps', runs', extra)
    requires Moved(runs, runs', moved, kind, chunks) && (kind.Large? || kind.Small? || (kind.Free? && kind.dirty))
    ensures ZeroKept(maps, runs, maps', runs', extra)
  {
    assert MovedFor(runs, runs', moved, kind, chunks, Idle) && MovedFor(runs, runs', moved, kind, chunks, Dirty);
    forall x ensures WasFree(maps, runs, runs', x) { }
    FreeClearFrom(maps, runs, maps', runs', extra);
  }

  /** Where no page has become free, but perhaps a chunk was added before: none of its pages counted as zero, for it was
      not the arena's. */
  lemma IdleZeroKept(cfg: Config, maps: View, runs: map<PageId, Run>, base: map<PageId, Run>, maps': View,
                     runs': map<PageId, Run>, extra: set<PageId>, id: PageId)
    requires AllApart(runs) && AllApart(runs') && Settled(runs) && ClearFrom(maps, runs, maps', runs', extra)
    requires AllFit(cfg, maps.Keys, runs) && Covered(runs', Idle) <= Covered(base, Idle)
    requires base == runs || (id in base && id !in runs && id.chunk !in maps && base == runs[id := base[id]])
    ensures ZeroKept(maps, runs, maps', runs', extra)
  {
    if base != runs {
      CoveredRemove(base, id, Idle);
      assert base - {id} == runs;
      forall x
        ensures WasFree(maps, runs, runs', x)
      {
        if IsClear(maps, runs, x) {
          var y :| ClearIn(maps, runs, y, x);
          assert Fits(cfg, maps.Keys, y, runs[y]);
        }
      }
    } else {
      forall x ensures WasFree(maps, runs, runs', x) { }
    }
    FreeClearFrom(maps, runs, maps', runs', extra);
  }
}
