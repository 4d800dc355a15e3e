/** Resizing runs in place. */
module ArenaOps {
  import opened Basics
  import opened ArenaState
  import opened ArenaPages
  import opened ArenaZero
  import opened PageMap
  import opened ArenaRuns
  import opened ArenaAlloc

  // ---------------------------------------------------------------- arena_ralloc_large_shrink

  /** The last `less` pages of the run are free now, and dirty. */
  ghost predicate Shrunk(cfg: Config, a: Fields, runs: map<PageId, Run>, b: Fields, runs': map<PageId, Run>, id: PageId,
                         size: nat, less: nat)
  {
    forall key {:trigger Choosing(key)} :: Choosing(key) ==>
      Trimmed(a, runs, b, runs', Interval(Page(id.chunk, id.ind + size + cfg.pad), less), true)
  }

  /** Shrink a large allocation of `size` + `less` usable pages in place. */
  method RallocLargeShrink(cfg: Config, a: Fields, ghost runs: map<PageId, Run>, id: PageId, size: nat, less: nat,
                           recorded: bool)
    returns (b: Fields, ghost runs': map<PageId, Run>)
    requires Consistent(cfg, a, runs) && id in runs && runs[id].kind.Large? && !runs[id].kind.decommitted
    requires 1 <= size && 1 <= less && runs[id].n == (size + cfg.pad) + less
    ensures Consistent(cfg, b, runs') && b.nactive == a.nactive - less
    ensures Live(runs') == Live(runs)[id := Run(size + cfg.pad, runs[id].kind)]
    ensures Shrunk(cfg, a, runs, b, runs', id, size, less)
    ensures ZeroKept(a.maps, runs, b.maps, runs', {})
  {
    b, runs' := RunTrimTail(cfg, a, runs, id, size + cfg.pad, less, true, recorded);
    MovedConsistent(cfg, a, runs, b, runs', Interval(Page(id.chunk, id.ind + size + cfg.pad), less), Free(true, false));
  }

  // ---------------------------------------------------------------- arena_ralloc_large_grow

  /** The loop of arena_ralloc_large_grow: step down the size classes until the allocation fits in `room` pages. */
  method FitUsize(classes: seq<nat>, oldsize: nat, usizeMin: nat, maxInd: nat, room: nat) returns (ind: nat)
    requires Increasing(classes) && maxInd < |classes|
    requires oldsize in classes && oldsize <= classes[maxInd] && oldsize <= room
    requires usizeMin in classes && usizeMin <= classes[maxInd] && usizeMin <= room
    ensures ind <= maxInd && classes[ind] <= room
    ensures usizeMin <= classes[ind] && oldsize <= classes[ind]
    ensures forall k :: ind < k <= maxInd ==> room < classes[k]
  {
    ghost var o :| 0 <= o < |classes| && classes[o] == oldsize;
    ghost var m :| 0 <= m < |classes| && classes[m] == usizeMin;
    assert o <= maxInd && m <= maxInd;
    ind := maxInd;
    while room < classes[ind]
      invariant o <= ind <= maxInd && m <= ind
      invariant forall k :: ind < k <= maxInd ==> room < classes[k]
      decreases ind
    {
      assert ind != o && ind != m;
      ind := ind - 1;
    }
    assert classes[o] <= classes[ind] && classes[m] <= classes[ind];
  }

  /** Page map writes that turn two neighbouring large runs into one. */
  method SetLargeJoined(cfg: Config, maps: View, id: PageId, n: nat, dirty: bool) returns (after: View)
    requires id.chunk in maps && 2 <= n && id.ind + n <= |maps[id.chunk]| && cfg.bias <= cfg.npages
    ensures WrittenWithin(maps, after, id.chunk, id.ind, id.ind + n)
    ensures DescribedAt(cfg, after, id, Run(n, Large(dirty, false)))
    ensures !dirty ==> MarksKept(maps, after, id.chunk, id.ind, id.ind + n)
  {
    var m, p := maps[id.chunk], id.ind;
    m := m[p := LargeBits(n, dirty, !dirty && m[p].unzeroed, false)];
    m := m[p + n - 1 := LargeBits(0, dirty, !dirty && m[p + n - 1].unzeroed, false)];
    after := maps[id.chunk := m];
  }

  lemma JoinedRun(cfg: Config, a: Fields, runs: map<PageId, Run>, id: PageId, maps: View, kind: Kind)
    requires Valid(cfg, a, runs) && Settled(runs) && id in runs && Next(id, runs[id]) in runs
    requires IsLive(runs[id]) && IsLive(runs[Next(id, runs[id])]) && kind.Large? && FlagsOk(kind)
    requires WrittenWithin(a.maps, maps, id.chunk, id.ind, id.ind + (runs[id].n + runs[Next(id, runs[id])].n))
    requires DescribedAt(cfg, maps, id, Run(runs[id].n + runs[Next(id, runs[id])].n, kind))
    ensures Valid(cfg, a.(maps := maps), Fuse(runs, id, kind)) && Settled(Fuse(runs, id, kind))
    ensures Live(Fuse(runs, id, kind))
         == (Live(runs) - {Next(id, runs[id])})[id := Run(runs[id].n + runs[Next(id, runs[id])].n, kind)]
    ensures Moved(runs, Fuse(runs, id, kind), {}, kind, a.maps.Keys)
  {
    assert Open(0);
    assert Fits(cfg, a.maps.Keys, id, runs[id]);
    FuseMoved(cfg, a.maps.Keys, runs, id, kind);
    FuseRunInv(cfg, St(a, runs), id, kind);
    assert St(a.(maps := maps), Fuse(runs, id, kind)) == FuseRun(St(a, runs), id, kind);
    DescribedFuse(cfg, a.maps, maps, runs, id, kind);
    FuseLive(runs, id, kind);
  }

  /** Allocate the first `split` pages of the free run after `id`. */
  method SplitFollowing(cfg: Config, a: Fields, ghost runs: map<PageId, Run>, id: PageId, n: nat, split: nat,
                        commitFails: bool, zero: bool)
    returns (b: Fields, ghost runs': map<PageId, Run>, err: bool, cleared: set<PageId>)
    requires Consistent(cfg, a, runs) && id in runs && runs[id].kind.Large? && !runs[id].kind.decommitted
             && runs[id].n == n
    requires Page(id.chunk, id.ind + n) in runs && runs[Page(id.chunk, id.ind + n)].kind.Free?
    requires 1 <= split <= runs[Page(id.chunk, id.ind + n)].n
    ensures Consistent(cfg, b, runs')
    ensures err <==> CommitRefused(runs, Page(id.chunk, id.ind + n), commitFails)
    ensures err ==> b == a && runs' == runs
    ensures !err ==>
              var nxt := Page(id.chunk, id.ind + n);
              && id in runs' && runs'[id] == runs[id]
              && nxt in runs' && runs'[nxt] == Run(split, Large(runs[nxt].kind.dirty, false))
              && nxt !in Live(runs) && Live(runs') == Live(runs)[nxt := runs'[nxt]]
              && b.nactive == a.nactive + split
              && Moved(runs, runs', Interval(nxt, split), runs'[nxt].kind, b.maps.Keys) && SameChunks(a, b)
    ensures ClearFrom(a.maps, runs, b.maps, runs', {})
    ensures if zero && !err then ZeroMet(a.maps, runs, {}, Interval(Page(id.chunk, id.ind + n), split), cleared)
            else cleared == {}
  {
    assert Open(0);
    var nxt := Page(id.chunk, id.ind + n);
    LiveFacts(cfg, a, runs, id);
    b, runs', err, cleared := RunSplitLarge(cfg, a, runs, nxt, split, commitFails, zero);
    if !err {
      LiveEntry(runs, id);
      LiveEntry(runs', id);
      LiveEntry(runs', nxt);
    }
  }

  /** What the page map says about two neighbouring large runs. */
  lemma NeighbourFacts(cfg: Config, a: Fields, runs: map<PageId, Run>, id: PageId, n: nat, nxt: PageId, split: nat)
    requires Consistent(cfg, a, runs) && id in runs && runs[id].kind.Large? && runs[id].n == n
    requires nxt == Page(id.chunk, id.ind + n) && nxt in runs && runs[nxt].kind.Large? && runs[nxt].n == split
    ensures id.chunk in a.maps && 1 <= n && 1 <= split && id.ind + n + split <= |a.maps[id.chunk]|
    ensures cfg.bias <= cfg.npages
    ensures a.maps[id.chunk][id.ind].dirty == runs[id].kind.dirty
    ensures a.maps[id.chunk][id.ind + n + split - 1].dirty == runs[nxt].kind.dirty
  {
    assert Open(0);
    LiveFacts(cfg, a, runs, id);
    LiveFacts(cfg, a, runs, nxt);
  }

  lemma JoinedConsistent(cfg: Config, a: Fields, runs: map<PageId, Run>, id: PageId, n: nat, nxt: PageId, split: nat,
                         maps: View, kind: Kind)
    requires Consistent(cfg, a, runs) && id in runs && runs[id].kind.Large? && runs[id].n == n
    requires nxt == Page(id.chunk, id.ind + n) && nxt in runs && runs[nxt].kind.Large? && runs[nxt].n == split
    requires kind.Large? && FlagsOk(kind)
    requires WrittenWithin(a.maps, maps, id.chunk, id.ind, id.ind + (n + split))
    requires DescribedAt(cfg, maps, id, Run(n + split, kind))
    ensures Consistent(cfg, a.(maps := maps), Fuse(runs, id, kind))
    ensures Live(Fuse(runs, id, kind)) == (Live(runs) - {nxt})[id := Run(n + split, kind)]
    ensures Moved(runs, Fuse(runs, id, kind), {}, kind, a.maps.Keys)
  {
    assert Open(0);
    assert nxt == Next(id, runs[id]);
    JoinedRun(cfg, a, runs, id, maps, kind);
  }

  lemma JoinedClear(cfg: Config, a: Fields, runs: map<PageId, Run>, id: PageId, n: nat, split: nat, maps: View,
                    dirty: bool)
    requires Consistent(cfg, a, runs) && id in runs && runs[id].kind.Large? && runs[id].n == n && 1 <= n
    requires !runs[id].kind.decommitted && Next(id, runs[id]) in runs && runs[Next(id, runs[id])].n == split
    requires runs[Next(id, runs[id])].kind.Large? && !runs[Next(id, runs[id])].kind.decommitted
    requires dirty == (runs[id].kind.dirty || runs[Next(id, runs[id])].kind.dirty)
    requires WrittenWithin(a.maps, maps, id.chunk, id.ind, id.ind + (n + split))
    requires !dirty ==> MarksKept(a.maps, maps, id.chunk, id.ind, id.ind + (n + split))
    ensures ClearFrom(a.maps, runs, maps, Fuse(runs, id, Large(dirty, false)), {})
  {
    assert AllApart(runs) by { assert Open(0); }
    FuseClear(a.maps, maps, runs, id, Large(dirty, false));
  }

  /** Merge the pages split off the following run into the allocation. */
  method JoinFollowing(cfg: Config, a: Fields, ghost runs: map<PageId, Run>, id: PageId, n: nat, split: nat)
    returns (b: Fields, ghost runs': map<PageId, Run>)
    requires Consistent(cfg, a, runs) && id in runs && runs[id].kind.Large? && !runs[id].kind.decommitted
             && runs[id].n == n
    requires Page(id.chunk, id.ind + n) in runs && runs[Page(id.chunk, id.ind + n)].n == split
    requires runs[Page(id.chunk, id.ind + n)].kind.Large? && !runs[Page(id.chunk, id.ind + n)].kind.decommitted
    ensures Consistent(cfg, b, runs') && b.nactive == a.nactive
    ensures var nxt := Page(id.chunk, id.ind + n);
            var kind := Large(runs[id].kind.dirty || runs[nxt].kind.dirty, false);
            && Live(runs') == (Live(runs) - {nxt})[id := Run(n + split, kind)]
            && Moved(runs, runs', {}, kind, b.maps.Keys)
    ensures SameChunks(a, b) && ClearFrom(a.maps, runs, b.maps, runs', {})
  {
    var nxt := Page(id.chunk, id.ind + n);
    NeighbourFacts(cfg, a, runs, id, n, nxt, split);
    var flagDirty := a.maps[id.chunk][id.ind].dirty || a.maps[id.chunk][id.ind + n + split - 1].dirty;
    var maps := SetLargeJoined(cfg, a.maps, id, n + split, flagDirty);
    ghost var kind := Large(flagDirty, false);
    JoinedConsistent(cfg, a, runs, id, n, nxt, split, maps, kind);
    JoinedClear(cfg, a, runs, id, n, split, maps, flagDirty);
    b := a.(maps := maps);
    runs' := Fuse(runs, id, kind);
  }

  /** How many pages the allocation `id` of `n` pages can grow by: the length of the free run after it, if there is
      one. */
  ghost function Room(runs: map<PageId, Run>, id: PageId, n: nat): nat
  {
    var nxt := Page(id.chunk, id.ind + n);
    if nxt in runs && runs[nxt].kind.Free? then runs[nxt].n else 0
  }

  /** What arena_ralloc_large_grow reads: the length of the free run that follows, if one does. */
  method FollowingFree(cfg: Config, a: Fields, ghost runs: map<PageId, Run>, id: PageId, n: nat) returns (follow: nat)
    requires Consistent(cfg, a, runs) && id in runs && runs[id].kind.Large? && runs[id].n == n
    ensures follow == Room(runs, id, n)
  {
    assert Open(0);
    NextTag(cfg, St(a, runs), a.maps, id, false, false);
    if id.ind + n >= cfg.npages || a.maps[id.chunk][id.ind + n].inUse {
      FollowingInUse(cfg, a, runs, id);
      return 0;
    }
    FollowingInUse(cfg, a, runs, id);
    follow := a.maps[id.chunk][id.ind + n].size;
  }

  lemma FollowingInUse(cfg: Config, a: Fields, runs: map<PageId, Run>, id: PageId)
    requires Valid(cfg, a, runs) && Settled(runs) && id in runs
    ensures Next(id, runs[id]) in runs ==>
              && id.chunk in a.maps && Next(id, runs[id]).ind < |a.maps[id.chunk]|
              && (a.maps[id.chunk][Next(id, runs[id]).ind].inUse <==> IsLive(runs[Next(id, runs[id])]))
              && (runs[Next(id, runs[id])].kind.Free? ==> 1 <= runs[Next(id, runs[id])].n)
  {
    assert Open(0);
    var nxt := Next(id, runs[id]);
    if nxt in runs {
      FirstTag(cfg, a.maps, runs, nxt);
    }
  }

  /** The allocation `id` of `n` pages has grown by the `split` pages after it, which were free; it is dirty if either
      was.  Every other run and page is as before. */
  ghost predicate Grown(a: Fields, runs: map<PageId, Run>, b: Fields, runs': map<PageId, Run>, id: PageId, n: nat,
                        split: nat)
  {
    var nxt := Page(id.chunk, id.ind + n);
    && id in runs && runs[id].kind.Large? && nxt in runs && runs[nxt].kind.Free? && id in runs'
    && runs'[id] == Run(n + split, Large(runs[id].kind.dirty || runs[nxt].kind.dirty, false))
    && Live(runs') == Live(runs)[id := runs'[id]]
    && Moved(runs, runs', Interval(nxt, split), runs'[id].kind, b.maps.Keys) && SameChunks(a, b)
  }

  lemma SplitThenJoined(runs: map<PageId, Run>, runs1: map<PageId, Run>, runs': map<PageId, Run>, pages: set<PageId>,
                        first: Kind, kind: Kind, chunks: set<nat>)
    requires first.Large? && kind.Large?
    requires Moved(runs, runs1, pages, first, chunks) && Moved(runs1, runs', {}, kind, chunks)
    ensures Moved(runs, runs', pages, kind, chunks)
  {
    MovedSame(runs, runs1, pages, pages, first, kind, chunks);
    MovedTwice(runs, runs1, runs', pages, {}, kind, chunks, chunks);
    assert pages + {} == pages;
  }

  method GrowInto(cfg: Config, a: Fields, ghost runs: map<PageId, Run>, id: PageId, n: nat, split: nat,
                  commitFails: bool, zero: bool)
    returns (b: Fields, ghost runs': map<PageId, Run>, err: bool, cleared: set<PageId>)
    requires Consistent(cfg, a, runs) && id in runs && runs[id].kind.Large? && !runs[id].kind.decommitted
             && runs[id].n == n
    requires Page(id.chunk, id.ind + n) in runs && runs[Page(id.chunk, id.ind + n)].kind.Free?
    requires 1 <= split <= runs[Page(id.chunk, id.ind + n)].n
    ensures Consistent(cfg, b, runs')
    ensures err <==> CommitRefused(runs, Page(id.chunk, id.ind + n), commitFails)
    ensures err ==> b == a && runs' == runs
    ensures !err ==> Grown(a, runs, b, runs', id, n, split) && b.nactive == a.nactive + split
    ensures ClearFrom(a.maps, runs, b.maps, runs', {})
    ensures if zero && !err then ZeroMet(a.maps, runs, {}, Interval(Page(id.chunk, id.ind + n), split), cleared)
            else cleared == {}
  {
    b, runs', err, cleared := SplitFollowing(cfg, a, runs, id, n, split, commitFails, zero);
    if !err {
      ghost var nxt := Page(id.chunk, id.ind + n);
      MapUpdates(Live(runs), nxt, runs'[nxt], runs'[nxt]);
      ghost var maps1, runs1 := b.maps, runs';
      b, runs' := JoinFollowing(cfg, b, runs', id, n, split);
      LiveEntry(runs', id);
      ClearOnce(a.maps, runs, maps1, runs1, b.maps, runs');
      SplitThenJoined(runs, runs1, runs', Interval(nxt, split), runs1[nxt].kind, runs'[id].kind, b.maps.Keys);
    }
  }

  /** `usize` is the largest size class up to classes[maxInd] within `limit`. */
  ghost predicate LargestWithin(classes: seq<nat>, maxInd: nat, limit: nat, usize: nat)
    requires maxInd < |classes|
  {
    && usize <= limit && (exists k :: 0 <= k <= maxInd && classes[k] == usize)
    && forall k :: 0 <= k <= maxInd && classes[k] <= limit ==> classes[k] <= usize
  }

  /** No class above `oldsize`, up to classes[maxInd], is within `limit`. */
  ghost predicate NothingGained(classes: seq<nat>, maxInd: nat, limit: nat, oldsize: nat)
    requires maxInd < |classes|
  {
    forall k :: 0 <= k <= maxInd && classes[k] <= limit ==> classes[k] <= oldsize
  }

  /** The pages that an allocation of `oldsize` usable pages gains. */
  ghost function NewPages(cfg: Config, id: PageId, oldsize: nat, usize: nat): set<PageId>
    requires oldsize <= usize
  {
    Interval(Page(id.chunk, id.ind + oldsize + cfg.pad), usize - oldsize)
  }

  /** arena_ralloc_large_grow: extend a large allocation of `oldsize` usable pages into the free run after it,
      to the largest size class up to classes[maxInd] that fits. */
  method RallocLargeGrow(cfg: Config, a: Fields, ghost runs: map<PageId, Run>, classes: seq<nat>, id: PageId,
                         oldsize: nat, usizeMin: nat, maxInd: nat, commitFails: bool, zero: bool)
    returns (b: Fields, ghost runs': map<PageId, Run>, err: bool, usize: nat, cleared: set<PageId>)
    requires Consistent(cfg, a, runs) && id in runs && runs[id].kind.Large? && !runs[id].kind.decommitted
    requires runs[id].n == oldsize + cfg.pad
    requires Increasing(classes) && maxInd < |classes| && oldsize in classes && oldsize <= classes[maxInd]
    requires usizeMin in classes && usizeMin <= classes[maxInd]
    ensures Consistent(cfg, b, runs')
    ensures err ==> b == a && runs' == runs
    ensures var room := Room(runs, id, oldsize + cfg.pad);
            err <==> || oldsize + room < usizeMin
                     || NothingGained(classes, maxInd, oldsize + room, oldsize)
                     || CommitRefused(runs, Page(id.chunk, id.ind + oldsize + cfg.pad), commitFails)
    ensures !err ==> LargestWithin(classes, maxInd, oldsize + Room(runs, id, oldsize + cfg.pad), usize)
    ensures !err ==> oldsize < usize && usizeMin <= usize
    ensures !err ==> Grown(a, runs, b, runs', id, oldsize + cfg.pad, usize - oldsize)
    ensures !err ==> b.nactive == a.nactive + (usize - oldsize)
    ensures ZeroKept(a.maps, runs, b.maps, runs', {})
    ensures if zero && !err then ZeroMet(a.maps, runs, {}, NewPages(cfg, id, oldsize, usize), cleared)
            else cleared == {}
  {
    b, runs', err, usize, cleared := a, runs, true, oldsize, {};
    var n := oldsize + cfg.pad;
    var follow := FollowingFree(cfg, a, runs, id, n);
    if follow > 0 && oldsize + follow >= usizeMin {
      var ind := FitUsize(classes, oldsize, usizeMin, maxInd, oldsize + follow);
      usize := classes[ind];
      FitIsLargest(classes, maxInd, oldsize + follow, ind, oldsize);
      var split := usize - oldsize;
      if split != 0 {
        b, runs', err, cleared := GrowInto(cfg, a, runs, id, n, split, commitFails, zero);
        if !err {
          MovedConsistent(cfg, a, runs, b, runs', Interval(Page(id.chunk, id.ind + n), split), runs'[id].kind);
        }
      }
    }
  }

  lemma FitIsLargest(classes: seq<nat>, maxInd: nat, limit: nat, ind: nat, oldsize: nat)
    requires Increasing(classes) && ind <= maxInd < |classes| && classes[ind] <= limit
    requires forall k :: ind < k <= maxInd ==> limit < classes[k]
    ensures LargestWithin(classes, maxInd, limit, classes[ind])
    ensures NothingGained(classes, maxInd, limit, oldsize) <==> classes[ind] <= oldsize
  {
    forall k | 0 <= k <= maxInd && classes[k] <= limit ensures classes[k] <= classes[ind] {
      assert k <= ind;
    }
  }
}
