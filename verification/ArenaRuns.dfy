/** The run allocator of arena.c: the steps of splitting, freeing and coalescing runs, as they
    read and write the page maps, the size-indexed heaps, the dirty ring and the counters.

    `Fields` is the arena's record of mutable fields.  The ghost `runs` lists the runs its page
    maps describe.  Hooks that may fail (commit, decommit, chunk allocation, chunk recording)
    are parameters.
 */
module ArenaRuns {
  import opened Basics
  import opened ArenaState
  import opened ArenaPages
  import opened ArenaZero
  import opened PageMap

  datatype Fields = Fields(
    maps: View,                  // chunk -> its page map
    spare: Option<nat>,
    avail: seq<set<PageId>>,
    ring: set<PageId>,
    ndirty: int,
    nactive: int,
    cache: set<nat>)             // the chunks of the extents in chunks_cache

  ghost function St(a: Fields, runs: map<PageId, Run>): State
  {
    State(runs, a.maps.Keys, a.spare, a.avail, a.ring, a.ndirty, a.nactive, a.cache)
  }

  /** The page maps describe the runs, and the indexes and counters agree with them. */
  ghost predicate Valid(cfg: Config, a: Fields, runs: map<PageId, Run>)
  {
    ValidConfig(cfg) && forall key {:trigger Open(key)} :: Open(key) ==>
      Inv(cfg, St(a, runs)) && Described(cfg, a.maps, runs)
  }

  // ---------------------------------------------------------------- page map writes

  /** Mark both ends of `n` free pages; `mask` says whether the unzeroed bits survive. */
  method SetFreeEnds(cfg: Config, maps: View, c: nat, p: nat, n: nat, dirty: bool, decommitted: bool, mask: bool)
    returns (after: View)
    requires c in maps && 1 <= n && p + n <= |maps[c]| && cfg.bias <= cfg.npages
    ensures WrittenWithin(maps, after, c, p, p + n)
    ensures DescribedAt(cfg, after, Page(c, p), Run(n, Free(dirty, decommitted)))
    ensures DescribedAt(cfg, after, Page(c, p), Run(n, Detached(dirty, decommitted)))
    ensures mask ==> MarksKept(maps, after, c, p, p + n)
  {
    var m := maps[c];
    m := m[p := UnallocatedBits(n, dirty, mask && m[p].unzeroed, decommitted)];
    m := m[p + n - 1 := UnallocatedBits(n, dirty, mask && m[p + n - 1].unzeroed, decommitted)];
    after := maps[c := m];
  }

  /** Mark both ends of a large run, the last entry first. */
  method SetLargeEnds(cfg: Config, maps: View, c: nat, p: nat, n: nat, dirty: bool, decommitted: bool, mask: bool)
    returns (after: View)
    requires c in maps && 1 <= n && p + n <= |maps[c]| && cfg.bias <= cfg.npages
    ensures WrittenWithin(maps, after, c, p, p + n)
    ensures DescribedAt(cfg, after, Page(c, p), Run(n, Large(dirty, decommitted)))
    ensures mask ==> MarksKept(maps, after, c, p, p + n)
  {
    var m := maps[c];
    m := m[p + n - 1 := LargeBits(0, dirty, mask && m[p + n - 1].unzeroed, decommitted)];
    m := m[p := LargeBits(n, dirty, mask && m[p].unzeroed, decommitted)];
    after := maps[c := m];
  }

  // ---------------------------------------------------------------- splitting

  /** The free-run indexes after a run of `total` pages loses its first `need` pages. */
  method SplitIndexes(cfg: Config, a: Fields, id: PageId, total: nat, need: nat, flagDirty: bool)
    returns (avail: seq<set<PageId>>, ring: set<PageId>, ndirty: int)
    requires cfg.pad <= 1 <= need <= total
    ensures avail == SplitAvail(cfg, a.avail, id, total, need)
    ensures ring == SplitRing(a.ring, id, total, need, flagDirty)
    ensures ndirty == if flagDirty then a.ndirty - need else a.ndirty
  {
    avail := AvailRemove(cfg, a.avail, id, total);
    ring, ndirty := a.ring - {id}, a.ndirty;
    if flagDirty {
      ndirty := ndirty - total;
    }
    if total - need > 0 {
      var rest := Page(id.chunk, id.ind + need);
      if flagDirty {
        ring, ndirty := ring + {rest}, ndirty + (total - need);
      }
      avail := AvailInsert(cfg, avail, rest, total - need);
    }
  }

  lemma SplitRemoveFields(cfg: Config, a: Fields, b: Fields, runs: map<PageId, Run>, id: PageId, need: nat)
    requires cfg.pad <= 1 && id in runs && runs[id].kind.Free? && 1 <= need <= runs[id].n
    requires b.maps.Keys == a.maps.Keys && b.spare == a.spare && b.cache == a.cache
    requires b.avail == SplitAvail(cfg, a.avail, id, runs[id].n, need)
    requires b.ring == SplitRing(a.ring, id, runs[id].n, need, runs[id].kind.dirty)
    requires b.ndirty == if runs[id].kind.dirty then a.ndirty - need else a.ndirty
    requires b.nactive == a.nactive + need
    ensures St(b, Cut(runs, id, need, Carved, runs[id].kind)) == SplitRemove(cfg, St(a, runs), id, need)
  {
  }

  /** The first `need` pages of the free run `id` can be taken. */
  ghost predicate CanTake(a: Fields, runs: map<PageId, Run>, id: PageId, need: nat)
  {
    InAvail(runs, a.spare, id) && 1 <= need <= runs[id].n
  }

  /** What the page map says about such a run. */
  lemma TakeFacts(cfg: Config, a: Fields, runs: map<PageId, Run>, id: PageId, need: nat)
    requires Valid(cfg, a, runs) && CanTake(a, runs, id, need)
    ensures id.chunk in a.maps && id.ind + runs[id].n <= |a.maps[id.chunk]|
    ensures a.maps[id.chunk][id.ind].size == runs[id].n
    ensures a.maps[id.chunk][id.ind].dirty == runs[id].kind.dirty
    ensures a.maps[id.chunk][id.ind].decommitted == runs[id].kind.decommitted
    ensures a.maps[id.chunk][id.ind + runs[id].n - 1].dirty == runs[id].kind.dirty
    ensures runs[id].kind.dirty ==> runs[id].n <= a.ndirty
  {
    assert Open(0);
    SplitFacts(cfg, St(a, runs), a.maps, id, need);
    if runs[id].kind.dirty {
      DirtyEnough(cfg, St(a, runs), id);
    }
  }

  /** An allocation adds one run to the live ones and disturbs no other. */
  lemma TakenLive(cfg: Config, a: Fields, runs: map<PageId, Run>, id: PageId, need: nat, kind: Kind)
    requires Valid(cfg, a, runs) && CanTake(a, runs, id, need) && (kind.Large? || kind.Small?) && FlagsOk(kind)
    ensures id !in Live(runs)
    ensures Live(Allocate(cfg, St(a, runs), id, need, kind).runs) == Live(runs)[id := Run(need, kind)]
    ensures Settled(runs) ==> Settled(Allocate(cfg, St(a, runs), id, need, kind).runs)
    ensures Moved(runs, Allocate(cfg, St(a, runs), id, need, kind).runs, Interval(id, need), kind, a.maps.Keys)
    ensures Allocate(cfg, St(a, runs), id, need, kind).runs == Cut(runs, id, need, kind, runs[id].kind)
  {
    assert Open(0);
    AllocateLive(cfg, St(a, runs), id, need, kind);
    CutApart(runs, id, need, Carved, runs[id].kind);
    AllocateRuns(runs, id, need, kind);
    CutMoved(cfg, a.maps.Keys, runs, id, need, kind);
  }

  /** Taking pages off a free run makes no page count as zero. */
  lemma TakenClear(cfg: Config, a: Fields, runs: map<PageId, Run>, id: PageId, need: nat, kind: Kind, maps1: View,
                   maps2: View)
    requires Valid(cfg, a, runs) && CanTake(a, runs, id, need) && (Clean(kind) ==> Clean(runs[id].kind))
    requires WrittenWithin(a.maps, maps1, id.chunk, id.ind, id.ind + runs[id].n)
    requires WrittenWithin(maps1, maps2, id.chunk, id.ind, id.ind + need)
    requires Clean(runs[id].kind) && !runs[id].kind.decommitted ==>
               MarksKept(a.maps, maps1, id.chunk, id.ind, id.ind + runs[id].n)
    requires Clean(runs[id].kind) && !runs[id].kind.decommitted ==>
               MarksKept(maps1, maps2, id.chunk, id.ind, id.ind + need) && (Clean(kind) ==> !kind.decommitted)
    ensures ClearFrom(a.maps, runs, maps2, Cut(runs, id, need, kind, runs[id].kind), {})
  {
    assert AllApart(runs) by { assert Open(0); }
    if Clean(runs[id].kind) && !runs[id].kind.decommitted {
      MarksTwice(a.maps, maps1, maps2, id.chunk, id.ind, id.ind + need, id.ind + runs[id].n);
    }
    CutClear(a.maps, maps2, runs, id, need, kind, runs[id].kind);
  }

  /** An allocation inside the arena leaves these alone. */
  ghost predicate SameChunks(a: Fields, b: Fields)
  {
    b.maps.Keys == a.maps.Keys && b.spare == a.spare && b.cache == a.cache
  }

  lemma AllocateChunks(cfg: Config, a: Fields, runs: map<PageId, Run>, id: PageId, need: nat, kind: Kind, b: Fields,
                       runs': map<PageId, Run>)
    requires cfg.pad <= 1 && id in runs && runs[id].kind.Free? && 1 <= need <= runs[id].n
    requires St(b, runs') == Allocate(cfg, St(a, runs), id, need, kind)
    ensures SameChunks(a, b)
  {
  }

  lemma SplitValid(cfg: Config, a: Fields, b: Fields, runs: map<PageId, Run>, id: PageId, need: nat)
    requires Valid(cfg, a, runs) && CanTake(a, runs, id, need)
    requires St(b, Cut(runs, id, need, Carved, runs[id].kind)) == SplitRemove(cfg, St(a, runs), id, need)
    requires need == runs[id].n ==> b.maps == a.maps
    requires need < runs[id].n ==>
               && WrittenWithin(a.maps, b.maps, id.chunk, id.ind + need, id.ind + runs[id].n)
               && DescribedAt(cfg, b.maps, Page(id.chunk, id.ind + need), Run(runs[id].n - need, runs[id].kind))
    ensures Valid(cfg, b, Cut(runs, id, need, Carved, runs[id].kind))
  {
    assert Open(0);
    SplitDescribed(cfg, a.maps, b.maps, runs, id, need);
    SplitRemoveInv(cfg, St(a, runs), id, need);
  }

  /** The page map entries of what is left of a free run. */
  method SplitMap(cfg: Config, maps: View, id: PageId, total: nat, need: nat, flagDirty: bool, flagDecommitted: bool)
    returns (after: View)
    requires cfg.bias <= cfg.npages && 1 <= need <= total && id.chunk in maps && id.ind + total <= |maps[id.chunk]|
    ensures after.Keys == maps.Keys && |after[id.chunk]| == |maps[id.chunk]|
    ensures need == total ==> after == maps
    ensures need < total ==> WrittenWithin(maps, after, id.chunk, id.ind + need, id.ind + total)
    ensures need < total ==>
            DescribedAt(cfg, after, Page(id.chunk, id.ind + need), Run(total - need, Free(flagDirty, flagDecommitted)))
    ensures WrittenWithin(maps, after, id.chunk, id.ind, id.ind + total)
    ensures !flagDirty && !flagDecommitted ==> MarksKept(maps, after, id.chunk, id.ind, id.ind + total)
  {
    after := maps;
    if total - need > 0 {
      after := SetFreeEnds(cfg, maps, id.chunk, id.ind + need, total - need, flagDirty, flagDecommitted,
        !flagDirty && !flagDecommitted);
    }
  }

  /** arena_run_split_remove: carve `need` pages off the front of a free run. */
  method RunSplitRemove(cfg: Config, a: Fields, ghost runs: map<PageId, Run>, id: PageId,
                        flagDirty: bool, flagDecommitted: bool, need: nat)
    returns (b: Fields, ghost runs': map<PageId, Run>)
    requires Valid(cfg, a, runs) && CanTake(a, runs, id, need)
    requires runs[id].kind == Free(flagDirty, flagDecommitted)
    ensures Valid(cfg, b, runs') && b.maps.Keys == a.maps.Keys
    ensures St(b, runs') == SplitRemove(cfg, St(a, runs), id, need)
    ensures id.chunk in b.maps && id.ind + need <= |b.maps[id.chunk]|
    ensures WrittenWithin(a.maps, b.maps, id.chunk, id.ind, id.ind + runs[id].n)
    ensures !flagDirty && !flagDecommitted ==> MarksKept(a.maps, b.maps, id.chunk, id.ind, id.ind + runs[id].n)
  {
    TakeFacts(cfg, a, runs, id, need);
    var total := a.maps[id.chunk][id.ind].size;
    assert a.maps[id.chunk][id.ind + total - 1].dirty == flagDirty;
    assert flagDirty ==> a.ndirty >= total;
    var avail, ring, ndirty := SplitIndexes(cfg, a, id, total, need, flagDirty);
    var maps := SplitMap(cfg, a.maps, id, total, need, flagDirty, flagDecommitted);
    b := a.(maps := maps, avail := avail, ring := ring, ndirty := ndirty, nactive := a.nactive + need);
    runs' := Cut(runs, id, need, Carved, runs[id].kind);
    SplitRemoveFields(cfg, a, b, runs, id, need);
    SplitValid(cfg, a, b, runs, id, need);
  }

  /** Rewriting the page map of one allocated run, inside that run. */
  lemma RewrittenRun(cfg: Config, a: Fields, runs: map<PageId, Run>, id: PageId, maps: View, kind: Kind)
    requires Valid(cfg, a, runs) && id in runs
    requires Allocated(runs[id].kind) && Allocated(kind) && FlagsOk(kind)
    requires WrittenWithin(a.maps, maps, id.chunk, id.ind, id.ind + runs[id].n)
    requires DescribedAt(cfg, maps, id, Run(runs[id].n, kind))
    ensures Valid(cfg, a.(maps := maps), runs[id := Run(runs[id].n, kind)])
    ensures St(a.(maps := maps), runs[id := Run(runs[id].n, kind)]) == CutRun(St(a, runs), id, runs[id].n, kind, kind)
  {
    assert Open(0);
    CutRunInv(cfg, St(a, runs), id, runs[id].n, kind, kind);
    DescribedRekind(cfg, a.maps, maps, runs, id, kind);
  }

  /** The pages that are taken off a free run become a run of kind `kind`. */
  lemma AllocatedRun(cfg: Config, a: Fields, runs: map<PageId, Run>, b: Fields, runs': map<PageId, Run>, id: PageId,
                     need: nat, maps: View, kind: Kind)
    requires Valid(cfg, a, runs) && CanTake(a, runs, id, need) && Allocated(kind) && FlagsOk(kind)
    requires Valid(cfg, b, runs') && St(b, runs') == SplitRemove(cfg, St(a, runs), id, need)
    requires WrittenWithin(b.maps, maps, id.chunk, id.ind, id.ind + need) && DescribedAt(cfg, maps, id, Run(need, kind))
    ensures Valid(cfg, b.(maps := maps), runs'[id := Run(need, kind)])
    ensures St(b.(maps := maps), runs'[id := Run(need, kind)]) == Allocate(cfg, St(a, runs), id, need, kind)
  {
    assert runs' == Cut(runs, id, need, Carved, runs[id].kind) && runs'[id] == Run(need, Carved);
    RewrittenRun(cfg, b, runs', id, maps, kind);
  }

  lemma FlagsApart(cfg: Config, a: Fields, runs: map<PageId, Run>, id: PageId)
    requires Valid(cfg, a, runs) && id in runs && (runs[id].kind.Free? || runs[id].kind.Large?)
    ensures !(runs[id].kind.dirty && runs[id].kind.decommitted)
  {
    assert Open(0);
  }

  /** arena_run_split_large: allocate the first `need` pages of a free run as a large run.
      Fails exactly when the run is decommitted and the commit hook fails, and then changes nothing. */
  method RunSplitLarge(cfg: Config, a: Fields, ghost runs: map<PageId, Run>, id: PageId, need: nat, commitFails: bool,
                       zero: bool)
    returns (b: Fields, ghost runs': map<PageId, Run>, err: bool, cleared: set<PageId>)
    requires Valid(cfg, a, runs) && CanTake(a, runs, id, need)
    ensures err <==> runs[id].kind.decommitted && commitFails
    ensures err ==> b == a && runs' == runs
    ensures !err ==> Valid(cfg, b, runs')
    ensures !err ==> St(b, runs') == Allocate(cfg, St(a, runs), id, need, Large(runs[id].kind.dirty, false))
    ensures id !in Live(runs)
    ensures !err ==> Live(runs') == Live(runs)[id := Run(need, Large(runs[id].kind.dirty, false))]
    ensures !err ==>
            Moved(runs, runs', Interval(id, need), Large(runs[id].kind.dirty, false), b.maps.Keys) && SameChunks(a, b)
    ensures ClearFrom(a.maps, runs, b.maps, runs', {})
    ensures if zero && !err then ZeroMet(a.maps, runs, {}, Interval(id, need), cleared) else cleared == {}
    ensures Settled(runs) ==> Settled(runs')
  {
    TakenLive(cfg, a, runs, id, need, Large(runs[id].kind.dirty, false));
    TakeFacts(cfg, a, runs, id, need);
    var flagDirty := a.maps[id.chunk][id.ind].dirty;
    var flagDecommitted := a.maps[id.chunk][id.ind].decommitted;
    if flagDecommitted && commitFails {
      ClearStill(a.maps, runs);
      return a, runs, true, {};
    }
    err, cleared := false, {};
    b, runs' := RunSplitRemove(cfg, a, runs, id, flagDirty, flagDecommitted, need);
    if zero {
      cleared := ZeroRun(b.maps, id, need, flagDirty, flagDecommitted);
      FlagsApart(cfg, a, runs, id);
      ZeroRunMet(a.maps, runs, b.maps, id, need, cleared);
    }
    var maps := SetLargeEnds(cfg, b.maps, id.chunk, id.ind, need, flagDirty, false, !flagDirty && !flagDecommitted);
    AllocatedRun(cfg, a, runs, b, runs', id, need, maps, Large(flagDirty, false));
    TakenClear(cfg, a, runs, id, need, Large(flagDirty, false), b.maps, maps);
    b := b.(maps := maps);
    runs' := runs'[id := Run(need, Large(flagDirty, false))];
    AllocateChunks(cfg, a, runs, id, need, Large(flagDirty, false), b, runs');
  }

  /** arena_run_split_small: allocate the first `need` pages of a free run as a run of bin `binind`. */
  method RunSplitSmall(cfg: Config, a: Fields, ghost runs: map<PageId, Run>, id: PageId, need: nat, binind: nat,
                       commitFails: bool)
    returns (b: Fields, ghost runs': map<PageId, Run>, err: bool)
    requires Valid(cfg, a, runs) && CanTake(a, runs, id, need)
    ensures err <==> runs[id].kind.decommitted && commitFails
    ensures err ==> b == a && runs' == runs
    ensures !err ==> Valid(cfg, b, runs')
    ensures !err ==> St(b, runs') == Allocate(cfg, St(a, runs), id, need, Small(binind))
    ensures id !in Live(runs) && (!err ==> Live(runs') == Live(runs)[id := Run(need, Small(binind))])
    ensures !err ==> Moved(runs, runs', Interval(id, need), Small(binind), b.maps.Keys) && SameChunks(a, b)
    ensures ClearFrom(a.maps, runs, b.maps, runs', {})
    ensures Settled(runs) ==> Settled(runs')
  {
    TakenLive(cfg, a, runs, id, need, Small(binind));
    TakeFacts(cfg, a, runs, id, need);
    var flagDirty := a.maps[id.chunk][id.ind].dirty;
    var flagDecommitted := a.maps[id.chunk][id.ind].decommitted;
    if flagDecommitted && commitFails {
      ClearStill(a.maps, runs);
      return a, runs, true;
    }
    err := false;
    b, runs' := RunSplitRemove(cfg, a, runs, id, flagDirty, flagDecommitted, need);
    var maps := SetSmallPages(cfg, b.maps, id, need, binind);
    AllocatedRun(cfg, a, runs, b, runs', id, need, maps, Small(binind));
    TakenClear(cfg, a, runs, id, need, Small(binind), b.maps, maps);
    b := b.(maps := maps);
    runs' := runs'[id := Run(need, Small(binind))];
    AllocateChunks(cfg, a, runs, id, need, Small(binind), b, runs');
  }

  /** Give every page of a small run its offset in the run and its bin. */
  method SetSmallPages(cfg: Config, maps: View, id: PageId, n: nat, binind: nat) returns (after: View)
    requires id.chunk in maps && 1 <= n && id.ind + n <= |maps[id.chunk]| && cfg.bias <= cfg.npages
    ensures WrittenWithin(maps, after, id.chunk, id.ind, id.ind + n)
    ensures DescribedAt(cfg, after, id, Run(n, Small(binind)))
    ensures MarksKept(maps, after, id.chunk, id.ind, id.ind + n)
  {
    var m, p := maps[id.chunk], id.ind;
    for i := 0 to n
      invariant |m| == |maps[id.chunk]|
      invariant forall q :: 0 <= q < |m| && !(p <= q < p + n) ==> m[q] == maps[id.chunk][q]
      invariant forall q :: p <= q < p + i ==> SmallTag(m[q], q - p, binind)
      invariant forall q :: 0 <= q < |m| ==> m[q].unzeroed == maps[id.chunk][q].unzeroed
    {
      m := m[p + i := SmallBits(i, binind, m[p + i].unzeroed)];
    }
    after := maps[id.chunk := m];
  }

  // ---------------------------------------------------------------- coalescing

  /** arena_mapbits_unallocated_size_set on both ends of a merged run. */
  method SetFreeSize(maps: View, c: nat, p: nat, n: nat) returns (after: View)
    requires c in maps && 2 <= n && p + n <= |maps[c]|
    ensures SizesWritten(maps, after, c, p, n) && MarksKept(maps, after, c, p, p + n)
  {
    var m := maps[c];
    m := m[p := m[p].(size := n)];
    m := m[p + n - 1 := m[p + n - 1].(size := n)];
    after := maps[c := m];
  }

  lemma AbsorbedRun(cfg: Config, a: Fields, runs: map<PageId, Run>, first: PageId, free: PageId, b: Fields)
    requires Valid(cfg, a, runs) && CanAbsorb(runs, first, free) && a.spare != Some(first.chunk)
    requires SizesWritten(a.maps, b.maps, first.chunk, first.ind, runs[first].n + runs[Next(first, runs[first])].n)
    requires b == a.(maps := b.maps, avail := AvailRemove(cfg, a.avail, free, runs[free].n), ring := a.ring - {free},
                     ndirty := if runs[free].kind.dirty then a.ndirty - runs[free].n else a.ndirty)
    ensures Valid(cfg, b, Absorb(cfg, St(a, runs), first, free).runs)
    ensures St(b, Absorb(cfg, St(a, runs), first, free).runs) == Absorb(cfg, St(a, runs), first, free)
    ensures Live(Absorb(cfg, St(a, runs), first, free).runs) == Live(runs)
  {
    assert Open(0);
    var second := Next(first, runs[first]);
    assert Fits(cfg, a.maps.Keys, first, runs[first]) && Fits(cfg, a.maps.Keys, second, runs[second]);
    AbsorbInv(cfg, St(a, runs), first, free);
    AbsorbDescribed(cfg, a.maps, b.maps, runs, first, free);
  }

  /** The freed run `id`, at some point of coalescing. */
  ghost predicate Freeing(cfg: Config, a: Fields, runs: map<PageId, Run>, id: PageId, dirty: bool, decommitted: bool)
  {
    && ValidConfig(cfg) && id in runs && runs[id].kind == Detached(dirty, decommitted)
    && a.spare != Some(id.chunk)
    && forall key {:trigger Open(key)} :: Open(key) ==> Valid(cfg, a, runs) && SettledExcept(runs, Some(id))
  }

  /** The runs as they will be once the freed run is put back. */
  ghost function Shown(runs: map<PageId, Run>, id: PageId, free: Kind): map<PageId, Run>
    requires id in runs
  {
    runs[id := Run(runs[id].n, free)]
  }

  /** Merging the freed run with a neighbour moves no page. */
  lemma FusedShown(cfg: Config, chunks: set<nat>, runs: map<PageId, Run>, first: PageId, id: PageId, free: Kind,
                   kind: Kind)
    requires AllFit(cfg, chunks, runs) && first in runs && 1 <= runs[first].n && Next(first, runs[first]) in runs
    requires (id == first && runs[Next(first, runs[first])].kind == free)
             || (id == Next(first, runs[first]) && runs[first].kind == free)
    ensures Moved(Shown(runs, id, free), Shown(Fuse(runs, first, kind), first, free), {}, free, chunks)
  {
    var shown := Shown(runs, id, free);
    forall x | x in shown
      ensures Fits(cfg, chunks, x, shown[x])
    {
      assert Fits(cfg, chunks, x, runs[x]);
    }
    FuseMoved(cfg, chunks, shown, first, free);
    assert Shown(Fuse(runs, first, kind), first, free) == Fuse(shown, first, free);
  }

  lemma FusedShownClear(maps: View, maps': View, runs: map<PageId, Run>, first: PageId, id: PageId, free: Kind,
                        kind: Kind)
    requires AllApart(runs) && first in runs && 1 <= runs[first].n && Next(first, runs[first]) in runs && free.Free?
    requires (id == first && runs[Next(first, runs[first])].kind == free)
             || (id == Next(first, runs[first]) && runs[first].kind == free)
    requires var n := runs[first].n + runs[Next(first, runs[first])].n;
             && WrittenWithin(maps, maps', first.chunk, first.ind, first.ind + n)
             && MarksKept(maps, maps', first.chunk, first.ind, first.ind + n)
    ensures ClearFrom(maps, Shown(runs, id, free), maps', Shown(Fuse(runs, first, kind), first, free), {})
  {
    var shown := Shown(runs, id, free);
    forall x, y | x in shown && y in shown
      ensures Apart(x, shown[x], y)
    {
      assert Apart(x, runs[x], y);
    }
    FuseClear(maps, maps', shown, first, free);
    assert Shown(Fuse(runs, first, kind), first, free) == Fuse(shown, first, free);
  }

  lemma AbsorbedSettled(runs: map<PageId, Run>, first: PageId, kind: Kind, id: PageId)
    requires first in runs && Next(first, runs[first]) in runs && SettledExcept(runs, Some(id))
    requires id == first || id == Next(first, runs[first])
    ensures SettledExcept(Fuse(runs, first, kind), Some(first))
  {
  }

  /** The successor is merged into the freed run `id`. */
  lemma AbsorbedNext(cfg: Config, a: Fields, runs: map<PageId, Run>, id: PageId, b: Fields, dirty: bool,
                     decommitted: bool)
    requires Freeing(cfg, a, runs, id, dirty, decommitted)
    requires Next(id, runs[id]) in runs && runs[Next(id, runs[id])].kind == Free(dirty, decommitted)
    requires 1 <= runs[Next(id, runs[id])].n
    requires SizesWritten(a.maps, b.maps, id.chunk, id.ind, runs[id].n + runs[Next(id, runs[id])].n)
    requires b == a.(maps := b.maps, avail := AvailRemove(cfg, a.avail, Next(id, runs[id]), runs[Next(id, runs[id])].n),
                     ring := a.ring - {Next(id, runs[id])},
                     ndirty := if dirty then a.ndirty - runs[Next(id, runs[id])].n else a.ndirty)
    ensures Freeing(cfg, b, Fuse(runs, id, Detached(dirty, decommitted)), id, dirty, decommitted)
    ensures NextNotMergeable(Fuse(runs, id, Detached(dirty, decommitted)), id, Free(dirty, decommitted))
    ensures Live(Fuse(runs, id, Detached(dirty, decommitted))) == Live(runs)
    ensures Moved(Shown(runs, id, Free(dirty, decommitted)),
                  Shown(Fuse(runs, id, Detached(dirty, decommitted)), id, Free(dirty, decommitted)), {},
                  Free(dirty, decommitted), a.maps.Keys)
  {
    assert Open(0);
    FusedShown(cfg, a.maps.Keys, runs, id, id, Free(dirty, decommitted), Detached(dirty, decommitted));
    var nxt := Next(id, runs[id]);
    assert forall x :: x in runs ==> Fits(cfg, a.maps.Keys, x, runs[x]) && 1 <= runs[x].n;
    AbsorbedRun(cfg, a, runs, id, nxt, b);
    AbsorbedSettled(runs, id, Detached(dirty, decommitted), id);
    ForwardDone(runs, id, Free(dirty, decommitted), Detached(dirty, decommitted));
  }

  /** The freed run `id` is merged into its predecessor. */
  lemma AbsorbedPrev(cfg: Config, a: Fields, runs: map<PageId, Run>, prev: PageId, b: Fields, dirty: bool,
                     decommitted: bool)
    requires prev in runs && Freeing(cfg, a, runs, Next(prev, runs[prev]), dirty, decommitted)
    requires runs[prev].kind == Free(dirty, decommitted) && prev != Next(prev, runs[prev]) && 1 <= runs[prev].n
    requires SizesWritten(a.maps, b.maps, prev.chunk, prev.ind, runs[prev].n + runs[Next(prev, runs[prev])].n)
    requires b == a.(maps := b.maps, avail := AvailRemove(cfg, a.avail, prev, runs[prev].n), ring := a.ring - {prev},
                     ndirty := if dirty then a.ndirty - runs[prev].n else a.ndirty)
    ensures Freeing(cfg, b, Fuse(runs, prev, Detached(dirty, decommitted)), prev, dirty, decommitted)
    ensures PrevNotMergeable(Fuse(runs, prev, Detached(dirty, decommitted)), prev, Free(dirty, decommitted))
    ensures NextNotMergeable(runs, Next(prev, runs[prev]), Free(dirty, decommitted)) ==>
              NextNotMergeable(Fuse(runs, prev, Detached(dirty, decommitted)), prev, Free(dirty, decommitted))
    ensures Live(Fuse(runs, prev, Detached(dirty, decommitted))) == Live(runs)
    ensures Moved(Shown(runs, Next(prev, runs[prev]), Free(dirty, decommitted)),
                  Shown(Fuse(runs, prev, Detached(dirty, decommitted)), prev, Free(dirty, decommitted)), {},
                  Free(dirty, decommitted), a.maps.Keys)
  {
    assert Open(0);
    FusedShown(cfg, a.maps.Keys, runs, prev, Next(prev, runs[prev]), Free(dirty, decommitted),
               Detached(dirty, decommitted));
    assert forall x :: x in runs ==> Fits(cfg, a.maps.Keys, x, runs[x]) && 1 <= runs[x].n;
    AbsorbedRun(cfg, a, runs, prev, prev, b);
    AbsorbedSettled(runs, prev, Detached(dirty, decommitted), Next(prev, runs[prev]));
    BackwardDone(runs, prev, Free(dirty, decommitted), Detached(dirty, decommitted));
  }

  lemma ShownStill(cfg: Config, a: Fields, runs: map<PageId, Run>, id: PageId, free: Kind)
    requires Valid(cfg, a, runs) && id in runs
    ensures Moved(Shown(runs, id, free), Shown(runs, id, free), {}, free, a.maps.Keys)
  {
    assert Open(0);
    var shown := Shown(runs, id, free);
    forall x | x in shown
      ensures Fits(cfg, a.maps.Keys, x, shown[x])
    {
      assert Fits(cfg, a.maps.Keys, x, runs[x]);
    }
    StillMoved(cfg, a.maps.Keys, shown, free);
  }

  ghost predicate SameOutside(a: Fields, b: Fields)
  {
    b.maps.Keys == a.maps.Keys && b.spare == a.spare && b.nactive == a.nactive && b.cache == a.cache
  }

  lemma FreeingFits(cfg: Config, a: Fields, runs: map<PageId, Run>, id: PageId, dirty: bool, decommitted: bool,
                    x: PageId)
    requires Freeing(cfg, a, runs, id, dirty, decommitted) && x in runs
    ensures ValidConfig(cfg) && x.chunk in a.maps && |a.maps[x.chunk]| == cfg.npages
    ensures cfg.bias <= x.ind && 1 <= runs[x].n && x.ind + runs[x].n <= cfg.npages
    ensures runs[x].kind.Free? ==> a.maps[x.chunk][x.ind].size == runs[x].n
    ensures runs[x].kind.Free? && runs[x].kind.dirty ==> runs[x].n <= a.ndirty
  {
    assert Open(0);
    FirstTag(cfg, a.maps, runs, x);
    assert Fits(cfg, a.maps.Keys, x, runs[x]);
    if runs[x].kind.Free? && runs[x].kind.dirty {
      DirtyEnough(cfg, St(a, runs), x);
    }
  }

  lemma FreeingApart(cfg: Config, a: Fields, runs: map<PageId, Run>, id: PageId, dirty: bool, decommitted: bool)
    requires Freeing(cfg, a, runs, id, dirty, decommitted)
    ensures AllApart(runs)
  {
    assert Open(0);
  }

  /** The first half of arena_run_coalesce, when the successor can be merged. */
  method MergeNext(cfg: Config, a: Fields, ghost runs: map<PageId, Run>, id: PageId, pages: nat,
                   flagDirty: bool, flagDecommitted: bool)
    returns (b: Fields, ghost runs': map<PageId, Run>, runPages: nat)
    requires Freeing(cfg, a, runs, id, flagDirty, flagDecommitted) && pages == runs[id].n
    requires Next(id, runs[id]) in runs && runs[Next(id, runs[id])].kind == Free(flagDirty, flagDecommitted)
    ensures Freeing(cfg, b, runs', id, flagDirty, flagDecommitted) && runPages == runs'[id].n
    ensures NextNotMergeable(runs', id, Free(flagDirty, flagDecommitted))
    ensures Live(runs') == Live(runs) && SameOutside(a, b)
    ensures Moved(Shown(runs, id, Free(flagDirty, flagDecommitted)), Shown(runs', id, Free(flagDirty, flagDecommitted)),
                  {}, Free(flagDirty, flagDecommitted), b.maps.Keys)
    ensures ClearFrom(a.maps, Shown(runs, id, Free(flagDirty, flagDecommitted)), b.maps,
                      Shown(runs', id, Free(flagDirty, flagDecommitted)), {})
  {
    var nxt := Page(id.chunk, id.ind + pages);
    FreeingFits(cfg, a, runs, id, flagDirty, flagDecommitted, id);
    FreeingFits(cfg, a, runs, id, flagDirty, flagDecommitted, nxt);
    var nrunPages := a.maps[id.chunk][nxt.ind].size;
    runPages := pages + nrunPages;
    assert flagDirty ==> a.ndirty >= nrunPages;
    var maps := SetFreeSize(a.maps, id.chunk, id.ind, runPages);
    b := a.(maps := maps, avail := AvailRemove(cfg, a.avail, nxt, nrunPages), ring := a.ring - {nxt},
            ndirty := if flagDirty then a.ndirty - nrunPages else a.ndirty);
    runs' := Fuse(runs, id, Detached(flagDirty, flagDecommitted));
    AbsorbedNext(cfg, a, runs, id, b, flagDirty, flagDecommitted);
    FreeingApart(cfg, a, runs, id, flagDirty, flagDecommitted);
    FusedShownClear(a.maps, maps, runs, id, id, Free(flagDirty, flagDecommitted), Detached(flagDirty, flagDecommitted));
  }

  /** The first half of arena_run_coalesce. */
  method CoalesceForward(cfg: Config, a: Fields, ghost runs: map<PageId, Run>, id: PageId, pages: nat,
                         flagDirty: bool, flagDecommitted: bool)
    returns (b: Fields, ghost runs': map<PageId, Run>, runPages: nat)
    requires Freeing(cfg, a, runs, id, flagDirty, flagDecommitted) && pages == runs[id].n
    ensures Freeing(cfg, b, runs', id, flagDirty, flagDecommitted) && runPages == runs'[id].n
    ensures NextNotMergeable(runs', id, Free(flagDirty, flagDecommitted))
    ensures Live(runs') == Live(runs) && SameOutside(a, b)
    ensures Moved(Shown(runs, id, Free(flagDirty, flagDecommitted)), Shown(runs', id, Free(flagDirty, flagDecommitted)),
                  {}, Free(flagDirty, flagDecommitted), b.maps.Keys)
    ensures ClearFrom(a.maps, Shown(runs, id, Free(flagDirty, flagDecommitted)), b.maps,
                      Shown(runs', id, Free(flagDirty, flagDecommitted)), {})
  {
    assert Open(0);
    NextTag(cfg, St(a, runs), a.maps, id, flagDirty, flagDecommitted);
    var nextInd := id.ind + pages;
    if nextInd < cfg.npages && !a.maps[id.chunk][nextInd].inUse && a.maps[id.chunk][nextInd].dirty == flagDirty
       && a.maps[id.chunk][nextInd].decommitted == flagDecommitted {
      b, runs', runPages := MergeNext(cfg, a, runs, id, pages, flagDirty, flagDecommitted);
    } else {
      b, runs', runPages := a, runs, pages;
      ShownStill(cfg, a, runs, id, Free(flagDirty, flagDecommitted));
    }
  }

  /** The second half of arena_run_coalesce, when the predecessor can be merged. */
  method MergePrev(cfg: Config, a: Fields, ghost runs: map<PageId, Run>, id: PageId, pages: nat, prunPages: nat,
                   flagDirty: bool, flagDecommitted: bool)
    returns (b: Fields, ghost runs': map<PageId, Run>, runId: PageId, runPages: nat)
    requires Freeing(cfg, a, runs, id, flagDirty, flagDecommitted) && pages == runs[id].n
    requires 1 <= prunPages <= id.ind
    requires Page(id.chunk, id.ind - prunPages) in runs
    requires runs[Page(id.chunk, id.ind - prunPages)] == Run(prunPages, Free(flagDirty, flagDecommitted))
    requires NextNotMergeable(runs, id, Free(flagDirty, flagDecommitted))
    ensures Freeing(cfg, b, runs', runId, flagDirty, flagDecommitted) && runPages == runs'[runId].n
    ensures runId.chunk == id.chunk
    ensures NoMergeableNeighbour(runs', runId, Free(flagDirty, flagDecommitted))
    ensures Live(runs') == Live(runs) && SameOutside(a, b)
    ensures Moved(Shown(runs, id, Free(flagDirty, flagDecommitted)),
                  Shown(runs', runId, Free(flagDirty, flagDecommitted)), {}, Free(flagDirty, flagDecommitted),
                  b.maps.Keys)
    ensures ClearFrom(a.maps, Shown(runs, id, Free(flagDirty, flagDecommitted)), b.maps,
                      Shown(runs', runId, Free(flagDirty, flagDecommitted)), {})
  {
    runId := Page(id.chunk, id.ind - prunPages);
    runPages := pages + prunPages;
    FreeingFits(cfg, a, runs, id, flagDirty, flagDecommitted, id);
    FreeingFits(cfg, a, runs, id, flagDirty, flagDecommitted, runId);
    assert flagDirty ==> a.ndirty >= prunPages;
    var maps := SetFreeSize(a.maps, id.chunk, runId.ind, runPages);
    b := a.(maps := maps, avail := AvailRemove(cfg, a.avail, runId, prunPages), ring := a.ring - {runId},
            ndirty := if flagDirty then a.ndirty - prunPages else a.ndirty);
    runs' := Fuse(runs, runId, Detached(flagDirty, flagDecommitted));
    AbsorbedPrev(cfg, a, runs, runId, b, flagDirty, flagDecommitted);
    FreeingApart(cfg, a, runs, id, flagDirty, flagDecommitted);
    FusedShownClear(a.maps, maps, runs, runId, id, Free(flagDirty, flagDecommitted),
                    Detached(flagDirty, flagDecommitted));
  }

  /** The second half of arena_run_coalesce. */
  method CoalesceBackward(cfg: Config, a: Fields, ghost runs: map<PageId, Run>, id: PageId, pages: nat,
                          flagDirty: bool, flagDecommitted: bool)
    returns (b: Fields, ghost runs': map<PageId, Run>, runId: PageId, runPages: nat)
    requires Freeing(cfg, a, runs, id, flagDirty, flagDecommitted) && pages == runs[id].n
    requires NextNotMergeable(runs, id, Free(flagDirty, flagDecommitted))
    ensures Freeing(cfg, b, runs', runId, flagDirty, flagDecommitted) && runPages == runs'[runId].n
    ensures runId.chunk == id.chunk
    ensures NoMergeableNeighbour(runs', runId, Free(flagDirty, flagDecommitted))
    ensures Live(runs') == Live(runs) && SameOutside(a, b)
    ensures Moved(Shown(runs, id, Free(flagDirty, flagDecommitted)),
                  Shown(runs', runId, Free(flagDirty, flagDecommitted)), {}, Free(flagDirty, flagDecommitted),
                  b.maps.Keys)
    ensures ClearFrom(a.maps, Shown(runs, id, Free(flagDirty, flagDecommitted)), b.maps,
                      Shown(runs', runId, Free(flagDirty, flagDecommitted)), {})
  {
    assert Open(0);
    b, runs', runId, runPages := a, runs, id, pages;
    ShownStill(cfg, a, runs, id, Free(flagDirty, flagDecommitted));
    if id.ind > cfg.bias {
      ghost var prev := PrevTagOf(cfg, St(a, runs), a.maps, id, flagDirty, flagDecommitted);
      var tag := a.maps[id.chunk][id.ind - 1];
      if !tag.inUse && tag.dirty == flagDirty && tag.decommitted == flagDecommitted {
        b, runs', runId, runPages := MergePrev(cfg, a, runs, id, pages, tag.size, flagDirty, flagDecommitted);
      } else {
        OnlyPredecessor(cfg, a.maps.Keys, runs, prev, id, Free(flagDirty, flagDecommitted));
      }
    } else {
      NoPredecessor(cfg, a.maps.Keys, runs, id, Free(flagDirty, flagDecommitted));
    }
  }

  lemma OnlyPredecessor(cfg: Config, chunks: set<nat>, runs: map<PageId, Run>, prev: PageId, id: PageId, free: Kind)
    requires AllApart(runs) && AllFit(cfg, chunks, runs)
    requires prev in runs && id in runs && Next(prev, runs[prev]) == id && runs[prev].kind != free
    ensures PrevNotMergeable(runs, id, free)
  {
    forall p | p in runs && Next(p, runs[p]) == id
      ensures p == prev
    {
      assert Fits(cfg, chunks, p, runs[p]) && Fits(cfg, chunks, prev, runs[prev]);
      assert Apart(p, runs[p], prev) && Apart(prev, runs[prev], p);
    }
  }

  lemma NoPredecessor(cfg: Config, chunks: set<nat>, runs: map<PageId, Run>, id: PageId, free: Kind)
    requires AllFit(cfg, chunks, runs) && id.ind <= cfg.bias
    ensures PrevNotMergeable(runs, id, free)
  {
    forall p | p in runs
      ensures Next(p, runs[p]) != id
    {
      assert Fits(cfg, chunks, p, runs[p]);
    }
  }

  // ---------------------------------------------------------------- chunks

  lemma SpareFacts(cfg: Config, a: Fields, runs: map<PageId, Run>)
    requires Valid(cfg, a, runs) && a.spare.Some?
    ensures var c := a.spare.value;
            && c in a.maps && |a.maps[c]| == cfg.npages && WholeFree(cfg, runs, c)
            && a.maps[c][cfg.bias].dirty == runs[Page(c, cfg.bias)].kind.dirty
            && (runs[Page(c, cfg.bias)].kind.dirty ==> a.ndirty >= MaxRun(cfg))
  {
    assert Open(0);
    var c := a.spare.value;
    FirstTag(cfg, a.maps, runs, Page(c, cfg.bias));
    if runs[Page(c, cfg.bias)].kind.dirty {
      DirtyEnough(cfg, St(a, runs), Page(c, cfg.bias));
    }
  }

  lemma DroppedSpare(cfg: Config, a: Fields, runs: map<PageId, Run>, recorded: bool, b: Fields)
    requires Valid(cfg, a, runs) && a.spare.Some? && WholeFree(cfg, runs, a.spare.value)
    requires b.maps == a.maps - {a.spare.value}
    requires St(b, runs - {Page(a.spare.value, cfg.bias)}) == DropSpare(cfg, St(a, runs), recorded)
    ensures Valid(cfg, b, runs - {Page(a.spare.value, cfg.bias)})
    ensures Live(runs - {Page(a.spare.value, cfg.bias)}) == Live(runs)
    ensures Moved(runs, runs - {Page(a.spare.value, cfg.bias)}, {}, Carved, b.maps.Keys)
    ensures ClearFrom(a.maps, runs, b.maps, runs - {Page(a.spare.value, cfg.bias)}, {})
  {
    DropClear(a.maps, runs, a.spare.value, Page(a.spare.value, cfg.bias));
    assert Open(0);
    var c := a.spare.value;
    assert b.maps.Keys == a.maps.Keys - {c};
    DropMoved(cfg, a.maps.Keys, runs, c, Carved);
    DropSpareInv(cfg, St(a, runs), recorded);
    DropTiled(cfg, a.maps.Keys, runs, c);
    var rest := runs - {Page(c, cfg.bias)};
    forall x | x in rest
      ensures DescribedAt(cfg, b.maps, x, rest[x])
    {
      assert DescribedAt(cfg, a.maps, x, runs[x]);
    }
  }

  ghost function Only(c: Option<nat>): set<nat>
  {
    if c.Some? then {c.value} else {}
  }

  /** The spare, if there was one, is no longer the arena's; it is in the cache if it was recorded there. */
  ghost predicate SpareLeft(a: Fields, b: Fields, recorded: bool)
  {
    && b.maps.Keys == a.maps.Keys - Only(a.spare)
    && b.cache == if recorded then a.cache + Only(a.spare) else a.cache
  }

  /** After pages of chunk `c` were freed: if `c` is one free run now, it is the spare, and the former spare has left
      the arena; otherwise no chunk has come or gone. */
  ghost predicate SpareAfter(cfg: Config, a: Fields, b: Fields, runs': map<PageId, Run>, c: nat, recorded: bool)
    requires cfg.bias <= cfg.npages
  {
    if WholeFree(cfg, runs', c) then b.spare == Some(c) && SpareLeft(a, b, recorded) else SameChunks(a, b)
  }

  /** arena_spare_discard: the spare chunk leaves the arena; `recorded` says whether the chunk cache took it. */
  method SpareDiscard(cfg: Config, a: Fields, ghost runs: map<PageId, Run>, recorded: bool)
    returns (b: Fields, ghost runs': map<PageId, Run>)
    requires Valid(cfg, a, runs) && a.spare.Some?
    ensures WholeFree(cfg, runs, a.spare.value)
    ensures Valid(cfg, b, runs') && St(b, runs') == DropSpare(cfg, St(a, runs), recorded)
    ensures Live(runs') == Live(runs) && b.spare == None && (Settled(runs) ==> Settled(runs'))
    ensures b.nactive == a.nactive && SpareLeft(a, b, recorded)
    ensures Moved(runs, runs', {}, Carved, b.maps.Keys) && ClearFrom(a.maps, runs, b.maps, runs', {})
  {
    var c := a.spare.value;
    SpareFacts(cfg, a, runs);
    var ring, ndirty, cache := a.ring - {Page(c, cfg.bias)}, a.ndirty, a.cache;
    if a.maps[c][cfg.bias].dirty {
      assert a.ndirty >= cfg.npages - cfg.bias;
      ndirty := ndirty - (cfg.npages - cfg.bias);
    }
    if recorded {
      ndirty, cache := ndirty + cfg.npages, cache + {c};
    }
    b := a.(maps := a.maps - {c}, spare := None, ring := ring, ndirty := ndirty, cache := cache);
    runs' := runs - {Page(c, cfg.bias)};
    DroppedSpare(cfg, a, runs, recorded, b);
  }

  /** Another chunk is not touched when the spare is dropped. */
  lemma OtherChunk(cfg: Config, a: Fields, runs: map<PageId, Run>, recorded: bool, b: Fields,
                   runs': map<PageId, Run>, c: nat)
    requires ValidConfig(cfg) && a.spare.Some? && a.spare != Some(c) && WholeFree(cfg, runs, a.spare.value)
    requires St(b, runs') == DropSpare(cfg, St(a, runs), recorded) && c in a.maps && WholeFree(cfg, runs, c)
    ensures c in b.maps && WholeFree(cfg, runs', c)
  {
    assert c in St(b, runs').chunks;
  }

  lemma RetireFields(cfg: Config, a: Fields, runs: map<PageId, Run>, c: nat)
    requires ValidConfig(cfg) && a.spare.None? && WholeFree(cfg, runs, c)
    ensures St(a.(spare := Some(c), avail := AvailRemove(cfg, a.avail, Page(c, cfg.bias), cfg.npages - cfg.bias)), runs)
         == Retire(cfg, St(a, runs), c)
  {
  }

  lemma RetiredChunk(cfg: Config, a: Fields, runs: map<PageId, Run>, c: nat)
    requires Valid(cfg, a, runs) && a.spare.None? && c in a.maps && WholeFree(cfg, runs, c)
    ensures Valid(cfg, a.(spare := Some(c), avail := AvailRemove(cfg, a.avail, Page(c, cfg.bias),
                                                                 cfg.npages - cfg.bias)), runs)
  {
    assert Open(0);
    RetireInv(cfg, St(a, runs), c);
    RetireFields(cfg, a, runs, c);
  }

  /** The old spare, if there is one, is discarded. */
  method ClearSpare(cfg: Config, a: Fields, ghost runs: map<PageId, Run>, c: nat, recorded: bool)
    returns (b: Fields, ghost runs': map<PageId, Run>)
    requires Valid(cfg, a, runs) && c in a.maps && WholeFree(cfg, runs, c) && a.spare != Some(c)
    ensures Valid(cfg, b, runs') && b.spare == None && c in b.maps && WholeFree(cfg, runs', c)
    ensures Live(runs') == Live(runs) && (Settled(runs) ==> Settled(runs'))
    ensures b.nactive == a.nactive && SpareLeft(a, b, recorded)
    ensures Moved(runs, runs', {}, Carved, b.maps.Keys) && ClearFrom(a.maps, runs, b.maps, runs', {})
  {
    b, runs' := a, runs;
    assert Moved(runs, runs, {}, Carved, a.maps.Keys) by {
      assert Open(0);
      StillMoved(cfg, a.maps.Keys, runs, Carved);
    }
    if a.spare.Some? {
      b, runs' := SpareDiscard(cfg, a, runs, recorded);
      OtherChunk(cfg, a, runs, recorded, b, runs', c);
    }
  }

  /** The page map entries at the two ends of a chunk carry the same flags. */
  predicate EndsAgree(cfg: Config, m: seq<MapBits>)
    requires |m| == cfg.npages && cfg.bias < cfg.npages
  {
    && m[cfg.bias].dirty == m[cfg.npages - 1].dirty
    && m[cfg.bias].decommitted == m[cfg.npages - 1].decommitted
  }

  /** What arena_chunk_dalloc asserts about the page map of the chunk. */
  predicate WholeTags(cfg: Config, m: seq<MapBits>)
    requires |m| == cfg.npages && cfg.bias < cfg.npages
  {
    && !m[cfg.bias].inUse && !m[cfg.npages - 1].inUse
    && m[cfg.bias].size == m[cfg.npages - 1].size == cfg.npages - cfg.bias
    && EndsAgree(cfg, m)
  }

  lemma WholeTagged(cfg: Config, a: Fields, runs: map<PageId, Run>, c: nat)
    requires Valid(cfg, a, runs) && c in a.maps && WholeFree(cfg, runs, c)
    requires |a.maps[c]| == cfg.npages && EndsAgree(cfg, a.maps[c])
    ensures WholeTags(cfg, a.maps[c])
  {
    assert Open(0);
    assert DescribedAt(cfg, a.maps, Page(c, cfg.bias), runs[Page(c, cfg.bias)]);
  }

  /** arena_chunk_dalloc: an entirely free chunk becomes the spare, and the old spare is discarded. */
  method ChunkDalloc(cfg: Config, a: Fields, ghost runs: map<PageId, Run>, c: nat, recorded: bool)
    returns (b: Fields, ghost runs': map<PageId, Run>)
    requires Valid(cfg, a, runs) && c in a.maps && WholeFree(cfg, runs, c) && a.spare != Some(c)
    requires |a.maps[c]| == cfg.npages && EndsAgree(cfg, a.maps[c])
    ensures WholeTags(cfg, a.maps[c])
    ensures Valid(cfg, b, runs') && b.spare == Some(c) && WholeFree(cfg, runs', c)
    ensures Live(runs') == Live(runs) && (Settled(runs) ==> Settled(runs'))
    ensures b.nactive == a.nactive && SpareLeft(a, b, recorded)
    ensures Moved(runs, runs', {}, Carved, b.maps.Keys) && ClearFrom(a.maps, runs, b.maps, runs', {})
  {
    WholeTagged(cfg, a, runs, c);
    b, runs' := ClearSpare(cfg, a, runs, c, recorded);
    RetiredChunk(cfg, b, runs', c);
    b := b.(spare := Some(c), avail := AvailRemove(cfg, b.avail, Page(c, cfg.bias), cfg.npages - cfg.bias));
  }

  /** That no page is moved does not depend on the kind. */
  lemma NoneMoved(first: map<PageId, Run>, second: map<PageId, Run>, kind: Kind, like: Kind, chunks: set<nat>)
    requires Moved(first, second, {}, kind, chunks)
    ensures Moved(first, second, {}, like, chunks)
  {
    forall m: Measure
      ensures MovedFor(first, second, {}, like, chunks, m)
    {
      assert MovedFor(first, second, {}, kind, chunks, m);
    }
  }

  // ---------------------------------------------------------------- freeing

  /** What the page map says about a live run. */
  lemma LiveFacts(cfg: Config, a: Fields, runs: map<PageId, Run>, id: PageId)
    requires Valid(cfg, a, runs) && id in runs && IsLive(runs[id])
    ensures id.chunk in a.maps && |a.maps[id.chunk]| == cfg.npages
    ensures cfg.bias <= id.ind && 1 <= runs[id].n && id.ind + runs[id].n <= cfg.npages
    ensures a.spare != Some(id.chunk)
    ensures a.maps[id.chunk][id.ind].large <==> runs[id].kind.Large?
    ensures runs[id].kind.Large? ==> a.maps[id.chunk][id.ind].size == runs[id].n
    ensures runs[id].kind.Large? ==> a.maps[id.chunk][id.ind].dirty == runs[id].kind.dirty
    ensures runs[id].kind.Large? ==> a.maps[id.chunk][id.ind].decommitted == runs[id].kind.decommitted
    ensures runs[id].kind.Small? ==> !a.maps[id.chunk][id.ind].dirty && !a.maps[id.chunk][id.ind].decommitted
    ensures a.maps[id.chunk][id.ind + runs[id].n - 1].dirty == a.maps[id.chunk][id.ind].dirty
  {
    assert Open(0);
    assert Fits(cfg, a.maps.Keys, id, runs[id]) && DescribedAt(cfg, a.maps, id, runs[id]);
    CutAllocatedSpare(cfg, a.maps.Keys, runs, a.spare, id, runs[id].n, Carved, Carved);
    if runs[id].kind.Small? {
      var q := id.ind + runs[id].n - 1;
      assert SmallTag(a.maps[id.chunk][id.ind], 0, runs[id].kind.binind);
      assert SmallTag(a.maps[id.chunk][q], q - id.ind, runs[id].kind.binind);
    }
  }

  lemma SettledUpdate(runs: map<PageId, Run>, id: PageId, r: Run)
    requires SettledExcept(runs, Some(id))
    ensures SettledExcept(runs[id := r], Some(id))
    ensures SettledKind(r.kind) ==> Settled(runs[id := r])
  {
  }

  lemma DetachedRun(cfg: Config, a: Fields, runs: map<PageId, Run>, id: PageId, maps: View, dirty: bool,
                    decommitted: bool)
    requires Valid(cfg, a, runs) && Settled(runs) && id in runs && IsLive(runs[id]) && !(dirty && decommitted)
    requires WrittenWithin(a.maps, maps, id.chunk, id.ind, id.ind + runs[id].n)
    requires DescribedAt(cfg, maps, id, Run(runs[id].n, Detached(dirty, decommitted)))
    ensures Freeing(cfg, a.(maps := maps, nactive := a.nactive - runs[id].n),
                    runs[id := Run(runs[id].n, Detached(dirty, decommitted))], id, dirty, decommitted)
    ensures Live(runs[id := Run(runs[id].n, Detached(dirty, decommitted))]) == Live(runs) - {id}
  {
    assert Open(0);
    var kind := Detached(dirty, decommitted);
    LiveFacts(cfg, a, runs, id);
    DetachInv(cfg, St(a, runs), id, dirty, decommitted);
    assert St(a.(maps := maps, nactive := a.nactive - runs[id].n), runs[id := Run(runs[id].n, kind)])
        == Detach(St(a, runs), id, dirty, decommitted);
    SettledUpdate(runs, id, Run(runs[id].n, kind));
    DescribedRekind(cfg, a.maps, maps, runs, id, kind);
  }

  lemma DescribedFree(cfg: Config, maps: View, runs: map<PageId, Run>, id: PageId)
    requires Described(cfg, maps, runs) && AllApart(runs) && id in runs && runs[id].kind.Detached?
    ensures Described(cfg, maps, runs[id := Run(runs[id].n, Free(runs[id].kind.dirty, runs[id].kind.decommitted))])
  {
    assert DescribedAt(cfg, maps, id, runs[id]);
    DescribedRekind(cfg, maps, maps, runs, id, Free(runs[id].kind.dirty, runs[id].kind.decommitted));
  }

  lemma AttachFields(cfg: Config, a: Fields, runs: map<PageId, Run>, id: PageId, b: Fields)
    requires cfg.pad <= 1 && id in runs && runs[id].kind.Detached? && 1 <= runs[id].n
    requires b == a.(avail := AvailInsert(cfg, a.avail, id, runs[id].n),
                     ring := if runs[id].kind.dirty then a.ring + {id} else a.ring,
                     ndirty := if runs[id].kind.dirty then a.ndirty + runs[id].n else a.ndirty)
    ensures St(b, runs[id := Run(runs[id].n, Free(runs[id].kind.dirty, runs[id].kind.decommitted))])
         == Attach(cfg, St(a, runs), id)
  {
  }

  lemma AttachedRun(cfg: Config, a: Fields, runs: map<PageId, Run>, id: PageId, dirty: bool, decommitted: bool,
                    b: Fields)
    requires Freeing(cfg, a, runs, id, dirty, decommitted) && 1 <= runs[id].n
    requires NoMergeableNeighbour(runs, id, Free(dirty, decommitted))
    requires b == a.(avail := AvailInsert(cfg, a.avail, id, runs[id].n),
                     ring := if dirty then a.ring + {id} else a.ring,
                     ndirty := if dirty then a.ndirty + runs[id].n else a.ndirty)
    ensures Valid(cfg, b, runs[id := Run(runs[id].n, Free(dirty, decommitted))])
    ensures Settled(runs[id := Run(runs[id].n, Free(dirty, decommitted))])
    ensures Live(runs[id := Run(runs[id].n, Free(dirty, decommitted))]) == Live(runs)
  {
    assert Open(0);
    var kind := Free(dirty, decommitted);
    AttachInv(cfg, St(a, runs), id);
    AttachFields(cfg, a, runs, id, b);
    SettledUpdate(runs, id, Run(runs[id].n, kind));
    DescribedFree(cfg, a.maps, runs, id);
  }

  lemma FreeingEnds(cfg: Config, a: Fields, runs: map<PageId, Run>, id: PageId, dirty: bool, decommitted: bool)
    requires Freeing(cfg, a, runs, id, dirty, decommitted)
    ensures id.chunk in a.maps && |a.maps[id.chunk]| == cfg.npages
    ensures runs[id].n == MaxRun(cfg) && id.ind == cfg.bias ==> EndsAgree(cfg, a.maps[id.chunk])
  {
    assert Open(0);
    assert DescribedAt(cfg, a.maps, id, runs[id]);
  }

  /** The part of arena_run_dalloc that puts the coalesced run back, and retires a chunk left entirely free. */
  method RunReinsert(cfg: Config, a: Fields, ghost runs: map<PageId, Run>, id: PageId, pages: nat,
                     dirty: bool, decommitted: bool, recorded: bool)
    returns (b: Fields, ghost runs': map<PageId, Run>)
    requires Freeing(cfg, a, runs, id, dirty, decommitted) && pages == runs[id].n
    requires NoMergeableNeighbour(runs, id, Free(dirty, decommitted))
    ensures Valid(cfg, b, runs') && Settled(runs')
    ensures Live(runs') == Live(runs) && b.nactive == a.nactive
    ensures Moved(Shown(runs, id, Free(dirty, decommitted)), runs', {}, Free(dirty, decommitted), b.maps.Keys)
    ensures SpareAfter(cfg, a, b, runs', id.chunk, recorded)
    ensures ClearFrom(a.maps, Shown(runs, id, Free(dirty, decommitted)), b.maps, runs', {})
  {
    FreeingFits(cfg, a, runs, id, dirty, decommitted, id);
    FreeingEnds(cfg, a, runs, id, dirty, decommitted);
    b := a.(avail := AvailInsert(cfg, a.avail, id, pages),
            ring := if dirty then a.ring + {id} else a.ring,
            ndirty := if dirty then a.ndirty + pages else a.ndirty);
    runs' := runs[id := Run(pages, Free(dirty, decommitted))];
    AttachedRun(cfg, a, runs, id, dirty, decommitted, b);
    WholeOrPart(cfg, b, runs', id);
    ShownStill(cfg, b, runs', id, Free(dirty, decommitted));
    assert Shown(runs', id, Free(dirty, decommitted)) == runs';
    if pages == cfg.npages - cfg.bias {
      assert id.ind == cfg.bias;
      b, runs' := ChunkDalloc(cfg, b, runs', id.chunk, recorded);
      NoneMoved(Shown(runs, id, Free(dirty, decommitted)), runs', Carved, Free(dirty, decommitted), b.maps.Keys);
    }
  }

  /** A chunk is one free run if a free run in it is as long. */
  lemma WholeOrPart(cfg: Config, a: Fields, runs: map<PageId, Run>, id: PageId)
    requires Valid(cfg, a, runs) && id in runs && runs[id].kind.Free?
    ensures WholeFree(cfg, runs, id.chunk) <==> runs[id].n == MaxRun(cfg)
  {
    assert Open(0);
    assert Fits(cfg, a.maps.Keys, id, runs[id]);
    if WholeFree(cfg, runs, id.chunk) {
      assert Apart(Page(id.chunk, cfg.bias), runs[Page(id.chunk, cfg.bias)], id);
    }
  }

  /** A freed run is dirty if its owner wrote to it, or if it was dirty before and is neither cleaned nor
      decommitted. */
  ghost predicate FreedDirty(r: Run, dirtied: bool, cleaned: bool, decommitted: bool)
  {
    dirtied || (r.kind.Large? && r.kind.dirty && !cleaned && !decommitted)
  }

  /** The caller vouches for the contents: the run is to be clean, though it was not, or decommitted, though it was not
      marked so. */
  ghost predicate Vouched(r: Run, dirtied: bool, cleaned: bool, decommitted: bool)
  {
    && !FreedDirty(r, dirtied, cleaned, decommitted)
    && !(r.kind.Large? && !r.kind.dirty && (decommitted ==> r.kind.decommitted))
  }

  ghost function VouchedPages(runs: map<PageId, Run>, id: PageId, dirtied: bool, cleaned: bool, decommitted: bool)
    : set<PageId>
    requires id in runs
  {
    if Vouched(runs[id], dirtied, cleaned, decommitted) then Interval(id, runs[id].n) else {}
  }

  lemma BegunClear(cfg: Config, a: Fields, runs: map<PageId, Run>, id: PageId, maps: View, dirtied: bool, cleaned: bool,
                   decommitted: bool)
    requires Valid(cfg, a, runs) && id in runs && IsLive(runs[id])
    requires WrittenWithin(a.maps, maps, id.chunk, id.ind, id.ind + runs[id].n)
    requires !FreedDirty(runs[id], dirtied, cleaned, decommitted) && !decommitted ==>
               MarksKept(a.maps, maps, id.chunk, id.ind, id.ind + runs[id].n)
    ensures var dirty := FreedDirty(runs[id], dirtied, cleaned, decommitted);
            ClearFrom(a.maps, runs, maps,
                      Shown(Shown(runs, id, Detached(dirty, decommitted)), id, Free(dirty, decommitted)),
                      VouchedPages(runs, id, dirtied, cleaned, decommitted))
  {
    assert AllApart(runs) by { assert Open(0); }
    var dirty := FreedDirty(runs[id], dirtied, cleaned, decommitted);
    RekindClear(a.maps, maps, runs, id, Free(dirty, decommitted),
                VouchedPages(runs, id, dirtied, cleaned, decommitted));
    assert Shown(Shown(runs, id, Detached(dirty, decommitted)), id, Free(dirty, decommitted))
        == Shown(runs, id, Free(dirty, decommitted));
  }

  /** The first part of arena_run_dalloc: the run is taken off the active pages and marked unallocated. */
  method BeginDalloc(cfg: Config, a: Fields, ghost runs: map<PageId, Run>, id: PageId, smallPages: nat,
                     dirtied: bool, cleaned: bool, decommitted: bool)
    returns (b: Fields, ghost runs': map<PageId, Run>, pages: nat, dirty: bool)
    requires Valid(cfg, a, runs) && Settled(runs) && id in runs && IsLive(runs[id])
    requires runs[id].kind.Small? ==> smallPages == runs[id].n
    requires !(dirtied && decommitted)
    ensures Freeing(cfg, b, runs', id, dirty, decommitted) && pages == runs[id].n == runs'[id].n
    ensures Live(runs') == Live(runs) - {id}
    ensures b.nactive == a.nactive - runs[id].n && SameChunks(a, b)
    ensures dirty == FreedDirty(runs[id], dirtied, cleaned, decommitted)
    ensures runs' == Shown(runs, id, Detached(dirty, decommitted))
    ensures ClearFrom(a.maps, runs, b.maps, Shown(runs', id, Free(dirty, decommitted)),
                      VouchedPages(runs, id, dirtied, cleaned, decommitted))
  {
    LiveFacts(cfg, a, runs, id);
    var first := a.maps[id.chunk][id.ind];
    pages := if first.large then first.size else smallPages;
    assert first.dirty == a.maps[id.chunk][id.ind + pages - 1].dirty;
    dirty := dirtied || (!cleaned && !decommitted && first.dirty);
    var maps := SetFreeEnds(cfg, a.maps, id.chunk, id.ind, pages, dirty, decommitted, !dirty && !decommitted);
    DetachedRun(cfg, a, runs, id, maps, dirty, decommitted);
    b := a.(maps := maps, nactive := a.nactive - pages);
    runs' := Shown(runs, id, Detached(dirty, decommitted));
    BegunClear(cfg, a, runs, id, maps, dirtied, cleaned, decommitted);
  }

  /** arena_run_dalloc.  `smallPages` is the run size of the bin, for a small run. */
  method RunDalloc(cfg: Config, a: Fields, ghost runs: map<PageId, Run>, id: PageId, smallPages: nat,
                   dirtied: bool, cleaned: bool, decommitted: bool, recorded: bool)
    returns (b: Fields, ghost runs': map<PageId, Run>)
    requires Valid(cfg, a, runs) && Settled(runs) && id in runs && IsLive(runs[id])
    requires runs[id].kind.Small? ==> smallPages == runs[id].n
    requires !(dirtied && decommitted)
    ensures Valid(cfg, b, runs') && Settled(runs')
    ensures Live(runs') == Live(runs) - {id}
    ensures b.nactive == a.nactive - runs[id].n
    ensures Freed(cfg, a, runs, b, runs', id, FreedDirty(runs[id], dirtied, cleaned, decommitted), decommitted,
                  recorded)
    ensures forall x :: x in Interval(id, runs[id].n) ==>
              LiesIn(b, runs', x, Free(FreedDirty(runs[id], dirtied, cleaned, decommitted), decommitted))
    ensures ClearFrom(a.maps, runs, b.maps, runs', VouchedPages(runs, id, dirtied, cleaned, decommitted))
  {
    var pages, dirty;
    b, runs', pages, dirty := BeginDalloc(cfg, a, runs, id, smallPages, dirtied, cleaned, decommitted);
    var runId := id;
    ghost var free, extra := Free(dirty, decommitted), VouchedPages(runs, id, dirtied, cleaned, decommitted);
    ghost var maps1, runs1 := b.maps, runs';
    b, runs', pages := CoalesceForward(cfg, b, runs', id, pages, dirty, decommitted);
    ghost var maps2, runs2 := b.maps, runs';
    b, runs', runId, pages := CoalesceBackward(cfg, b, runs', id, pages, dirty, decommitted);
    ghost var maps3, runs3 := b.maps, runs';
    ClearOnce(maps1, Shown(runs1, id, free), maps2, Shown(runs2, id, free), maps3, Shown(runs3, runId, free));
    b, runs' := RunReinsert(cfg, b, runs', runId, pages, dirty, decommitted, recorded);
    ClearOnce(maps1, Shown(runs1, id, free), maps3, Shown(runs3, runId, free), b.maps, runs');
    ClearTwice(a.maps, runs, maps1, Shown(runs1, id, free), b.maps, runs', extra, {});
    assert extra + {} == extra;
    FreedPages(cfg, a, runs, id, runs1, runs2, runs3, runId, runs', Free(dirty, decommitted), b.maps.Keys);
    FreedCounts(cfg, a, runs, b, runs', id, dirty, decommitted, recorded);
    FreedLieIn(cfg, a, runs, b, runs', id, dirty, decommitted, recorded);
  }

  lemma FreedLieIn(cfg: Config, a: Fields, runs: map<PageId, Run>, b: Fields, runs': map<PageId, Run>, id: PageId,
                   dirty: bool, decommitted: bool, recorded: bool)
    requires Valid(cfg, a, runs) && id in runs && IsLive(runs[id]) && Valid(cfg, b, runs') && Settled(runs')
    requires Freed(cfg, a, runs, b, runs', id, dirty, decommitted, recorded)
    ensures forall x :: x in Interval(id, runs[id].n) ==> LiesIn(b, runs', x, Free(dirty, decommitted))
  {
    LiveFacts(cfg, a, runs, id);
    forall x | x in Interval(id, runs[id].n)
      ensures LiesIn(b, runs', x, Free(dirty, decommitted))
    {
      FreedLies(cfg, runs, b, runs', id, dirty, decommitted, x);
    }
  }

  /** What freeing the run `id` does to the pages, the chunks and the number of dirty pages. */
  ghost predicate Freed(cfg: Config, a: Fields, runs: map<PageId, Run>, b: Fields, runs': map<PageId, Run>, id: PageId,
                        dirty: bool, decommitted: bool, recorded: bool)
    requires cfg.bias <= cfg.npages && id in runs
  {
    && Moved(runs, runs', Interval(id, runs[id].n), Free(dirty, decommitted), b.maps.Keys)
    && SpareAfter(cfg, a, b, runs', id.chunk, recorded)
    && b.ndirty == a.ndirty + (if dirty then runs[id].n else 0) + SpareShare(cfg, a, runs, b, recorded)
  }

  /** The page lies in a run of this kind, which is in the dirty ring exactly if it is dirty. */
  ghost predicate LiesIn(b: Fields, runs: map<PageId, Run>, x: PageId, kind: Kind)
    requires kind.Free?
  {
    exists y :: y in runs && x in Interval(y, runs[y].n) && runs[y].kind == kind && (y in b.ring <==> kind.dirty)
  }

  /** Every page of the freed run lies in a free run with its flags. */
  lemma FreedLies(cfg: Config, runs: map<PageId, Run>, b: Fields, runs': map<PageId, Run>, id: PageId, dirty: bool,
                  decommitted: bool, x: PageId)
    requires Valid(cfg, b, runs') && Settled(runs') && id in runs && id.chunk in b.maps
    requires Moved(runs, runs', Interval(id, runs[id].n), Free(dirty, decommitted), b.maps.Keys)
    requires x in Interval(id, runs[id].n)
    ensures LiesIn(b, runs', x, Free(dirty, decommitted))
  {
    assert AllApart(runs') && RingExact(runs', b.ring) by { assert Open(0); }
    MovedCounts(runs, runs', Interval(id, runs[id].n), Free(dirty, decommitted), b.maps.Keys, x, Idle);
    MovedCounts(runs, runs', Interval(id, runs[id].n), Free(dirty, decommitted), b.maps.Keys, x, Dirty);
    MovedCounts(runs, runs', Interval(id, runs[id].n), Free(dirty, decommitted), b.maps.Keys, x, Decommitted);
    var y :| y in runs' && Counts(runs'[y], Idle) && x in Interval(y, runs'[y].n);
    OnlyRun(runs', x, y, Dirty);
    OnlyRun(runs', x, y, Decommitted);
    assert runs'[y].kind == Free(dirty, decommitted);
  }

  /** What the former spare contributes to the change of the number of dirty pages, if it has left: its pages, if they
      were dirty, are no longer counted, and those of the whole chunk are, if it is in the cache. */
  ghost function SpareShare(cfg: Config, a: Fields, runs: map<PageId, Run>, b: Fields, recorded: bool): int
    requires cfg.bias <= cfg.npages
  {
    if a.spare.None? || a.spare.value in b.maps then 0
    else
      var id := Page(a.spare.value, cfg.bias);
      (if recorded then cfg.npages else 0) - if id in runs then Weight(runs[id], Dirty) else 0
  }

  lemma FreedPages(cfg: Config, a: Fields, runs: map<PageId, Run>, id: PageId, runs1: map<PageId, Run>,
                   runs2: map<PageId, Run>, runs3: map<PageId, Run>, last: PageId, runs4: map<PageId, Run>, free: Kind,
                   chunks: set<nat>)
    requires Valid(cfg, a, runs) && id in runs && id in runs1 && id in runs2 && last in runs3
    requires runs1.Keys == runs.Keys && Shown(runs1, id, free) == Shown(runs, id, free)
    requires Moved(Shown(runs1, id, free), Shown(runs2, id, free), {}, free, a.maps.Keys)
    requires Moved(Shown(runs2, id, free), Shown(runs3, last, free), {}, free, a.maps.Keys)
    requires Moved(Shown(runs3, last, free), runs4, {}, free, chunks) && chunks <= a.maps.Keys
    ensures Moved(runs, runs4, Interval(id, runs[id].n), free, chunks)
  {
    assert Open(0);
    var keys, all := a.maps.Keys, Interval(id, runs[id].n);
    RekindMoved(cfg, keys, runs, id, free);
    MovedTwice(runs, Shown(runs1, id, free), Shown(runs2, id, free), all, {}, free, keys, keys);
    assert all + {} == all;
    MovedTwice(runs, Shown(runs2, id, free), Shown(runs3, last, free), all, {}, free, keys, keys);
    MovedTwice(runs, Shown(runs3, last, free), runs4, all, {}, free, keys, chunks);
  }

  /** The dirty pages outside the spare. */
  lemma SpareGone(cfg: Config, chunks: set<nat>, runs: map<PageId, Run>, c: nat)
    requires ValidConfig(cfg) && Tiled(cfg, chunks, runs) && c in chunks && WholeFree(cfg, runs, c)
    ensures |Within(chunks - {c}, Covered(runs, Dirty))| == Pages(runs, Dirty) - Weight(runs[Page(c, cfg.bias)], Dirty)
  {
    var id := Page(c, cfg.bias);
    DropMoved(cfg, chunks, runs, c, Carved);
    assert MovedFor(runs, runs - {id}, {}, Carved, chunks - {c}, Dirty);
    assert Covered(runs, Dirty) - {} + {} == Covered(runs, Dirty);
    PagesRemove(runs, id, Dirty);
  }

  lemma CacheOneMore(cfg: Config, cache: set<nat>, c: nat)
    requires c !in cache
    ensures CachePages(cfg, cache + {c}) == CachePages(cfg, cache) + cfg.npages
  {
    CachePagesSum(cfg, cache, {c});
    assert CachePages(cfg, {c}) == cfg.npages;
  }

  /** The dirty pages that remain when the former spare has left. */
  lemma SpareCounts(cfg: Config, a: Fields, runs: map<PageId, Run>, b: Fields, runs': map<PageId, Run>, c: nat,
                    recorded: bool)
    requires Valid(cfg, a, runs) && c in a.maps && SpareAfter(cfg, a, b, runs', c, recorded) && a.spare != Some(c)
    ensures c in b.maps
    ensures |Within(b.maps.Keys, Covered(runs, Dirty))| + CachePages(cfg, b.cache)
         == Pages(runs, Dirty) + CachePages(cfg, a.cache) + SpareShare(cfg, a, runs, b, recorded)
  {
    assert Open(0);
    if a.spare.Some? && a.spare.value !in b.maps {
      SpareGone(cfg, a.maps.Keys, runs, a.spare.value);
      CacheOneMore(cfg, a.cache, a.spare.value);
    } else {
      assert b.maps.Keys == a.maps.Keys;
      CoveredFits(cfg, a.maps.Keys, runs, Dirty);
    }
  }

  lemma MovedSize(chunks: set<nat>, pages: set<PageId>, moved: set<PageId>, more: set<PageId>)
    requires pages !! moved && more <= moved && forall x :: x in moved ==> x.chunk in chunks
    ensures |Within(chunks, (pages - moved) + more)| == |Within(chunks, pages)| + |more|
  {
    var left := Within(chunks, pages);
    assert Within(chunks, (pages - moved) + more) == left + more && left !! more;
  }

  /** The dirty pages after a move. */
  lemma MovedDirty(runs: map<PageId, Run>, runs': map<PageId, Run>, id: PageId, kind: Kind, chunks: set<nat>)
    requires AllApart(runs) && id in runs && !Counts(runs[id], Dirty) && id.chunk in chunks
    requires Moved(runs, runs', Interval(id, runs[id].n), kind, chunks)
    ensures Pages(runs', Dirty) == |Within(chunks, Covered(runs, Dirty))| + Weight(Run(runs[id].n, kind), Dirty)
  {
    var pages := Interval(id, runs[id].n);
    assert MovedFor(runs, runs', pages, kind, chunks, Dirty);
    IntervalSize(id, runs[id].n);
    assert Covered(runs, Dirty) !! pages by {
      CoveredRemove(runs, id, Dirty);
      CoveredDisjoint(runs, id, Dirty);
    }
    MovedSize(chunks, Covered(runs, Dirty), pages, if Counts(Run(1, kind), Dirty) then pages else {});
  }

  lemma FreedCounts(cfg: Config, a: Fields, runs: map<PageId, Run>, b: Fields, runs': map<PageId, Run>, id: PageId,
                    dirty: bool, decommitted: bool, recorded: bool)
    requires Valid(cfg, a, runs) && Valid(cfg, b, runs') && id in runs && IsLive(runs[id])
    requires Moved(runs, runs', Interval(id, runs[id].n), Free(dirty, decommitted), b.maps.Keys)
    requires SpareAfter(cfg, a, b, runs', id.chunk, recorded)
    ensures b.ndirty == a.ndirty + (if dirty then runs[id].n else 0) + SpareShare(cfg, a, runs, b, recorded)
  {
    assert Open(0);
    LiveFacts(cfg, a, runs, id);
    SpareCounts(cfg, a, runs, b, runs', id.chunk, recorded);
    MovedDirty(runs, runs', id, Free(dirty, decommitted), b.maps.Keys);
  }
}
