/** Purging dirty pages (arena_purge_to_limit): dirty runs and cached extents are stashed in the order of the dirty
    ring, purged while arena->lock is dropped, and given back.

    arena->ndirty already falls when an element is stashed, and the tests of arena_stash_dirty subtract what is stashed
    once more, in size_t.  The lemmas at the end say exactly when the documented limits are met all the same.
 */
module ArenaPurge {
  import opened Basics
  import opened ArenaState
  import opened ArenaPages
  import opened ArenaZero
  import opened PageMap
  import opened ArenaRuns
  import opened ArenaAlloc

  const SIZE_T := 0x1_0000_0000_0000_0000

  /** Subtraction of size_t values. */
  function Sub(x: int, y: int): (r: nat)
    ensures 0 <= x - y < SIZE_T ==> r == x - y
    ensures -SIZE_T <= x - y < 0 ==> r == x - y + SIZE_T
  {
    (x - y) % SIZE_T
  }

  // ---------------------------------------------------------------- the dirty ring

  /** An element of runs_dirty: a free dirty run, or a cached extent of whole chunks. */
  datatype Dirty = DirtyRun(id: PageId) | Extent(chunks: set<nat>)

  function Size(cfg: Config, runs: map<PageId, Run>, e: Dirty): nat
  {
    match e
    case DirtyRun(id) => if id in runs then runs[id].n else 0
    case Extent(chunks) => CachePages(cfg, chunks)
  }

  function Sizes(cfg: Config, runs: map<PageId, Run>, elems: seq<Dirty>): (sizes: seq<nat>)
    ensures |sizes| == |elems| && forall i :: 0 <= i < |elems| ==> sizes[i] == Size(cfg, runs, elems[i])
  {
    if elems == [] then [] else [Size(cfg, runs, elems[0])] + Sizes(cfg, runs, elems[1..])
  }

  /** The pages of the first `k` elements. */
  function Prefix(sizes: seq<nat>, k: nat): nat
    requires k <= |sizes|
  {
    if k == 0 then 0 else Prefix(sizes, k - 1) + sizes[k - 1]
  }

  function Sum(sizes: seq<nat>): nat
  {
    Prefix(sizes, |sizes|)
  }

  ghost predicate Different(d: Dirty, e: Dirty)
  {
    && (d.DirtyRun? && e.DirtyRun? ==> d.id != e.id)
    && (d.Extent? && e.Extent? ==> d.chunks !! e.chunks)
  }

  /** The elements are in the ring, each once. */
  ghost predicate Queued(ring: set<PageId>, cache: set<nat>, elems: seq<Dirty>)
  {
    && (forall i :: 0 <= i < |elems| ==>
          if elems[i].DirtyRun? then elems[i].id in ring else elems[i].chunks <= cache && elems[i].chunks != {})
    && (forall i, j :: 0 <= i < j < |elems| ==> Different(elems[i], elems[j]))
  }

  ghost predicate InExtent(elems: seq<Dirty>, c: nat)
  {
    exists i :: 0 <= i < |elems| && elems[i].Extent? && c in elems[i].chunks
  }

  /** They are all of the ring. */
  ghost predicate Complete(ring: set<PageId>, cache: set<nat>, elems: seq<Dirty>)
  {
    && Queued(ring, cache, elems)
    && (forall id :: id in ring ==> DirtyRun(id) in elems)
    && (forall c :: c in cache ==> InExtent(elems, c))
  }

  lemma InTail(elems: seq<Dirty>, c: nat)
    requires elems != [] && InExtent(elems, c) && (elems[0].Extent? ==> c !in elems[0].chunks)
    ensures InExtent(elems[1..], c)
  {
    var i :| 0 <= i < |elems| && elems[i].Extent? && c in elems[i].chunks;
    assert elems[1..][i - 1] == elems[i];
  }

  lemma RunTail(ring: set<PageId>, cache: set<nat>, elems: seq<Dirty>)
    requires Complete(ring, cache, elems) && elems != [] && elems[0].DirtyRun?
    ensures Complete(ring - {elems[0].id}, cache, elems[1..])
  {
    var rest := elems[1..];
    assert forall i :: 0 <= i < |rest| ==> rest[i] == elems[i + 1];
    assert forall i :: 0 < i < |elems| ==> Different(elems[0], elems[i]);
    forall c | c in cache ensures InExtent(rest, c) { InTail(elems, c); }
  }

  lemma ExtentTail(ring: set<PageId>, cache: set<nat>, elems: seq<Dirty>)
    requires Complete(ring, cache, elems) && elems != [] && elems[0].Extent?
    ensures Complete(ring, cache - elems[0].chunks, elems[1..])
  {
    var rest := elems[1..];
    assert forall i :: 0 <= i < |rest| ==> rest[i] == elems[i + 1];
    assert forall i :: 0 < i < |elems| ==> Different(elems[0], elems[i]);
    forall c | c in cache - elems[0].chunks ensures InExtent(rest, c) { InTail(elems, c); }
  }

  lemma {:induction false} PrefixFront(sizes: seq<nat>, k: nat)
    requires 0 < k <= |sizes|
    ensures Prefix(sizes, k) == sizes[0] + Prefix(sizes[1..], k - 1)
  {
    if k > 1 {
      PrefixFront(sizes, k - 1);
    }
  }

  lemma SumFront(sizes: seq<nat>)
    requires sizes != []
    ensures Sum(sizes) == sizes[0] + Sum(sizes[1..])
  {
    PrefixFront(sizes, |sizes|);
  }

  lemma SizesTail(cfg: Config, runs: map<PageId, Run>, runs': map<PageId, Run>, elems: seq<Dirty>)
    requires elems != []
    requires forall i :: 0 < i < |elems| ==> Size(cfg, runs', elems[i]) == Size(cfg, runs, elems[i])
    ensures Sizes(cfg, runs, elems)[1..] == Sizes(cfg, runs', elems[1..])
  {
  }

  lemma RunFirst(cfg: Config, runs: map<PageId, Run>, ring: set<PageId>, elems: seq<Dirty>)
    requires AllApart(runs) && RingExact(runs, ring) && elems != [] && elems[0].DirtyRun? && elems[0].id in ring
    requires forall i :: 0 < i < |elems| ==> Different(elems[0], elems[i])
    ensures RingExact(runs - {elems[0].id}, ring - {elems[0].id}) && AllApart(runs - {elems[0].id})
    ensures Pages(runs, Measure.Dirty) == Size(cfg, runs, elems[0]) + Pages(runs - {elems[0].id}, Measure.Dirty)
    ensures Sizes(cfg, runs, elems)[1..] == Sizes(cfg, runs - {elems[0].id}, elems[1..])
  {
    var id := elems[0].id;
    PagesRemove(runs, id, Measure.Dirty);
    SizesTail(cfg, runs, runs - {id}, elems);
  }

  /** The elements of the ring are all the dirty pages. */
  lemma {:induction false} DirtyPagesListed(cfg: Config, runs: map<PageId, Run>, ring: set<PageId>, cache: set<nat>,
                                            elems: seq<Dirty>)
    requires AllApart(runs) && RingExact(runs, ring) && Complete(ring, cache, elems)
    ensures Pages(runs, Measure.Dirty) + CachePages(cfg, cache) == Sum(Sizes(cfg, runs, elems))
    decreases |elems|
  {
    if elems == [] {
      assert ring == {} && cache == {};
      assert Covered(runs, Measure.Dirty) == {};
    } else {
      SumFront(Sizes(cfg, runs, elems));
      assert forall i :: 0 < i < |elems| ==> Different(elems[0], elems[i]);
      if elems[0].DirtyRun? {
        RunTail(ring, cache, elems);
        RunFirst(cfg, runs, ring, elems);
        DirtyPagesListed(cfg, runs - {elems[0].id}, ring - {elems[0].id}, cache, elems[1..]);
      } else {
        ExtentTail(ring, cache, elems);
        assert cache == (cache - elems[0].chunks) + elems[0].chunks;
        CachePagesSum(cfg, cache - elems[0].chunks, elems[0].chunks);
        SizesTail(cfg, runs, runs, elems);
        DirtyPagesListed(cfg, runs, ring, cache - elems[0].chunks, elems[1..]);
      }
    }
  }

  lemma DirtyTotal(cfg: Config, a: Fields, runs: map<PageId, Run>, elems: seq<Dirty>)
    requires Consistent(cfg, a, runs) && Complete(a.ring, a.cache, elems)
    ensures a.ndirty == Sum(Sizes(cfg, runs, elems))
  {
    assert Open(0);
    DirtyPagesListed(cfg, runs, a.ring, a.cache, elems);
  }

  // ---------------------------------------------------------------- stashing

  /** opt_purge. */
  datatype Mode = Ratio | Decay

  /** What the loop compares with the limit before it stashes element `k`, in decay mode. */
  function DecayLeft(ndirty: int, sizes: seq<nat>, k: nat): nat
    requires k < |sizes|
  {
    Sub(ndirty - Prefix(sizes, k), Prefix(sizes, k) + sizes[k])
  }

  /** What it compares with the limit after it stashed `k` elements, in ratio mode. */
  function RatioLeft(ndirty: int, sizes: seq<nat>, k: nat): nat
    requires k <= |sizes|
  {
    Sub(ndirty - Prefix(sizes, k), Prefix(sizes, k))
  }

  /** The loop goes on to element `k`. */
  ghost predicate GoesTo(mode: Mode, ndirty: int, sizes: seq<nat>, limit: nat, k: nat)
    requires k <= |sizes|
  {
    match mode
    case Decay => forall j :: 0 <= j < k ==> limit <= DecayLeft(ndirty, sizes, j)
    case Ratio => forall j :: 1 <= j < k ==> limit < RatioLeft(ndirty, sizes, j)
  }

  /** Where the loop of arena_stash_dirty stops: after `k` elements. */
  ghost predicate StopsAt(mode: Mode, ndirty: int, sizes: seq<nat>, limit: nat, k: nat)
  {
    && k <= |sizes| && GoesTo(mode, ndirty, sizes, limit, k)
    && (k < |sizes| ==>
          match mode
          case Decay => DecayLeft(ndirty, sizes, k) < limit
          case Ratio => 1 <= k && RatioLeft(ndirty, sizes, k) <= limit)
  }

  lemma GoesOn(mode: Mode, ndirty: int, sizes: seq<nat>, limit: nat, k: nat)
    requires k < |sizes| && GoesTo(mode, ndirty, sizes, limit, k)
    requires mode.Decay? ==> limit <= DecayLeft(ndirty, sizes, k)
    requires mode.Ratio? && 1 <= k ==> limit < RatioLeft(ndirty, sizes, k)
    ensures GoesTo(mode, ndirty, sizes, limit, k + 1)
  {
  }

  ghost predicate InRing(a: Fields, e: Dirty)
  {
    if e.DirtyRun? then e.id in a.ring else e.chunks <= a.cache
  }

  /** How a run looks while it is stashed. */
  function Stashed(n: nat): Run
  {
    Run(n, Large(true, false))
  }

  /** The number of pages of an element, as its page map entry or its extent node gives it. */
  method ElemPages(cfg: Config, a: Fields, ghost runs: map<PageId, Run>, e: Dirty) returns (npages: nat)
    requires Consistent(cfg, a, runs) && InRing(a, e)
    ensures npages == Size(cfg, runs, e)
  {
    if e.Extent? {
      return CachePages(cfg, e.chunks);
    }
    RingFacts(cfg, a, runs, e.id);
    npages := a.maps[e.id.chunk][e.id.ind].size;
  }

  lemma RingFacts(cfg: Config, a: Fields, runs: map<PageId, Run>, id: PageId)
    requires Consistent(cfg, a, runs) && id in a.ring
    ensures id in runs && runs[id].kind == Free(true, false) && 1 <= runs[id].n
    ensures id.chunk in a.maps && id.ind < |a.maps[id.chunk]| && a.maps[id.chunk][id.ind].size == runs[id].n
    ensures a.spare == Some(id.chunk) ==> id == Page(id.chunk, cfg.bias)
    ensures id !in Live(runs)
  {
    assert Open(0);
    assert Fits(cfg, a.maps.Keys, id, runs[id]);
    FirstTag(cfg, a.maps, runs, id);
    if a.spare == Some(id.chunk) {
      SpareRun(cfg, St(a, runs), id);
    }
  }

  lemma SpareRun(cfg: Config, s: State, id: PageId)
    requires Inv(cfg, s) && id in s.runs && s.spare == Some(id.chunk)
    ensures id == Page(id.chunk, cfg.bias)
  {
    DropTiled(cfg, s.chunks, s.runs, id.chunk);
  }

  /** What taking the whole of a dirty free run does to the arena. */
  lemma StashedState(cfg: Config, s: State, id: PageId)
    requires cfg.pad <= 1 && id in s.runs && s.runs[id].kind == Free(true, false) && 1 <= s.runs[id].n
    ensures var t := Allocate(cfg, s, id, s.runs[id].n, Large(true, false));
            && t.runs == s.runs[id := Stashed(s.runs[id].n)] && t.ring == s.ring - {id} && t.cache == s.cache
            && t.ndirty == s.ndirty - s.runs[id].n && t.nactive == s.nactive + s.runs[id].n
  {
  }

  /** The body of the loop, for a run: it is temporarily allocated, after the spare is revived if it is the spare's.
      A dirty run is not decommitted, so this cannot fail. */
  method StashRun(cfg: Config, a: Fields, ghost runs: map<PageId, Run>, id: PageId, npages: nat)
    returns (b: Fields, ghost runs': map<PageId, Run>)
    requires Consistent(cfg, a, runs) && id in a.ring && id in runs && runs[id].n == npages
    ensures Consistent(cfg, b, runs') && b.nactive == a.nactive + npages && b.ndirty == a.ndirty - npages
    ensures b.ring == a.ring - {id} && b.cache == a.cache && runs' == runs[id := Stashed(npages)]
    ensures id !in Live(runs) && Live(runs') == Live(runs)[id := Stashed(npages)]
    ensures b.maps.Keys == a.maps.Keys && Moved(runs, runs', Interval(id, npages), Large(true, false), a.maps.Keys)
    ensures ClearFrom(a.maps, runs, b.maps, runs', {})
  {
    RingFacts(cfg, a, runs, id);
    assert Valid(cfg, a, runs) && Settled(runs) by { assert Open(0); }
    b := a;
    if a.spare == Some(id.chunk) {
      b := ChunkInitSpare(cfg, a, runs);
    }
    StashedState(cfg, St(b, runs), id);
    var err, cleared;
    b, runs', err, cleared := RunSplitLarge(cfg, b, runs, id, npages, false, false);
  }

  /** The body of the loop, for a cached extent: chunk_alloc_cache takes it out of the cache. */
  method StashExtent(cfg: Config, a: Fields, ghost runs: map<PageId, Run>, chunks: set<nat>) returns (b: Fields)
    requires Consistent(cfg, a, runs) && chunks <= a.cache
    ensures Consistent(cfg, b, runs) && b == a.(ndirty := a.ndirty - CachePages(cfg, chunks), cache := a.cache - chunks)
  {
    assert Valid(cfg, a, runs) && Settled(runs) by { assert Open(0); }
    b := CacheMaybeRemove(cfg, a, runs, chunks);
  }

  method StashElem(cfg: Config, a: Fields, ghost runs: map<PageId, Run>, e: Dirty, npages: nat)
    returns (b: Fields, ghost runs': map<PageId, Run>)
    requires Consistent(cfg, a, runs) && InRing(a, e) && npages == Size(cfg, runs, e)
    ensures Consistent(cfg, b, runs') && b.ndirty == a.ndirty - npages
    ensures e.DirtyRun? ==>
              && e.id in runs && 1 <= npages
              && b.ring == a.ring - {e.id} && b.cache == a.cache && runs' == runs[e.id := Stashed(npages)]
              && e.id !in Live(runs) && Live(runs') == Live(runs)[e.id := Stashed(npages)]
              && b.nactive == a.nactive + npages
              && Moved(runs, runs', Interval(e.id, npages), Large(true, false), a.maps.Keys)
    ensures b.maps.Keys == a.maps.Keys && ClearFrom(a.maps, runs, b.maps, runs', {})
    ensures e.Extent? ==> runs' == runs && b.ring == a.ring && b.cache == a.cache - e.chunks && b.nactive == a.nactive
  {
    if e.DirtyRun? {
      RingFacts(cfg, a, runs, e.id);
      b, runs' := StashRun(cfg, a, runs, e.id, npages);
    } else {
      b := StashExtent(cfg, a, runs, e.chunks);
      runs' := runs;
    }
  }

  /** The runs among the elements. */
  ghost function Ids(elems: seq<Dirty>): set<PageId>
  {
    set e | e in elems && e.DirtyRun? :: e.id
  }

  /** Their pages. */
  function RunPages(runs: map<PageId, Run>, elems: seq<Dirty>): nat
  {
    if elems == [] then 0
    else
      var e := elems[|elems| - 1];
      RunPages(runs, elems[..|elems| - 1]) + if e.DirtyRun? && e.id in runs then runs[e.id].n else 0
  }

  /** The pages of the runs among the first `k` elements. */
  ghost function PagesOf(runs: map<PageId, Run>, elems: seq<Dirty>, k: nat): set<PageId>
    requires k <= |elems|
  {
    if k == 0 then {}
    else
      var e := elems[k - 1];
      PagesOf(runs, elems, k - 1) + if e.DirtyRun? && e.id in runs then Interval(e.id, runs[e.id].n) else {}
  }

  /** The chunks of the extents among the first `k` elements. */
  ghost function ChunksOf(elems: seq<Dirty>, k: nat): set<nat>
    requires k <= |elems|
  {
    if k == 0 then {}
    else ChunksOf(elems, k - 1) + if elems[k - 1].Extent? then elems[k - 1].chunks else {}
  }

  /** The first `k` elements are stashed, with the sizes that the runs had in `runs`, and nothing else happened. */
  ghost predicate StashedFirst(cfg: Config, a: Fields, runs: map<PageId, Run>, b: Fields, runs': map<PageId, Run>,
                               elems: seq<Dirty>, k: nat)
    requires k <= |elems|
  {
    && (forall j {:trigger elems[j]} :: 0 <= j < k && elems[j].DirtyRun? ==>
          && elems[j].id in runs && elems[j].id !in Live(runs)
          && elems[j].id in runs' && runs'[elems[j].id] == Stashed(runs[elems[j].id].n))
    && (forall j {:trigger elems[j]} :: k <= j < |elems| ==>
        InRing(b, elems[j]) && Size(cfg, runs', elems[j]) == Size(cfg, runs, elems[j]))
    && Live(runs') - Ids(elems[..k]) == Live(runs)
    && b.nactive == a.nactive + RunPages(runs, elems[..k])
  }

  /** Their pages are held now, and their chunks no longer cached. */
  ghost predicate StashedPages(a: Fields, runs: map<PageId, Run>, b: Fields, runs': map<PageId, Run>,
                               elems: seq<Dirty>, k: nat)
    requires k <= |elems|
  {
    && b.maps.Keys == a.maps.Keys && b.cache == a.cache - ChunksOf(elems, k)
    && Moved(runs, runs', PagesOf(runs, elems, k), Large(true, false), a.maps.Keys)
    && ClearFrom(a.maps, runs, b.maps, runs', {})
  }

  /** A mark that lets a proof look inside `StashedSoFar`; elsewhere it is kept as one fact. */
  ghost predicate Inside(key: int)
  {
    true
  }

  ghost predicate StashedSoFar(cfg: Config, a: Fields, runs: map<PageId, Run>, b: Fields, runs': map<PageId, Run>,
                               elems: seq<Dirty>, k: nat)
    requires k <= |elems|
  {
    forall key {:trigger Inside(key)} :: Inside(key) ==>
      StashedFirst(cfg, a, runs, b, runs', elems, k) && StashedPages(a, runs, b, runs', elems, k)
  }

  lemma IdsStep(elems: seq<Dirty>, k: nat)
    requires k < |elems|
    ensures elems[k].DirtyRun? ==> Ids(elems[..k + 1]) == Ids(elems[..k]) + {elems[k].id}
    ensures elems[k].Extent? ==> Ids(elems[..k + 1]) == Ids(elems[..k])
  {
    assert elems[..k + 1] == elems[..k] + [elems[k]];
  }

  lemma RunPagesStep(runs: map<PageId, Run>, elems: seq<Dirty>, k: nat)
    requires k < |elems|
    ensures RunPages(runs, elems[..k + 1])
         == RunPages(runs, elems[..k]) + if elems[k].DirtyRun? && elems[k].id in runs then runs[elems[k].id].n else 0
  {
    assert elems[..k + 1][..k] == elems[..k];
  }

  lemma StashedOnePage(a: Fields, runs: map<PageId, Run>, b: Fields, runs': map<PageId, Run>, c: Fields,
                       runs'': map<PageId, Run>, elems: seq<Dirty>, k: nat)
    requires k < |elems| && StashedPages(a, runs, b, runs', elems, k) && c.maps.Keys == b.maps.Keys
    requires ClearFrom(b.maps, runs', c.maps, runs'', {})
    requires elems[k].DirtyRun? ==>
               && elems[k].id in runs && c.cache == b.cache
               && Moved(runs', runs'', Interval(elems[k].id, runs[elems[k].id].n), Large(true, false), b.maps.Keys)
    requires elems[k].Extent? ==> runs'' == runs' && c.cache == b.cache - elems[k].chunks
    ensures StashedPages(a, runs, c, runs'', elems, k + 1)
  {
    ClearOnce(a.maps, runs, b.maps, runs', c.maps, runs'');
    if elems[k].DirtyRun? {
      var id := elems[k].id;
      MovedTwice(runs, runs', runs'', PagesOf(runs, elems, k), Interval(id, runs[id].n), Large(true, false),
                 a.maps.Keys, a.maps.Keys);
    } else {
      assert PagesOf(runs, elems, k) + {} == PagesOf(runs, elems, k);
    }
  }

  /** One more element is stashed. */
  lemma StashedOne(cfg: Config, a: Fields, runs: map<PageId, Run>, b: Fields, runs': map<PageId, Run>,
                   c: Fields, runs'': map<PageId, Run>, elems: seq<Dirty>, k: nat)
    requires k < |elems| && StashedFirst(cfg, a, runs, b, runs', elems, k)
    requires forall j {:trigger elems[j]} :: 0 <= j < |elems| && j != k ==> Different(elems[j], elems[k])
    requires elems[k].DirtyRun? ==>
               && elems[k].id in runs && elems[k].id in runs' && elems[k].id !in Live(runs')
               && runs'[elems[k].id].n == runs[elems[k].id].n
               && c.ring == b.ring - {elems[k].id} && c.cache == b.cache
               && runs'' == runs'[elems[k].id := Stashed(runs[elems[k].id].n)]
               && Live(runs'') == Live(runs')[elems[k].id := Stashed(runs[elems[k].id].n)]
               && c.nactive == b.nactive + runs[elems[k].id].n
    requires elems[k].Extent? ==>
               runs'' == runs' && c.ring == b.ring && c.cache == b.cache - elems[k].chunks && c.nactive == b.nactive
    ensures StashedFirst(cfg, a, runs, c, runs'', elems, k + 1)
  {
    IdsStep(elems, k);
    RunPagesStep(runs, elems, k);
    if elems[k].DirtyRun? {
      var id := elems[k].id;
      StashedLive(Live(runs'), id, Stashed(runs[id].n), Ids(elems[..k]), Live(runs));
    }
  }

  lemma StashedLive(m: map<PageId, Run>, id: PageId, r: Run, ids: set<PageId>, before: map<PageId, Run>)
    requires m - ids == before && id !in m
    ensures m[id := r] - (ids + {id}) == before && id !in before
  {
  }

  lemma NoneFirst(cfg: Config, a: Fields, runs: map<PageId, Run>, elems: seq<Dirty>)
    requires Queued(a.ring, a.cache, elems) && RingExact(runs, a.ring)
    ensures StashedFirst(cfg, a, runs, a, runs, elems, 0)
  {
    assert elems[..0] == [];
    assert Ids([]) == {};
  }

  lemma NoPages(cfg: Config, a: Fields, runs: map<PageId, Run>, elems: seq<Dirty>)
    requires AllApart(runs) && AllFit(cfg, a.maps.Keys, runs)
    ensures StashedPages(a, runs, a, runs, elems, 0)
  {
    StillMoved(cfg, a.maps.Keys, runs, Large(true, false));
    ClearStill(a.maps, runs);
  }

  lemma NothingStashed(cfg: Config, a: Fields, runs: map<PageId, Run>, elems: seq<Dirty>)
    requires Queued(a.ring, a.cache, elems) && Consistent(cfg, a, runs)
    ensures StashedSoFar(cfg, a, runs, a, runs, elems, 0)
  {
    assert RingExact(runs, a.ring) && AllApart(runs) && AllFit(cfg, a.maps.Keys, runs) by { assert Open(0); }
    NoneFirst(cfg, a, runs, elems);
    NoPages(cfg, a, runs, elems);
  }

  method StashNext(cfg: Config, ghost a: Fields, ghost runs: map<PageId, Run>, b: Fields, ghost runs': map<PageId, Run>,
                   elems: seq<Dirty>, k: nat, npages: nat)
    returns (c: Fields, ghost runs'': map<PageId, Run>)
    requires Consistent(cfg, b, runs') && k < |elems| && StashedSoFar(cfg, a, runs, b, runs', elems, k)
    requires Queued(a.ring, a.cache, elems) && npages == Size(cfg, runs, elems[k])
    ensures Consistent(cfg, c, runs'') && StashedSoFar(cfg, a, runs, c, runs'', elems, k + 1)
    ensures c.ndirty == b.ndirty - npages
  {
    assert Inside(0);
    assert InRing(b, elems[k]) && Size(cfg, runs', elems[k]) == Size(cfg, runs, elems[k]);
    c, runs'' := StashElem(cfg, b, runs', elems[k], npages);
    assert forall j {:trigger elems[j]} :: 0 <= j < |elems| && j != k ==> Different(elems[j], elems[k]);
    StashedOne(cfg, a, runs, b, runs', c, runs'', elems, k);
    StashedOnePage(a, runs, b, runs', c, runs'', elems, k);
  }

  /** The state of the loop after `k` elements. */
  ghost predicate Stashing(cfg: Config, a: Fields, runs: map<PageId, Run>, b: Fields, runs': map<PageId, Run>,
                           elems: seq<Dirty>, k: nat, nstashed: nat)
  {
    && Consistent(cfg, b, runs') && k <= |elems| && StashedSoFar(cfg, a, runs, b, runs', elems, k)
    && nstashed == Prefix(Sizes(cfg, runs, elems), k) && b.ndirty == a.ndirty - nstashed
  }

  /** One turn of the loop. */
  method StashStep(cfg: Config, ghost a: Fields, ghost runs: map<PageId, Run>, b: Fields, ghost runs': map<PageId, Run>,
                   elems: seq<Dirty>, limit: nat, mode: Mode, k: nat, nstashed: nat)
    returns (c: Fields, ghost runs'': map<PageId, Run>, k': nat, nstashed': nat, stop: bool)
    requires Queued(a.ring, a.cache, elems) && k < |elems| && Stashing(cfg, a, runs, b, runs', elems, k, nstashed)
    ensures Stashing(cfg, a, runs, c, runs'', elems, k', nstashed')
    ensures var sizes := Sizes(cfg, runs, elems);
            match mode
            case Decay => (stop <==> DecayLeft(a.ndirty, sizes, k) < limit) && k' == if stop then k else k + 1
            case Ratio => k' == k + 1 && (stop <==> RatioLeft(a.ndirty, sizes, k') <= limit)
  {
    c, runs'', k', nstashed' := b, runs', k, nstashed;
    var npages := NextPages(cfg, a, runs, b, runs', elems, k);
    var left := Sub(b.ndirty, nstashed + npages);
    assert left == DecayLeft(a.ndirty, Sizes(cfg, runs, elems), k);
    if mode.Decay? && left < limit {
      stop := true;
      return;
    }
    c, runs'' := StashNext(cfg, a, runs, b, runs', elems, k, npages);
    k', nstashed' := k + 1, nstashed + npages;
    left := Sub(c.ndirty, nstashed');
    assert left == RatioLeft(a.ndirty, Sizes(cfg, runs, elems), k');
    stop := mode.Ratio? && left <= limit;
  }

  /** arena_stash_dirty.  `elems` is runs_dirty, oldest first. */
  method StashDirty(cfg: Config, a: Fields, ghost runs: map<PageId, Run>, elems: seq<Dirty>, limit: nat, mode: Mode)
    returns (b: Fields, ghost runs': map<PageId, Run>, k: nat, nstashed: nat)
    requires Consistent(cfg, a, runs) && Queued(a.ring, a.cache, elems)
    ensures Consistent(cfg, b, runs') && StopsAt(mode, a.ndirty, Sizes(cfg, runs, elems), limit, k)
    ensures nstashed == Prefix(Sizes(cfg, runs, elems), k) && b.ndirty == a.ndirty - nstashed
    ensures StashedSoFar(cfg, a, runs, b, runs', elems, k)
  {
    b, runs', k, nstashed := a, runs, 0, 0;
    ghost var sizes := Sizes(cfg, runs, elems);
    NothingStashed(cfg, a, runs, elems);
    var stop := false;
    while k < |elems| && !stop
      invariant Stashing(cfg, a, runs, b, runs', elems, k, nstashed) && GoesTo(mode, a.ndirty, sizes, limit, k)
      invariant !stop && mode.Ratio? && 1 <= k ==> limit < RatioLeft(a.ndirty, sizes, k)
      invariant stop ==> StopsAt(mode, a.ndirty, sizes, limit, k)
      decreases |elems| - k, !stop
    {
      ghost var before := k;
      b, runs', k, nstashed, stop := StashStep(cfg, a, runs, b, runs', elems, limit, mode, k, nstashed);
      if before < k {
        GoesOn(mode, a.ndirty, sizes, limit, before);
      }
    }
  }

  method NextPages(cfg: Config, ghost a: Fields, ghost runs: map<PageId, Run>, b: Fields, ghost runs': map<PageId, Run>,
                   elems: seq<Dirty>, k: nat)
    returns (npages: nat)
    requires Consistent(cfg, b, runs') && k < |elems| && StashedSoFar(cfg, a, runs, b, runs', elems, k)
    ensures npages == Size(cfg, runs, elems[k])
  {
    assert Inside(0);
    assert InRing(b, elems[k]) && Size(cfg, runs', elems[k]) == Size(cfg, runs, elems[k]);
    npages := ElemPages(cfg, b, runs', elems[k]);
  }

  // ---------------------------------------------------------------- purging and giving back

  /** What the hooks answer for each stashed element: whether its pages were decommitted, and if not, whether purging
      left them unzeroed; and whether a chunk that is discarded meanwhile is recorded in the cache. */
  datatype Hooks = Hooks(decommits: nat -> bool, unzeroes: nat -> bool, records: nat -> bool)

  ghost predicate Distinct(elems: seq<Dirty>)
  {
    forall i, j :: 0 <= i < j < |elems| ==> Different(elems[i], elems[j])
  }

  lemma RekindLive(runs: map<PageId, Run>, id: PageId, kind: Kind)
    requires id in runs && kind.Large?
    ensures Live(runs[id := Run(runs[id].n, kind)]) == Live(runs)[id := Run(runs[id].n, kind)]
    ensures Settled(runs) ==> Settled(runs[id := Run(runs[id].n, kind)])
  {
  }

  method SetPurged(cfg: Config, maps: View, id: PageId, n: nat, decommitted: bool, unzeroed: bool) returns (after: View)
    requires id.chunk in maps && 1 <= n && id.ind + n <= |maps[id.chunk]| && cfg.bias <= cfg.npages
    ensures WrittenWithin(maps, after, id.chunk, id.ind, id.ind + n)
    ensures DescribedAt(cfg, after, id, Run(n, Large(false, decommitted)))
    ensures !decommitted && unzeroed ==> forall x :: x in Interval(id, n) ==> !NotMarked(after, x)
  {
    var m, p := maps[id.chunk], id.ind;
    var flag := !decommitted && unzeroed;
    m := m[p + n - 1 := LargeBits(0, false, flag, decommitted)];
    m := m[p := LargeBits(n, false, flag, decommitted)];
    ghost var ends := m;
    var i := 1;
    while i < n - 1
      invariant 1 <= i && |m| == |ends|
      invariant forall q :: 0 <= q < |m| && !(p < q < p + n - 1) ==> m[q] == ends[q]
      invariant forall q :: p <= q < p + i && q < p + n ==> m[q].unzeroed == flag
    {
      m := m[p + i := InternalBits(flag)];
      i := i + 1;
    }
    after := maps[id.chunk := m];
  }

  /** The body of the loop of arena_purge_stashed, for a run: its page map says whether it was decommitted or purged. */
  method PurgeRun(cfg: Config, a: Fields, ghost runs: map<PageId, Run>, id: PageId, decommitted: bool, unzeroed: bool)
    returns (b: Fields, ghost runs': map<PageId, Run>, npages: nat)
    requires Consistent(cfg, a, runs) && id in runs && runs[id].kind == Large(true, false)
    ensures Consistent(cfg, b, runs') && b == a.(maps := b.maps) && npages == runs[id].n
    ensures runs' == runs[id := Run(npages, Large(false, decommitted))]
    ensures Live(runs') == Live(runs)[id := Run(npages, Large(false, decommitted))]
    ensures b.maps.Keys == a.maps.Keys && Moved(runs, runs', {}, Carved, a.maps.Keys)
    ensures ClearFrom(a.maps, runs, b.maps, runs',
                      if decommitted || !unzeroed then Interval(id, runs[id].n) else {})
  {
    assert Valid(cfg, a, runs) && Settled(runs) by { assert Open(0); }
    assert AllApart(runs) && AllFit(cfg, a.maps.Keys, runs) by { assert Open(0); }
    RelabelMoved(cfg, a.maps.Keys, runs, id, Large(false, decommitted));
    LiveFacts(cfg, a, runs, id);
    npages := a.maps[id.chunk][id.ind].size;
    assert !a.maps[id.chunk][id.ind].decommitted;
    var maps := SetPurged(cfg, a.maps, id, npages, decommitted, unzeroed);
    RewrittenRun(cfg, a, runs, id, maps, Large(false, decommitted));
    b := a.(maps := maps);
    runs' := runs[id := Run(npages, Large(false, decommitted))];
    RekindLive(runs, id, Large(false, decommitted));
    if decommitted || !unzeroed {
      RekindClear(a.maps, maps, runs, id, Large(false, decommitted), Interval(id, npages));
    } else {
      MarkedClear(a.maps, maps, runs, id, Large(false, decommitted));
    }
  }

  /** The first `k` of the stashed elements are purged; the others are as they were. */
  ghost predicate PurgedFirst(runs: map<PageId, Run>, runs': map<PageId, Run>, elems: seq<Dirty>, hooks: Hooks, k: nat)
    requires k <= |elems|
  {
    && (forall j {:trigger elems[j]} :: 0 <= j < |elems| && elems[j].DirtyRun? ==>
          && elems[j].id in runs && elems[j].id in runs' && runs'[elems[j].id].n == runs[elems[j].id].n
          && runs'[elems[j].id].kind == if j < k then Large(false, hooks.decommits(j)) else Large(true, false))
    && Live(runs') - Ids(elems) == Live(runs) - Ids(elems)
  }

  lemma PurgedOne(runs: map<PageId, Run>, runs': map<PageId, Run>, runs'': map<PageId, Run>, elems: seq<Dirty>,
                  hooks: Hooks, k: nat, r: Run)
    requires Distinct(elems) && k < |elems| && PurgedFirst(runs, runs', elems, hooks, k)
    requires elems[k].Extent? ==> runs'' == runs'
    requires elems[k].DirtyRun? ==>
               && r == Run(runs[elems[k].id].n, Large(false, hooks.decommits(k)))
               && runs'' == runs'[elems[k].id := r] && Live(runs'') == Live(runs')[elems[k].id := r]
    ensures PurgedFirst(runs, runs'', elems, hooks, k + 1)
  {
    assert forall j {:trigger elems[j]} :: 0 <= j < |elems| && j != k ==> Different(elems[j], elems[k]);
    if elems[k].DirtyRun? {
      assert elems[k] in elems;
      assert Live(runs'') - Ids(elems) == Live(runs') - Ids(elems);
    }
  }

  /** The pages of the runs among the first `k` elements that purging left zero, or that were decommitted. */
  ghost function ZeroedOf(runs: map<PageId, Run>, elems: seq<Dirty>, hooks: Hooks, k: nat): set<PageId>
    requires k <= |elems|
  {
    if k == 0 then {}
    else
      var e := elems[k - 1];
      ZeroedOf(runs, elems, hooks, k - 1)
        + if e.DirtyRun? && e.id in runs && (hooks.decommits(k - 1) || !hooks.unzeroes(k - 1))
          then Interval(e.id, runs[e.id].n) else {}
  }

  /** arena_purge_stashed has dealt with the first `k` elements. */
  ghost predicate Purging(cfg: Config, a: Fields, runs: map<PageId, Run>, b: Fields, runs': map<PageId, Run>,
                          elems: seq<Dirty>, hooks: Hooks, k: nat)
    requires k <= |elems|
  {
    forall key {:trigger Inside(key)} :: Inside(key) ==>
      && Consistent(cfg, b, runs') && b == a.(maps := b.maps) && b.maps.Keys == a.maps.Keys
      && PurgedFirst(runs, runs', elems, hooks, k) && Moved(runs, runs', {}, Carved, a.maps.Keys)
      && ClearFrom(a.maps, runs, b.maps, runs', ZeroedOf(runs, elems, hooks, k))
  }

  lemma PurgingStarts(cfg: Config, a: Fields, runs: map<PageId, Run>, elems: seq<Dirty>, hooks: Hooks)
    requires Consistent(cfg, a, runs)
    requires forall j :: 0 <= j < |elems| && elems[j].DirtyRun? ==>
             elems[j].id in runs && runs[elems[j].id].kind == Large(true, false)
    ensures Purging(cfg, a, runs, a, runs, elems, hooks, 0)
  {
    assert Moved(runs, runs, {}, Carved, a.maps.Keys) by {
      assert Open(0);
      StillMoved(cfg, a.maps.Keys, runs, Carved);
    }
  }

  /** The body of its loop. */
  method PurgeNext(cfg: Config, ghost a: Fields, ghost runs: map<PageId, Run>, b: Fields, ghost runs': map<PageId, Run>,
                   elems: seq<Dirty>, hooks: Hooks, k: nat)
    returns (c: Fields, ghost runs'': map<PageId, Run>, npages: nat)
    requires Distinct(elems) && k < |elems| && Purging(cfg, a, runs, b, runs', elems, hooks, k)
    ensures Purging(cfg, a, runs, c, runs'', elems, hooks, k + 1) && npages == Size(cfg, runs, elems[k])
  {
    assert Inside(0);
    c, runs'' := b, runs';
    ghost var zeroed := ZeroedOf(runs, elems, hooks, k);
    if elems[k].Extent? {
      assert ZeroedOf(runs, elems, hooks, k + 1) == zeroed;
      npages := CachePages(cfg, elems[k].chunks);
      PurgedOne(runs, runs', runs'', elems, hooks, k, Stashed(0));
    } else {
      c, runs'', npages := PurgeRun(cfg, b, runs', elems[k].id, hooks.decommits(k), hooks.unzeroes(k));
      StillTwice(runs, runs', runs'', Carved, a.maps.Keys);
      ghost var more := if hooks.decommits(k) || !hooks.unzeroes(k) then Interval(elems[k].id, npages) else {};
      ClearTwice(a.maps, runs, b.maps, runs', c.maps, runs'', zeroed, more);
      PurgedOne(runs, runs', runs'', elems, hooks, k, Run(npages, Large(false, hooks.decommits(k))));
    }
  }

  /** arena_purge_stashed: as many pages are purged as the elements have. */
  method PurgeStashed(cfg: Config, a: Fields, ghost runs: map<PageId, Run>, elems: seq<Dirty>, hooks: Hooks)
    returns (b: Fields, ghost runs': map<PageId, Run>, npurged: nat)
    requires Consistent(cfg, a, runs) && Distinct(elems)
    requires forall j :: 0 <= j < |elems| && elems[j].DirtyRun? ==>
             elems[j].id in runs && runs[elems[j].id].kind == Large(true, false)
    ensures Purging(cfg, a, runs, b, runs', elems, hooks, |elems|) && npurged == Sum(Sizes(cfg, runs, elems))
  {
    b, runs', npurged := a, runs, 0;
    PurgingStarts(cfg, a, runs, elems, hooks);
    ghost var sizes := Sizes(cfg, runs, elems);
    var k := 0;
    while k < |elems|
      invariant k <= |elems| && Purging(cfg, a, runs, b, runs', elems, hooks, k) && npurged == Prefix(sizes, k)
    {
      var npages;
      b, runs', npages := PurgeNext(cfg, a, runs, b, runs', elems, hooks, k);
      npurged, k := npurged + npages, k + 1;
    }
  }

  method ReadDecommitted(cfg: Config, a: Fields, ghost runs: map<PageId, Run>, id: PageId) returns (decommitted: bool)
    requires Consistent(cfg, a, runs) && id in runs && runs[id].kind.Large?
    ensures decommitted == runs[id].kind.decommitted
  {
    assert Open(0);
    LiveFacts(cfg, a, runs, id);
    decommitted := a.maps[id.chunk][id.ind].decommitted;
  }

  /** The runs from element `k` on are still held, as they were purged; the others are given back. */
  ghost predicate GivenBack(a: Fields, runs: map<PageId, Run>, b: Fields, runs': map<PageId, Run>, elems: seq<Dirty>,
                            hooks: Hooks, k: nat)
    requires k <= |elems|
  {
    && (forall j {:trigger elems[j]} :: k <= j < |elems| && elems[j].DirtyRun? ==>
          && elems[j].id in Live(runs') && elems[j].id in runs && Live(runs')[elems[j].id] == runs[elems[j].id]
          && runs[elems[j].id].kind == Large(false, hooks.decommits(j)))
    && Live(runs') == Live(runs) - Ids(elems[..k])
    && b.nactive == a.nactive - RunPages(runs, elems[..k])
  }

  /** The pages of the runs among the first `k` elements that were decommitted. */
  ghost function DecommittedOf(runs: map<PageId, Run>, elems: seq<Dirty>, hooks: Hooks, k: nat): set<PageId>
    requires k <= |elems|
  {
    if k == 0 then {}
    else
      var e := elems[k - 1];
      DecommittedOf(runs, elems, hooks, k - 1)
        + if e.DirtyRun? && e.id in runs && hooks.decommits(k - 1) then Interval(e.id, runs[e.id].n) else {}
  }

  /** Seen from the pages: those of the first `k` elements are free and clean, or decommitted, and no page has become
      dirty. */
  ghost predicate GivenPages(a: Fields, runs: map<PageId, Run>, b: Fields, runs': map<PageId, Run>, elems: seq<Dirty>,
                             hooks: Hooks, k: nat)
    requires k <= |elems|
  {
    ChunksLeave(a, b) && CleanPages(runs, runs', elems, hooks, k, b.maps.Keys)
  }

  /** Chunks may have left the arena, for the cache or for good. */
  ghost predicate ChunksLeave(a: Fields, b: Fields)
  {
    b.maps.Keys <= a.maps.Keys && a.cache <= b.cache <= a.cache + (a.maps.Keys - b.maps.Keys)
  }

  ghost predicate CleanPages(runs: map<PageId, Run>, runs': map<PageId, Run>, elems: seq<Dirty>, hooks: Hooks, k: nat,
                             chunks: set<nat>)
    requires k <= |elems|
  {
    && Covered(runs', Measure.Dirty) == Within(chunks, Covered(runs, Measure.Dirty))
    && Covered(runs', Idle) == Within(chunks, Covered(runs, Idle) + PagesOf(runs, elems, k))
    && Covered(runs', Decommitted) == Within(chunks, Covered(runs, Decommitted) + DecommittedOf(runs, elems, hooks, k))
  }

  lemma GivenOne(a: Fields, runs: map<PageId, Run>, b: Fields, runs': map<PageId, Run>, c: Fields,
                 runs'': map<PageId, Run>, elems: seq<Dirty>, hooks: Hooks, k: nat)
    requires Distinct(elems) && k < |elems| && GivenBack(a, runs, b, runs', elems, hooks, k)
    requires elems[k].Extent? ==> runs'' == runs' && c == b
    requires elems[k].DirtyRun? ==>
               elems[k].id in runs && Live(runs'') == Live(runs') - {elems[k].id}
                 && c.nactive == b.nactive - runs[elems[k].id].n
    ensures GivenBack(a, runs, c, runs'', elems, hooks, k + 1)
  {
    IdsStep(elems, k);
    RunPagesStep(runs, elems, k);
    assert forall j {:trigger elems[j]} :: 0 <= j < |elems| && j != k ==> Different(elems[j], elems[k]);
  }

  /** The pages of one run are added to those that `m` counts, or not. */
  lemma GivenFor(first: map<PageId, Run>, runs: map<PageId, Run>, runs': map<PageId, Run>, id: PageId, kind: Kind,
                 before: set<nat>, after: set<nat>, sofar: set<PageId>, m: Measure)
    requires AllApart(runs) && id in runs && !Counts(runs[id], m) && id.chunk in before && after <= before
    requires Covered(runs, m) == Within(before, Covered(first, m) + sofar)
    requires Moved(runs, runs', Interval(id, runs[id].n), kind, after)
    ensures var more := if Counts(Run(1, kind), m) then Interval(id, runs[id].n) else {};
            Covered(runs', m) == Within(after, Covered(first, m) + (sofar + more))
  {
    var pages := Interval(id, runs[id].n);
    assert MovedFor(runs, runs', pages, kind, after, m);
    assert Covered(runs, m) !! pages by {
      CoveredRemove(runs, id, m);
      CoveredDisjoint(runs, id, m);
    }
  }

  lemma LeaveTwice(a: Fields, b: Fields, c: Fields)
    requires ChunksLeave(a, b) && ChunksLeave(b, c)
    ensures ChunksLeave(a, c)
  {
  }

  lemma FreedLeave(cfg: Config, b: Fields, runs: map<PageId, Run>, c: Fields, runs': map<PageId, Run>, chunk: nat,
                   recorded: bool)
    requires Consistent(cfg, b, runs) && SpareAfter(cfg, b, c, runs', chunk, recorded)
    ensures ChunksLeave(b, c)
  {
    assert b.spare.Some? ==> b.spare.value in b.maps by { assert Open(0); }
  }

  lemma HeldFacts(cfg: Config, b: Fields, runs: map<PageId, Run>, id: PageId)
    requires Consistent(cfg, b, runs) && id in runs && runs[id].kind.Large?
    ensures AllApart(runs) && id.chunk in b.maps
  {
    assert Open(0);
    LiveFacts(cfg, b, runs, id);
  }

  lemma GivenOnePage(cfg: Config, a: Fields, runs: map<PageId, Run>, b: Fields, runs': map<PageId, Run>, c: Fields,
                     runs'': map<PageId, Run>, elems: seq<Dirty>, hooks: Hooks, k: nat, recorded: bool)
    requires Consistent(cfg, b, runs') && k < |elems| && GivenPages(a, runs, b, runs', elems, hooks, k)
    requires elems[k].Extent? ==> runs'' == runs' && c == b
    requires elems[k].DirtyRun? ==>
               && elems[k].id in runs && elems[k].id in runs' && runs'[elems[k].id] == runs[elems[k].id]
               && runs[elems[k].id].kind.Large? && SpareAfter(cfg, b, c, runs'', elems[k].id.chunk, recorded)
               && Moved(runs', runs'', Interval(elems[k].id, runs[elems[k].id].n), Free(false, hooks.decommits(k)),
                        c.maps.Keys)
    ensures GivenPages(a, runs, c, runs'', elems, hooks, k + 1)
  {
    if elems[k].DirtyRun? {
      FreedLeave(cfg, b, runs', c, runs'', elems[k].id.chunk, recorded);
      LeaveTwice(a, b, c);
      HeldFacts(cfg, b, runs', elems[k].id);
      GivenRun(runs, runs', runs'', elems, hooks, k, b.maps.Keys, c.maps.Keys);
    } else {
      GivenExtent(runs, runs', elems, hooks, k, b.maps.Keys);
    }
  }

  lemma GivenExtent(first: map<PageId, Run>, runs: map<PageId, Run>, elems: seq<Dirty>, hooks: Hooks, k: nat,
                    chunks: set<nat>)
    requires k < |elems| && elems[k].Extent? && CleanPages(first, runs, elems, hooks, k, chunks)
    ensures CleanPages(first, runs, elems, hooks, k + 1, chunks)
  {
    assert PagesOf(first, elems, k + 1) == PagesOf(first, elems, k);
    assert DecommittedOf(first, elems, hooks, k + 1) == DecommittedOf(first, elems, hooks, k);
  }

  lemma GivenRun(first: map<PageId, Run>, runs: map<PageId, Run>, runs': map<PageId, Run>, elems: seq<Dirty>,
                 hooks: Hooks, k: nat, before: set<nat>, after: set<nat>)
    requires k < |elems| && elems[k].DirtyRun? && elems[k].id in first && elems[k].id in runs
    requires runs[elems[k].id] == first[elems[k].id] && runs[elems[k].id].kind.Large?
    requires AllApart(runs) && elems[k].id.chunk in before && after <= before
    requires Moved(runs, runs', Interval(elems[k].id, runs[elems[k].id].n), Free(false, hooks.decommits(k)), after)
    requires CleanPages(first, runs, elems, hooks, k, before)
    ensures CleanPages(first, runs', elems, hooks, k + 1, after)
  {
    var id, kind := elems[k].id, Free(false, hooks.decommits(k));
    var none: set<PageId> := {};
    assert Covered(first, Measure.Dirty) + none == Covered(first, Measure.Dirty) && none + none == none;
    GivenFor(first, runs, runs', id, kind, before, after, none, Measure.Dirty);
    GivenFor(first, runs, runs', id, kind, before, after, PagesOf(first, elems, k), Idle);
    GivenFor(first, runs, runs', id, kind, before, after, DecommittedOf(first, elems, hooks, k), Decommitted);
  }

  lemma NoneGiven(cfg: Config, a: Fields, runs: map<PageId, Run>, elems: seq<Dirty>, hooks: Hooks)
    requires Consistent(cfg, a, runs)
    ensures GivenPages(a, runs, a, runs, elems, hooks, 0)
  {
    assert AllFit(cfg, a.maps.Keys, runs) by { assert Open(0); }
    CoveredFits(cfg, a.maps.Keys, runs, Measure.Dirty);
    CoveredFits(cfg, a.maps.Keys, runs, Idle);
    CoveredFits(cfg, a.maps.Keys, runs, Decommitted);
    assert Covered(runs, Idle) + {} == Covered(runs, Idle);
    assert Covered(runs, Decommitted) + {} == Covered(runs, Decommitted);
  }

  /** The body of the loop of arena_unstash_purged, for a run: its page map says whether it was decommitted. */
  method UnstashRun(cfg: Config, a: Fields, ghost runs: map<PageId, Run>, id: PageId, ghost decommits: bool,
                    recorded: bool)
    returns (b: Fields, ghost runs': map<PageId, Run>)
    requires Consistent(cfg, a, runs) && id in runs && runs[id].kind == Large(false, decommits)
    ensures Consistent(cfg, b, runs') && Live(runs') == Live(runs) - {id} && b.nactive == a.nactive - runs[id].n
    ensures Freed(cfg, a, runs, b, runs', id, false, decommits, recorded)
    ensures ClearFrom(a.maps, runs, b.maps, runs', {})
  {
    var decommitted := ReadDecommitted(cfg, a, runs, id);
    b, runs' := FreeRun(cfg, a, runs, id, 0, false, true, decommitted, recorded);
  }

  /** The state of the loop after `k` elements. */
  ghost predicate Giving(cfg: Config, a: Fields, runs: map<PageId, Run>, b: Fields, runs': map<PageId, Run>,
                         elems: seq<Dirty>, hooks: Hooks, k: nat)
    requires k <= |elems|
  {
    forall key {:trigger Inside(key)} :: Inside(key) ==>
      && Consistent(cfg, b, runs') && GivenBack(a, runs, b, runs', elems, hooks, k)
      && GivenPages(a, runs, b, runs', elems, hooks, k) && ClearFrom(a.maps, runs, b.maps, runs', {})
  }

  /** One turn of the loop. */
  method UnstashNext(cfg: Config, ghost a: Fields, ghost runs: map<PageId, Run>, b: Fields,
                     ghost runs': map<PageId, Run>, elems: seq<Dirty>, hooks: Hooks, k: nat)
    returns (c: Fields, ghost runs'': map<PageId, Run>)
    requires Distinct(elems) && k < |elems| && Giving(cfg, a, runs, b, runs', elems, hooks, k)
    ensures Giving(cfg, a, runs, c, runs'', elems, hooks, k + 1)
  {
    assert Inside(0);
    c, runs'' := b, runs';
    if elems[k].DirtyRun? {
      LiveEntry(runs', elems[k].id);
      c, runs'' := UnstashRun(cfg, b, runs', elems[k].id, hooks.decommits(k), hooks.records(k));
      ClearOnce(a.maps, runs, b.maps, runs', c.maps, runs'');
    }
    GivenOne(a, runs, b, runs', c, runs'', elems, hooks, k);
    GivenOnePage(cfg, a, runs, b, runs', c, runs'', elems, hooks, k, hooks.records(k));
  }

  /** arena_unstash_purged: the runs are freed as clean; the extents leave the arena. */
  method UnstashPurged(cfg: Config, a: Fields, ghost runs: map<PageId, Run>, elems: seq<Dirty>, hooks: Hooks)
    returns (b: Fields, ghost runs': map<PageId, Run>)
    requires Consistent(cfg, a, runs) && Distinct(elems) && GivenBack(a, runs, a, runs, elems, hooks, 0)
    ensures Consistent(cfg, b, runs')
    ensures Live(runs') == Live(runs) - Ids(elems) && b.nactive == a.nactive - RunPages(runs, elems)
    ensures GivenPages(a, runs, b, runs', elems, hooks, |elems|) && ClearFrom(a.maps, runs, b.maps, runs', {})
  {
    b, runs' := a, runs;
    NoneGiven(cfg, a, runs, elems, hooks);
    ClearStill(a.maps, runs);
    var k := 0;
    while k < |elems|
      invariant k <= |elems| && Giving(cfg, a, runs, b, runs', elems, hooks, k)
    {
      b, runs' := UnstashNext(cfg, a, runs, b, runs', elems, hooks, k);
      k := k + 1;
    }
    assert Inside(0);
    assert elems[..k] == elems;
  }

  lemma PurgedReady(cfg: Config, a: Fields, runs: map<PageId, Run>, runs': map<PageId, Run>, elems: seq<Dirty>,
                    hooks: Hooks)
    requires PurgedFirst(runs, runs', elems, hooks, |elems|)
    ensures GivenBack(a, runs', a, runs', elems, hooks, 0)
  {
    assert elems[..0] == [] && Ids([]) == {};
  }

  lemma {:induction false} RunPagesSame(runs: map<PageId, Run>, runs': map<PageId, Run>, elems: seq<Dirty>)
    requires forall j {:trigger elems[j]} :: 0 <= j < |elems| && elems[j].DirtyRun? ==>
               elems[j].id in runs && elems[j].id in runs' && runs'[elems[j].id].n == runs[elems[j].id].n
    ensures RunPages(runs', elems) == RunPages(runs, elems)
  {
    if elems != [] {
      RunPagesSame(runs, runs', elems[..|elems| - 1]);
    }
  }

  /** The rest of arena_purge_to_limit, once arena->lock is dropped.  Whatever the other threads did meanwhile, they
      left the stashed runs alone, which are not theirs.  The assertion that as much was purged as was stashed holds. */
  method FinishPurge(cfg: Config, a: Fields, ghost runs: map<PageId, Run>, elems: seq<Dirty>, npurge: nat, hooks: Hooks)
    returns (b: Fields, ghost runs': map<PageId, Run>)
    requires Consistent(cfg, a, runs) && Distinct(elems)
    requires forall j :: 0 <= j < |elems| && elems[j].DirtyRun? ==>
             elems[j].id in runs && runs[elems[j].id].kind == Large(true, false)
    requires npurge == Sum(Sizes(cfg, runs, elems))
    ensures Consistent(cfg, b, runs')
    ensures Live(runs') == Live(runs) - Ids(elems) && b.nactive == a.nactive - RunPages(runs, elems)
    ensures GivenPages(a, runs, b, runs', elems, hooks, |elems|)
    ensures b.ndirty == a.ndirty + LeftShare(cfg, a, runs, b)
    ensures ClearFrom(a.maps, runs, b.maps, runs', ZeroedOf(runs, elems, hooks, |elems|))
  {
    var npurged;
    b, runs', npurged := PurgeStashed(cfg, a, runs, elems, hooks);
    assert npurged == npurge && Inside(0);
    PurgedReady(cfg, b, runs, runs', elems, hooks);
    RunPagesSame(runs, runs', elems);
    ghost var b0, purged := b, runs';
    b, runs' := UnstashPurged(cfg, b, runs', elems, hooks);
    assert Live(purged) - Ids(elems) == Live(runs) - Ids(elems);
    PurgedThenGiven(cfg, a, runs, b0, purged, b, runs', elems, hooks);
    ghost var zeroed := ZeroedOf(runs, elems, hooks, |elems|);
    ClearTwice(a.maps, runs, b0.maps, purged, b.maps, runs', zeroed, {});
    assert zeroed + {} == zeroed;
    LeftCounts(cfg, a, runs, b, runs');
  }

  lemma {:induction false} PagesSame(runs: map<PageId, Run>, runs': map<PageId, Run>, elems: seq<Dirty>,
                                     elems': seq<Dirty>, hooks: Hooks, k: nat)
    requires k <= |elems| && k <= |elems'| && elems[..k] == elems'[..k]
    requires forall j {:trigger elems[j]} :: 0 <= j < k && elems[j].DirtyRun? ==>
               elems[j].id in runs && elems[j].id in runs' && runs'[elems[j].id].n == runs[elems[j].id].n
    ensures PagesOf(runs', elems', k) == PagesOf(runs, elems, k)
    ensures DecommittedOf(runs', elems', hooks, k) == DecommittedOf(runs, elems, hooks, k)
    ensures ZeroedOf(runs', elems', hooks, k) == ZeroedOf(runs, elems, hooks, k)
  {
    if k > 0 {
      assert elems[..k][..k - 1] == elems[..k - 1] && elems'[..k][..k - 1] == elems'[..k - 1];
      assert elems'[k - 1] == elems'[..k][k - 1] == elems[k - 1];
      PagesSame(runs, runs', elems, elems', hooks, k - 1);
    }
  }

  /** Without moves the pages are counted the same. */
  lemma StillCovered(cfg: Config, chunks: set<nat>, runs: map<PageId, Run>, runs': map<PageId, Run>, m: Measure)
    requires AllFit(cfg, chunks, runs) && Moved(runs, runs', {}, Carved, chunks)
    ensures Covered(runs', m) == Covered(runs, m)
  {
    assert MovedFor(runs, runs', {}, Carved, chunks, m);
    CoveredFits(cfg, chunks, runs, m);
  }

  lemma PurgedThenGiven(cfg: Config, a: Fields, runs: map<PageId, Run>, b: Fields, purged: map<PageId, Run>, c: Fields,
                        runs': map<PageId, Run>, elems: seq<Dirty>, hooks: Hooks)
    requires Consistent(cfg, a, runs) && b.maps.Keys == a.maps.Keys && b.cache == a.cache
    requires PurgedFirst(runs, purged, elems, hooks, |elems|) && Moved(runs, purged, {}, Carved, a.maps.Keys)
    requires GivenPages(b, purged, c, runs', elems, hooks, |elems|)
    ensures GivenPages(a, runs, c, runs', elems, hooks, |elems|)
  {
    assert AllFit(cfg, a.maps.Keys, runs) by { assert Open(0); }
    StillCovered(cfg, a.maps.Keys, runs, purged, Measure.Dirty);
    StillCovered(cfg, a.maps.Keys, runs, purged, Idle);
    StillCovered(cfg, a.maps.Keys, runs, purged, Decommitted);
    PagesSame(runs, purged, elems, elems, hooks, |elems|);
  }

  /** What chunks that have left the arena contribute to the change of the number of dirty pages: their dirty pages are
      no longer counted, but all of their pages are if they are in the cache. */
  ghost function LeftShare(cfg: Config, a: Fields, runs: map<PageId, Run>, b: Fields): int
  {
    CachePages(cfg, b.cache - a.cache)
    - |Covered(runs, Measure.Dirty) - Within(b.maps.Keys, Covered(runs, Measure.Dirty))|
  }

  lemma LeftCounts(cfg: Config, a: Fields, runs: map<PageId, Run>, b: Fields, runs': map<PageId, Run>)
    requires Consistent(cfg, a, runs) && Consistent(cfg, b, runs') && a.cache <= b.cache
    requires Covered(runs', Measure.Dirty) == Within(b.maps.Keys, Covered(runs, Measure.Dirty))
    ensures b.ndirty == a.ndirty + LeftShare(cfg, a, runs, b)
  {
    DirtyCount(cfg, a, runs);
    DirtyCount(cfg, b, runs');
    assert b.cache == a.cache + (b.cache - a.cache);
    CachePagesSum(cfg, a.cache, b.cache - a.cache);
    SplitSize(Covered(runs, Measure.Dirty), b.maps.Keys);
  }

  lemma DirtyCount(cfg: Config, a: Fields, runs: map<PageId, Run>)
    requires Consistent(cfg, a, runs)
    ensures a.ndirty == Pages(runs, Measure.Dirty) + CachePages(cfg, a.cache)
  {
    assert Open(0);
  }

  lemma SplitSize(pages: set<PageId>, chunks: set<nat>)
    ensures |pages| == |Within(chunks, pages)| + |pages - Within(chunks, pages)|
  {
    assert pages == Within(chunks, pages) + (pages - Within(chunks, pages));
  }

  lemma {:induction false} SumSame(cfg: Config, runs: map<PageId, Run>, runs': map<PageId, Run>, elems: seq<Dirty>,
                                   k: nat)
    requires k <= |elems|
    requires forall j {:trigger elems[j]} :: 0 <= j < k && elems[j].DirtyRun? ==>
               elems[j].id in runs && elems[j].id in runs' && runs'[elems[j].id].n == runs[elems[j].id].n
    ensures Sum(Sizes(cfg, runs', elems[..k])) == Prefix(Sizes(cfg, runs, elems), k)
  {
    var whole, part := Sizes(cfg, runs, elems), Sizes(cfg, runs', elems[..k]);
    forall j | 0 <= j < k ensures part[j] == whole[j] {
      assert elems[..k][j] == elems[j];
    }
    PrefixSame(whole, part, k);
  }

  lemma {:induction false} PrefixSame(xs: seq<nat>, ys: seq<nat>, k: nat)
    requires k <= |xs| && k <= |ys| && forall j :: 0 <= j < k ==> ys[j] == xs[j]
    ensures Prefix(ys, k) == Prefix(xs, k)
  {
    if k > 0 {
      PrefixSame(xs, ys, k - 1);
    }
  }

  lemma StashedReady(cfg: Config, a: Fields, runs: map<PageId, Run>, b: Fields, runs': map<PageId, Run>,
                     elems: seq<Dirty>, k: nat)
    requires k <= |elems| && StashedSoFar(cfg, a, runs, b, runs', elems, k)
    ensures forall j :: 0 <= j < k && elems[..k][j].DirtyRun? ==>
              elems[..k][j].id in runs' && runs'[elems[..k][j].id].kind == Large(true, false)
    ensures Sum(Sizes(cfg, runs', elems[..k])) == Prefix(Sizes(cfg, runs, elems), k)
    ensures Live(runs') - Ids(elems[..k]) == Live(runs) && b.nactive - RunPages(runs', elems[..k]) == a.nactive
    ensures StashedPages(a, runs, b, runs', elems, k)
  {
    assert Inside(0);
    SumSame(cfg, runs, runs', elems, k);
    assert forall j {:trigger elems[..k][j]} :: 0 <= j < k ==> elems[..k][j] == elems[j];
    RunPagesSame(runs, runs', elems[..k]);
  }

  /** What purging the first `k` elements does.  Their pages are no longer dirty; all pages that were free still are,
      unless their chunk has left the arena.  The extents among the elements are no longer cached. */
  ghost predicate Purged(a: Fields, runs: map<PageId, Run>, b: Fields, runs': map<PageId, Run>, elems: seq<Dirty>,
                         hooks: Hooks, k: nat)
    requires k <= |elems|
  {
    && b.maps.Keys <= a.maps.Keys
    && a.cache - ChunksOf(elems, k) <= b.cache <= a.cache - ChunksOf(elems, k) + (a.maps.Keys - b.maps.Keys)
    && PurgedPages(runs, runs', elems, hooks, k, b.maps.Keys)
  }

  ghost predicate PurgedPages(runs: map<PageId, Run>, runs': map<PageId, Run>, elems: seq<Dirty>, hooks: Hooks, k: nat,
                              chunks: set<nat>)
    requires k <= |elems|
  {
    var pages := PagesOf(runs, elems, k);
    && Covered(runs', Measure.Dirty) == Within(chunks, Covered(runs, Measure.Dirty) - pages)
    && Covered(runs', Idle) == Within(chunks, Covered(runs, Idle))
    && Covered(runs', Decommitted)
       == Within(chunks, (Covered(runs, Decommitted) - pages) + DecommittedOf(runs, elems, hooks, k))
  }

  lemma {:induction false} PagesOfFree(runs: map<PageId, Run>, ring: set<PageId>, cache: set<nat>, elems: seq<Dirty>,
                                       k: nat)
    requires RingExact(runs, ring) && Queued(ring, cache, elems) && k <= |elems|
    ensures PagesOf(runs, elems, k) <= Covered(runs, Idle)
  {
    if k > 0 {
      PagesOfFree(runs, ring, cache, elems, k - 1);
      var e := elems[k - 1];
      if e.DirtyRun? {
        assert e.id in runs && Counts(runs[e.id], Idle);
      }
    }
  }

  /** What a move takes away. */
  lemma MovedAway(cfg: Config, chunks: set<nat>, runs: map<PageId, Run>, runs': map<PageId, Run>, pages: set<PageId>,
                  kind: Kind, m: Measure)
    requires AllFit(cfg, chunks, runs) && Moved(runs, runs', pages, kind, chunks) && !Counts(Run(1, kind), m)
    ensures Covered(runs', m) == Covered(runs, m) - pages
  {
    assert MovedFor(runs, runs', pages, kind, chunks, m);
    CoveredFits(cfg, chunks, runs, m);
  }

  /** Stashing takes the pages away; giving them back clean makes them free again. */
  lemma StashedPagesGiven(cfg: Config, chunks: set<nat>, runs: map<PageId, Run>, stashed: map<PageId, Run>,
                          runs': map<PageId, Run>, elems: seq<Dirty>, part: seq<Dirty>, hooks: Hooks, k: nat,
                          left: set<nat>)
    requires AllFit(cfg, chunks, runs) && k <= |elems| && k <= |part|
    requires Moved(runs, stashed, PagesOf(runs, elems, k), Large(true, false), chunks)
    requires PagesOf(stashed, part, k) == PagesOf(runs, elems, k) <= Covered(runs, Idle)
    requires DecommittedOf(stashed, part, hooks, k) == DecommittedOf(runs, elems, hooks, k)
    requires CleanPages(stashed, runs', part, hooks, k, left)
    ensures PurgedPages(runs, runs', elems, hooks, k, left)
    ensures Covered(stashed, Measure.Dirty) == Covered(runs, Measure.Dirty) - PagesOf(runs, elems, k)
  {
    var pages := PagesOf(runs, elems, k);
    MovedAway(cfg, chunks, runs, stashed, pages, Large(true, false), Measure.Dirty);
    MovedAway(cfg, chunks, runs, stashed, pages, Large(true, false), Idle);
    MovedAway(cfg, chunks, runs, stashed, pages, Large(true, false), Decommitted);
    assert Covered(runs, Idle) - pages + pages == Covered(runs, Idle);
  }

  lemma StashedThenGiven(cfg: Config, a: Fields, runs: map<PageId, Run>, b: Fields, stashed: map<PageId, Run>,
                         c: Fields, runs': map<PageId, Run>, elems: seq<Dirty>, hooks: Hooks, k: nat)
    requires Consistent(cfg, a, runs) && Queued(a.ring, a.cache, elems) && k <= |elems|
    requires StashedSoFar(cfg, a, runs, b, stashed, elems, k)
    requires GivenPages(b, stashed, c, runs', elems[..k], hooks, k)
    ensures Purged(a, runs, c, runs', elems, hooks, k)
    ensures Covered(stashed, Measure.Dirty) == Covered(runs, Measure.Dirty) - PagesOf(runs, elems, k)
    ensures b.maps.Keys == a.maps.Keys && b.cache == a.cache - ChunksOf(elems, k)
  {
    assert AllFit(cfg, a.maps.Keys, runs) && PagesOf(runs, elems, k) <= Covered(runs, Idle) by {
      assert Open(0);
      PagesOfFree(runs, a.ring, a.cache, elems, k);
    }
    StashedSame(cfg, a, runs, b, stashed, elems, hooks, k);
    StashedPagesGiven(cfg, a.maps.Keys, runs, stashed, runs', elems, elems[..k], hooks, k, c.maps.Keys);
  }

  lemma StashedSame(cfg: Config, a: Fields, runs: map<PageId, Run>, b: Fields, stashed: map<PageId, Run>,
                    elems: seq<Dirty>, hooks: Hooks, k: nat)
    requires k <= |elems| && StashedSoFar(cfg, a, runs, b, stashed, elems, k)
    ensures StashedPages(a, runs, b, stashed, elems, k)
    ensures PagesOf(stashed, elems[..k], k) == PagesOf(runs, elems, k)
    ensures DecommittedOf(stashed, elems[..k], hooks, k) == DecommittedOf(runs, elems, hooks, k)
    ensures ZeroedOf(stashed, elems[..k], hooks, k) == ZeroedOf(runs, elems, hooks, k)
  {
    assert Inside(0);
    assert elems[..k][..k] == elems[..k];
    PagesSame(runs, stashed, elems, elems[..k], hooks, k);
  }

  lemma StashedClear(cfg: Config, a: Fields, runs: map<PageId, Run>, b: Fields, stashed: map<PageId, Run>, c: Fields,
                     runs': map<PageId, Run>, elems: seq<Dirty>, hooks: Hooks, k: nat)
    requires k <= |elems| && StashedSoFar(cfg, a, runs, b, stashed, elems, k)
    requires ClearFrom(b.maps, stashed, c.maps, runs', ZeroedOf(stashed, elems[..k], hooks, k))
    ensures ClearFrom(a.maps, runs, c.maps, runs', ZeroedOf(runs, elems, hooks, k))
  {
    StashedSame(cfg, a, runs, b, stashed, elems, hooks, k);
    var zeroed := ZeroedOf(runs, elems, hooks, k);
    ClearTwice(a.maps, runs, b.maps, stashed, c.maps, runs', {}, zeroed);
    assert {} + zeroed == zeroed;
  }

  lemma PurgedZero(cfg: Config, a: Fields, runs: map<PageId, Run>, b: Fields, runs': map<PageId, Run>,
                   elems: seq<Dirty>, hooks: Hooks, k: nat)
    requires Consistent(cfg, a, runs) && Consistent(cfg, b, runs') && k <= |elems|
    requires Purged(a, runs, b, runs', elems, hooks, k)
    requires ClearFrom(a.maps, runs, b.maps, runs', ZeroedOf(runs, elems, hooks, k))
    ensures ZeroKept(a.maps, runs, b.maps, runs', ZeroedOf(runs, elems, hooks, k))
  {
    assert AllApart(runs) && Settled(runs) by { assert Open(0); }
    assert AllApart(runs') by { assert Open(0); }
    forall x ensures WasFree(a.maps, runs, runs', x) { }
    FreeClearFrom(a.maps, runs, b.maps, runs', ZeroedOf(runs, elems, hooks, k));
  }

  /** A purged run is not in the dirty ring. */
  lemma {:induction false} PurgedOffRing(cfg: Config, a: Fields, runs: map<PageId, Run>, b: Fields,
                                         runs': map<PageId, Run>, elems: seq<Dirty>, hooks: Hooks, k: nat, j: nat)
    requires Consistent(cfg, a, runs) && Consistent(cfg, b, runs') && Queued(a.ring, a.cache, elems) && k <= |elems|
    requires Purged(a, runs, b, runs', elems, hooks, k) && j < k && elems[j].DirtyRun?
    ensures elems[j].id !in b.ring
  {
    var id := elems[j].id;
    RingFacts(cfg, a, runs, id);
    PageOf(runs, elems, k, j);
    assert id !in Covered(runs', Measure.Dirty);
    if id in b.ring {
      RingCovered(cfg, b, runs', id);
    }
  }

  lemma RingCovered(cfg: Config, a: Fields, runs: map<PageId, Run>, id: PageId)
    requires Consistent(cfg, a, runs) && id in a.ring
    ensures id in Covered(runs, Measure.Dirty)
  {
    RingFacts(cfg, a, runs, id);
    assert id == Page(id.chunk, id.ind) && id in Interval(id, runs[id].n);
  }

  lemma {:induction false} PageOf(runs: map<PageId, Run>, elems: seq<Dirty>, k: nat, j: nat)
    requires j < k <= |elems| && elems[j].DirtyRun? && elems[j].id in runs
    ensures Interval(elems[j].id, runs[elems[j].id].n) <= PagesOf(runs, elems, k)
    ensures 1 <= runs[elems[j].id].n ==> elems[j].id in PagesOf(runs, elems, k)
  {
    var id := elems[j].id;
    if j < k - 1 {
      PageOf(runs, elems, k - 1, j);
    } else if 1 <= runs[id].n {
      assert id == Page(id.chunk, id.ind) && id in Interval(id, runs[id].n);
    }
  }

  /** A purged page lies in a free run that is not dirty. */
  lemma PurgedLies(cfg: Config, a: Fields, runs: map<PageId, Run>, b: Fields, runs': map<PageId, Run>,
                   elems: seq<Dirty>, hooks: Hooks, k: nat, x: PageId)
    requires Consistent(cfg, a, runs) && Consistent(cfg, b, runs') && Queued(a.ring, a.cache, elems) && k <= |elems|
    requires Purged(a, runs, b, runs', elems, hooks, k) && x in PagesOf(runs, elems, k) && x.chunk in b.maps
    ensures exists y :: y in runs' && x in Interval(y, runs'[y].n) && runs'[y].kind.Free? && !runs'[y].kind.dirty
  {
    assert RingExact(runs, a.ring) by { assert Open(0); }
    assert AllApart(runs') && Settled(runs') by { assert Open(0); }
    PagesOfFree(runs, a.ring, a.cache, elems, k);
    assert x in Covered(runs', Idle) && x !in Covered(runs', Measure.Dirty);
    var y :| y in runs' && Counts(runs'[y], Idle) && x in Interval(y, runs'[y].n);
    OnlyRun(runs', x, y, Measure.Dirty);
  }

  /** arena_purge_to_limit, when no other thread intervenes: the first elements of the ring are purged, up to where
      arena_stash_dirty stops, and no allocation is disturbed. */
  method PurgeToLimit(cfg: Config, a: Fields, ghost runs: map<PageId, Run>, elems: seq<Dirty>, limit: nat,
                      mode: Mode, hooks: Hooks)
    returns (b: Fields, ghost runs': map<PageId, Run>, k: nat)
    requires Consistent(cfg, a, runs) && Queued(a.ring, a.cache, elems)
    ensures Consistent(cfg, b, runs') && Live(runs') == Live(runs) && b.nactive == a.nactive
    ensures StopsAt(mode, a.ndirty, Sizes(cfg, runs, elems), limit, k)
    ensures Purged(a, runs, b, runs', elems, hooks, k)
    ensures forall j :: 0 <= j < k && elems[j].DirtyRun? ==> elems[j].id !in b.ring
    ensures b.ndirty == a.ndirty - Prefix(Sizes(cfg, runs, elems), k) + PurgeShare(cfg, a, runs, b, elems, k)
    ensures ZeroKept(a.maps, runs, b.maps, runs', ZeroedOf(runs, elems, hooks, k))
  {
    var npurge;
    b, runs', k, npurge := StashDirty(cfg, a, runs, elems, limit, mode);
    StashedReady(cfg, a, runs, b, runs', elems, k);
    assert Distinct(elems[..k]);
    ghost var b0, stashed := b, runs';
    b, runs' := FinishPurge(cfg, b, runs', elems[..k], npurge, hooks);
    StashedThenGiven(cfg, a, runs, b0, stashed, b, runs', elems, hooks, k);
    StashedClear(cfg, a, runs, b0, stashed, b, runs', elems, hooks, k);
    PurgedZero(cfg, a, runs, b, runs', elems, hooks, k);
    forall j | 0 <= j < k && elems[j].DirtyRun?
      ensures elems[j].id !in b.ring
    {
      PurgedOffRing(cfg, a, runs, b, runs', elems, hooks, k, j);
    }
  }

  /** The share of the chunks that have left meanwhile: their dirty pages, but for the purged ones, are no longer
      counted, and all pages of those that went to the cache are. */
  ghost function PurgeShare(cfg: Config, a: Fields, runs: map<PageId, Run>, b: Fields, elems: seq<Dirty>, k: nat): int
    requires k <= |elems|
  {
    var dirty := Covered(runs, Measure.Dirty) - PagesOf(runs, elems, k);
    CachePages(cfg, b.cache - (a.cache - ChunksOf(elems, k))) - |dirty - Within(b.maps.Keys, dirty)|
  }

  lemma NoChunkLeft(cfg: Config, a: Fields, runs: map<PageId, Run>, b: Fields, elems: seq<Dirty>, k: nat)
    requires AllFit(cfg, a.maps.Keys, runs) && k <= |elems|
    requires b.maps.Keys == a.maps.Keys && b.cache == a.cache - ChunksOf(elems, k)
    ensures PurgeShare(cfg, a, runs, b, elems, k) == 0
  {
    CoveredFits(cfg, a.maps.Keys, runs, Measure.Dirty);
    NoneOutside(Covered(runs, Measure.Dirty), PagesOf(runs, elems, k), b.maps.Keys);
    assert b.cache - (a.cache - ChunksOf(elems, k)) == {} && CachePages(cfg, {}) == 0;
  }

  /** If no chunk has left, the number of dirty pages has fallen by those of the elements. */
  lemma NoShare(cfg: Config, a: Fields, runs: map<PageId, Run>, b: Fields, runs': map<PageId, Run>, elems: seq<Dirty>,
                hooks: Hooks, k: nat)
    requires Consistent(cfg, a, runs) && k <= |elems| && Purged(a, runs, b, runs', elems, hooks, k)
    requires b.maps.Keys == a.maps.Keys
    ensures PurgeShare(cfg, a, runs, b, elems, k) == 0
  {
    assert AllFit(cfg, a.maps.Keys, runs) by { assert Open(0); }
    NoChunkLeft(cfg, a, runs, b, elems, k);
  }

  lemma NoneOutside(pages: set<PageId>, less: set<PageId>, chunks: set<nat>)
    requires Within(chunks, pages) == pages
    ensures (pages - less) - Within(chunks, pages - less) == {}
  {
    assert forall x :: x in pages ==> x in Within(chunks, pages);
  }

  // ---------------------------------------------------------------- the limits

  lemma {:induction false} PrefixGrows(sizes: seq<nat>, i: nat, j: nat)
    requires i <= j <= |sizes|
    ensures Prefix(sizes, i) <= Prefix(sizes, j)
    decreases j
  {
    if i < j {
      PrefixGrows(sizes, i, j - 1);
    }
  }

  /** What is left of the dirty pages after stashing element `j`, less what is stashed before it once more. */
  function Gap(sizes: seq<nat>, j: nat): int
    requires j < |sizes|
  {
    Sum(sizes) - Prefix(sizes, j) - (Prefix(sizes, j) + sizes[j])
  }

  lemma GapRead(sizes: seq<nat>, limit: nat, j: nat)
    requires j < |sizes| && Sum(sizes) < SIZE_T && Sum(sizes) + limit <= SIZE_T
    ensures DecayLeft(Sum(sizes), sizes, j) < limit <==> 0 <= Gap(sizes, j) < limit
    ensures 0 <= Gap(sizes, j) ==> DecayLeft(Sum(sizes), sizes, j) == Gap(sizes, j)
  {
    PrefixGrows(sizes, j, |sizes|);
    PrefixGrows(sizes, j + 1, |sizes|);
  }

  lemma GapFalls(sizes: seq<nat>, i: nat, j: nat)
    requires i < j < |sizes|
    ensures Gap(sizes, j) <= Gap(sizes, i)
  {
    PrefixGrows(sizes, i, j);
    PrefixGrows(sizes, i + 1, j);
  }

  /** In decay mode the comment promises that ndirty does not fall below the limit.  That is so exactly if the
      difference the loop computes comes to lie between zero and the limit for some element; otherwise it wraps around
      before it is below the limit, and everything is stashed. */
  lemma DecayKeepsLimitIff(sizes: seq<nat>, limit: nat, k: nat)
    requires limit <= Sum(sizes) < SIZE_T && Sum(sizes) + limit <= SIZE_T
    requires StopsAt(Decay, Sum(sizes), sizes, limit, k)
    ensures limit <= Sum(sizes) - Prefix(sizes, k) <==>
            limit == 0 || exists j :: 0 <= j < |sizes| && 0 <= Gap(sizes, j) < limit
  {
    PrefixGrows(sizes, k, |sizes|);
    if j :| 0 <= j < |sizes| && 0 <= Gap(sizes, j) < limit {
      GapRead(sizes, limit, j);
      assert k <= j;
      if k > 0 {
        GapRead(sizes, limit, k - 1);
        if k - 1 < j {
          GapFalls(sizes, k - 1, j);
        }
      }
    } else if limit > 0 && k < |sizes| {
      GapRead(sizes, limit, k);
    }
  }

  /** The same of the arena: what arena_stash_dirty leaves of ndirty. */
  lemma PurgeKeepsLimitIff(cfg: Config, a: Fields, runs: map<PageId, Run>, elems: seq<Dirty>, limit: nat, k: nat)
    requires Consistent(cfg, a, runs) && Complete(a.ring, a.cache, elems)
    requires limit <= a.ndirty < SIZE_T && a.ndirty + limit <= SIZE_T
    requires StopsAt(Decay, a.ndirty, Sizes(cfg, runs, elems), limit, k)
    ensures var sizes := Sizes(cfg, runs, elems);
            limit <= a.ndirty - Prefix(sizes, k) <==>
            limit == 0 || exists j :: 0 <= j < |sizes| && 0 <= Gap(sizes, j) < limit
  {
    DirtyTotal(cfg, a, runs, elems);
    DecayKeepsLimitIff(Sizes(cfg, runs, elems), limit, k);
  }

  /** In ratio mode the comment promises that ndirty falls to the limit.  That is so exactly if the loop does not stop,
      for what is stashed counts twice, while there is more than the limit left. */
  lemma RatioReachesLimitIff(sizes: seq<nat>, limit: nat, k: nat)
    requires Sum(sizes) + limit < SIZE_T && StopsAt(Ratio, Sum(sizes), sizes, limit, k)
    ensures Sum(sizes) - Prefix(sizes, k) <= limit <==>
            forall j :: 1 <= j <= |sizes| && 0 <= Sum(sizes) - 2 * Prefix(sizes, j) <= limit ==>
                          Sum(sizes) - Prefix(sizes, j) <= limit
  {
    PrefixGrows(sizes, k, |sizes|);
    forall j | 1 <= j <= |sizes|
      ensures RatioLeft(Sum(sizes), sizes, j) <= limit <==> 0 <= Sum(sizes) - 2 * Prefix(sizes, j) <= limit
      ensures k <= j ==> Prefix(sizes, k) <= Prefix(sizes, j)
    {
      PrefixGrows(sizes, j, |sizes|);
      if k <= j {
        PrefixGrows(sizes, k, j);
      }
    }
  }

  /** The same of the arena. */
  lemma PurgeReachesLimitIff(cfg: Config, a: Fields, runs: map<PageId, Run>, elems: seq<Dirty>, limit: nat, k: nat)
    requires Consistent(cfg, a, runs) && Complete(a.ring, a.cache, elems) && a.ndirty + limit < SIZE_T
    requires StopsAt(Ratio, a.ndirty, Sizes(cfg, runs, elems), limit, k)
    ensures var sizes := Sizes(cfg, runs, elems);
            a.ndirty - Prefix(sizes, k) <= limit <==>
            forall j :: 1 <= j <= |sizes| && 0 <= a.ndirty - 2 * Prefix(sizes, j) <= limit ==>
                          a.ndirty - Prefix(sizes, j) <= limit
  {
    DirtyTotal(cfg, a, runs, elems);
    RatioReachesLimitIff(Sizes(cfg, runs, elems), limit, k);
  }

  // ---------------------------------------------------------------- arenas that miss the limits

  /** An arena that holds nothing but four cached chunks. */
  function FourCached(cfg: Config): Fields
  {
    EmptyFields(cfg).(ndirty := 4 * cfg.npages, cache := {1, 2, 3, 4})
  }

  const FOUR_CHUNKS := [Extent({1}), Extent({2}), Extent({3}), Extent({4})]

  lemma FourState(cfg: Config)
    ensures CacheInsert(cfg, St(EmptyFields(cfg), map[]), {1, 2, 3, 4}) == St(FourCached(cfg), map[])
  {
    assert CachePages(cfg, {1, 2, 3, 4}) == 4 * cfg.npages;
  }

  lemma EmptyInv(cfg: Config)
    requires ValidConfig(cfg)
    ensures Inv(cfg, St(EmptyFields(cfg), map[]))
  {
    EmptyConsistent(cfg);
    assert Open(0);
  }

  lemma FourInv(cfg: Config)
    requires ValidConfig(cfg)
    ensures Inv(cfg, St(FourCached(cfg), map[]))
  {
    EmptyInv(cfg);
    FourState(cfg);
    CacheInsertInv(cfg, St(EmptyFields(cfg), map[]), {1, 2, 3, 4});
  }

  lemma FourConsistent(cfg: Config)
    requires ValidConfig(cfg)
    ensures Consistent(cfg, FourCached(cfg), map[])
  {
    FourInv(cfg);
    assert Described(cfg, FourCached(cfg).maps, map[]);
    IsConsistent(cfg, FourCached(cfg), map[]);
  }

  lemma FourQueued()
    ensures Queued({}, {1, 2, 3, 4}, FOUR_CHUNKS)
  {
    var es := FOUR_CHUNKS;
    assert es[0].chunks == {1} && es[1].chunks == {2} && es[2].chunks == {3} && es[3].chunks == {4};
    assert {1} !! {2} && {1} !! {3} && {1} !! {4} && {2} !! {3} && {2} !! {4} && {3} !! {4};
  }

  lemma FourComplete()
    ensures Complete({}, {1, 2, 3, 4}, FOUR_CHUNKS)
  {
    FourQueued();
    var es := FOUR_CHUNKS;
    assert es[0].Extent? && 1 in es[0].chunks;
    assert es[1].Extent? && 2 in es[1].chunks;
    assert es[2].Extent? && 3 in es[2].chunks;
    assert es[3].Extent? && 4 in es[3].chunks;
  }

  lemma FourSizes(cfg: Config)
    ensures Sizes(cfg, map[], FOUR_CHUNKS) == [cfg.npages, cfg.npages, cfg.npages, cfg.npages]
  {
    var es := FOUR_CHUNKS;
    assert CachePages(cfg, es[0].chunks) == CachePages(cfg, es[1].chunks) == cfg.npages;
    assert CachePages(cfg, es[2].chunks) == CachePages(cfg, es[3].chunks) == cfg.npages;
  }

  /** Four times the same number of pages. */
  lemma FourPrefixes(n: nat)
    ensures var s := [n, n, n, n];
            && Prefix(s, 0) == 0 && Prefix(s, 1) == n && Prefix(s, 2) == 2 * n
            && Prefix(s, 3) == 3 * n && Prefix(s, 4) == 4 * n
  {
  }

  lemma FourOvershoot(n: nat)
    requires 1 <= n && 8 * n <= SIZE_T
    ensures StopsAt(Decay, 4 * n, [n, n, n, n], n, 4) && 4 * n - Prefix([n, n, n, n], 4) < n
  {
    FourPrefixes(n);
    var s: seq<nat> := [n, n, n, n];
    assert DecayLeft(4 * n, s, 0) == 3 * n;
    assert DecayLeft(4 * n, s, 1) == n;
    assert DecayLeft(4 * n, s, 2) == SIZE_T - n;
    assert DecayLeft(4 * n, s, 3) == SIZE_T - 3 * n;
  }

  lemma FourStopShort(n: nat)
    requires 1 <= n && 8 * n <= SIZE_T
    ensures StopsAt(Decay, 4 * n, [n, n, n, n], 2 * n, 1) && 2 * n <= 4 * n - Prefix([n, n, n, n], 2)
  {
    FourPrefixes(n);
    var s: seq<nat> := [n, n, n, n];
    assert DecayLeft(4 * n, s, 0) == 3 * n;
    assert DecayLeft(4 * n, s, 1) == n;
  }

  lemma FourFallShort(n: nat)
    requires 1 <= n && 8 * n <= SIZE_T
    ensures StopsAt(Ratio, 4 * n, [n, n, n, n], n, 2) && n < 4 * n - Prefix([n, n, n, n], 2)
  {
    FourPrefixes(n);
    var s: seq<nat> := [n, n, n, n];
    assert RatioLeft(4 * n, s, 1) == 2 * n;
    assert RatioLeft(4 * n, s, 2) == 0;
  }

  /** An arena as the operations leave it, and its dirty ring. */
  ghost predicate IsArena(cfg: Config, a: Fields, runs: map<PageId, Run>, elems: seq<Dirty>)
  {
    forall key {:trigger Inside(key)} :: Inside(key) ==> Consistent(cfg, a, runs) && Complete(a.ring, a.cache, elems)
  }

  lemma FourIsArena(cfg: Config)
    requires ValidConfig(cfg)
    ensures IsArena(cfg, FourCached(cfg), map[], FOUR_CHUNKS)
  {
    FourConsistent(cfg);
    FourComplete();
  }

  /** With room for one chunk, decay mode purges all four. */
  lemma DecayOvershoots(cfg: Config)
    requires ValidConfig(cfg) && 8 * cfg.npages <= SIZE_T
    ensures var a, sizes := FourCached(cfg), Sizes(cfg, map[], FOUR_CHUNKS);
            && IsArena(cfg, a, map[], FOUR_CHUNKS)
            && StopsAt(Decay, a.ndirty, sizes, cfg.npages, 4) && a.ndirty - Prefix(sizes, 4) < cfg.npages
  {
    FourIsArena(cfg);
    FourSizes(cfg);
    FourOvershoot(cfg.npages);
  }

  /** With room for two it purges one, though two could go. */
  lemma DecayStopsShort(cfg: Config)
    requires ValidConfig(cfg) && 8 * cfg.npages <= SIZE_T
    ensures var a, sizes := FourCached(cfg), Sizes(cfg, map[], FOUR_CHUNKS);
            && IsArena(cfg, a, map[], FOUR_CHUNKS)
            && StopsAt(Decay, a.ndirty, sizes, 2 * cfg.npages, 1) && 2 * cfg.npages <= a.ndirty - Prefix(sizes, 2)
  {
    FourIsArena(cfg);
    FourSizes(cfg);
    FourStopShort(cfg.npages);
  }

  /** With room for one, ratio mode leaves two. */
  lemma RatioFallsShort(cfg: Config)
    requires ValidConfig(cfg) && 8 * cfg.npages <= SIZE_T
    ensures var a, sizes := FourCached(cfg), Sizes(cfg, map[], FOUR_CHUNKS);
            && IsArena(cfg, a, map[], FOUR_CHUNKS)
            && StopsAt(Ratio, a.ndirty, sizes, cfg.npages, 2) && cfg.npages < a.ndirty - Prefix(sizes, 2)
  {
    FourIsArena(cfg);
    FourSizes(cfg);
    FourFallShort(cfg.npages);
  }
}
