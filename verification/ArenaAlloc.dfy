/** Choosing and allocating runs: best fit, new chunks and the spare, and aligned allocation by trimming.
 */
module ArenaAlloc {
  import opened Basics
  import opened Arith
  import opened SizeClasses
  import opened ArenaState
  import opened ArenaPages
  import opened ArenaZero
  import opened PageMap
  import opened ArenaRuns

  // ---------------------------------------------------------------- first best fit

  function SerialNumber(sn: map<nat, nat>, c: nat): nat
  {
    if c in sn then sn[c] else 0
  }

  /** arena_snad_comp: older chunks first, then lower addresses. */
  predicate SnadBefore(sn: map<nat, nat>, x: PageId, y: PageId)
  {
    var a, b := SerialNumber(sn, x.chunk), SerialNumber(sn, y.chunk);
    a < b || (a == b && (x.chunk < y.chunk || (x.chunk == y.chunk && x.ind < y.ind)))
  }

  /** No run of the heap is in an older chunk, and none in a chunk of the same age is at a lower address. */
  ghost predicate IsFirst(sn: map<nat, nat>, heap: set<PageId>, id: PageId)
  {
    && id in heap
    && forall y :: y in heap ==>
         && SerialNumber(sn, id.chunk) <= SerialNumber(sn, y.chunk)
         && (SerialNumber(sn, id.chunk) == SerialNumber(sn, y.chunk) ==>
               id.chunk <= y.chunk && (id.chunk == y.chunk ==> id.ind <= y.ind))
  }

  /** arena_run_heap_first. */
  method HeapFirst(sn: map<nat, nat>, heap: set<PageId>) returns (r: Option<PageId>)
    ensures r.None? <==> heap == {}
    ensures r.Some? ==> IsFirst(sn, heap, r.value)
  {
    if heap == {} {
      return None;
    }
    var best :| best in heap;
    var rest := heap - {best};
    while rest != {}
      invariant best in heap && rest <= heap
      invariant forall y :: y in heap && y !in rest && y != best ==> SnadBefore(sn, best, y)
      decreases rest
    {
      var x :| x in rest;
      if SnadBefore(sn, x, best) {
        best := x;
      }
      rest := rest - {x};
    }
    r := Some(best);
  }

  lemma CeilReady(cfg: Config, size: nat)
    requires ValidConfig(cfg) && 1 <= size <= MaxRun(cfg)
    ensures size <= cfg.classes[|cfg.classes| - 1]
  {
    var k :| 0 <= k < |cfg.classes| && cfg.classes[k] == cfg.npages;
  }

  ghost function RequestIndex(cfg: Config, size: nat): nat
    requires ValidConfig(cfg) && 1 <= size <= MaxRun(cfg)
  {
    CeilReady(cfg, size);
    Psz2Ind(cfg.classes, RunQuantizeCeil(cfg.classes, cfg.pad, size))
  }

  ghost predicate FirstNonEmpty(cfg: Config, sn: map<nat, nat>, avail: seq<set<PageId>>, from: nat, i: nat, id: PageId)
  {
    && from <= i < |avail| && i < |cfg.classes| && cfg.classes[i] <= cfg.npages
    && IsFirst(sn, avail[i], id) && forall j :: from <= j < i ==> avail[j] == {}
  }

  /** `r` is the first run of the first non-empty heap at or above the quantized request,
      or nothing when all heaps up to the chunk size are empty. */
  ghost predicate BestFit(cfg: Config, sn: map<nat, nat>, avail: seq<set<PageId>>, size: nat, r: Option<PageId>)
    requires ValidConfig(cfg) && 1 <= size <= MaxRun(cfg)
  {
    && |avail| == |cfg.classes|
    && (r.Some? ==> exists i :: FirstNonEmpty(cfg, sn, avail, RequestIndex(cfg, size), i, r.value))
    && (r.None? ==> forall i :: RequestIndex(cfg, size) <= i < |avail| && cfg.classes[i] <= cfg.npages ==>
        avail[i] == {})
  }

  /** arena_run_first_best_fit. */
  method RunFirstBestFit(cfg: Config, sn: map<nat, nat>, avail: seq<set<PageId>>, size: nat) returns (r: Option<PageId>)
    requires ValidConfig(cfg) && |avail| == |cfg.classes| && 1 <= size <= MaxRun(cfg)
    ensures BestFit(cfg, sn, avail, size, r)
  {
    CeilReady(cfg, size);
    var i := Psz2Ind(cfg.classes, RunQuantizeCeil(cfg.classes, cfg.pad, size));
    ghost var pind := RequestIndex(cfg, size);
    while i < |cfg.classes| && cfg.classes[i] <= cfg.npages
      invariant pind <= i <= |cfg.classes|
      invariant forall j :: pind <= j < i ==> avail[j] == {}
    {
      var first := HeapFirst(sn, avail[i]);
      if first.Some? {
        assert FirstNonEmpty(cfg, sn, avail, pind, i, first.value);
        return first;
      }
      i := i + 1;
    }
    r := None;
  }

  /** At most one run is the best fit. */
  lemma BestFitUnique(cfg: Config, sn: map<nat, nat>, avail: seq<set<PageId>>, size: nat, r: Option<PageId>,
                      r': Option<PageId>)
    requires ValidConfig(cfg) && 1 <= size <= MaxRun(cfg)
    requires BestFit(cfg, sn, avail, size, r) && BestFit(cfg, sn, avail, size, r')
    ensures r == r'
  {
    if r.Some? && r'.Some? {
      var i :| FirstNonEmpty(cfg, sn, avail, RequestIndex(cfg, size), i, r.value);
      var j :| FirstNonEmpty(cfg, sn, avail, RequestIndex(cfg, size), j, r'.value);
      assert i == j;
    }
  }

  lemma BestFitIndex(cfg: Config, sn: map<nat, nat>, s: State, size: nat, id: PageId) returns (i: nat)
    requires Inv(cfg, s) && 1 <= size <= MaxRun(cfg) && BestFit(cfg, sn, s.avail, size, Some(id))
    ensures InAvail(s.runs, s.spare, id) && 1 <= s.runs[id].n && i == RunIndex(cfg.classes, cfg.pad, s.runs[id].n)
    ensures RequestIndex(cfg, size) <= i < |s.avail|
    ensures forall j :: RequestIndex(cfg, size) <= j < i ==> s.avail[j] == {}
  {
    i :| FirstNonEmpty(cfg, sn, s.avail, RequestIndex(cfg, size), i, id);
    assert BelongsIn(cfg, s.runs, s.spare, id, i);
  }

  /** Soundness: the run found is free, outside the spare, and large enough. */
  lemma BestFitSound(cfg: Config, sn: map<nat, nat>, s: State, size: nat, id: PageId)
    requires Inv(cfg, s) && 1 <= size <= MaxRun(cfg) && BestFit(cfg, sn, s.avail, size, Some(id))
    ensures CanSplit(cfg, s, id, size)
  {
    var i := BestFitIndex(cfg, sn, s, size, id);
    CeilReady(cfg, size);
    HeapIndexSound(cfg.classes, cfg.pad, size, s.runs[id].n);
  }

  /** Best fit: no other adequately indexed run has a smaller quantized size. */
  lemma BestFitSmallest(cfg: Config, sn: map<nat, nat>, s: State, size: nat, id: PageId, x: PageId)
    requires Inv(cfg, s) && 1 <= size <= MaxRun(cfg) && BestFit(cfg, sn, s.avail, size, Some(id))
    requires InAvail(s.runs, s.spare, x) && 1 <= s.runs[x].n
    requires RequestIndex(cfg, size) <= RunIndex(cfg.classes, cfg.pad, s.runs[x].n)
    ensures id in s.runs && 1 <= s.runs[id].n
    ensures RunQuantizeFloor(cfg.classes, cfg.pad, s.runs[id].n) <= RunQuantizeFloor(cfg.classes, cfg.pad, s.runs[x].n)
  {
    var i := BestFitIndex(cfg, sn, s, size, id);
    var k := RunIndex(cfg.classes, cfg.pad, s.runs[x].n);
    assert k < |s.avail| ==> (x in s.avail[k] <==> BelongsIn(cfg, s.runs, s.spare, x, k));
    assert i <= k;
    if RunQuantizeFloor(cfg.classes, cfg.pad, s.runs[x].n) < RunQuantizeFloor(cfg.classes, cfg.pad, s.runs[id].n) {
      IndexSeparates(cfg.classes, cfg.pad, s.runs[x].n, s.runs[id].n);
    }
  }

  /** Completeness: for a request that quantizes to itself, finding nothing means no free run is large enough. */
  lemma BestFitComplete(cfg: Config, sn: map<nat, nat>, s: State, size: nat, x: PageId)
    requires Inv(cfg, s) && 1 <= size <= MaxRun(cfg)
    requires RunQuantizeFloor(cfg.classes, cfg.pad, size) == size
    requires BestFit(cfg, sn, s.avail, size, None)
    requires InAvail(s.runs, s.spare, x)
    ensures s.runs[x].n < size
  {
    CeilReady(cfg, size);
    HeapIndexComplete(cfg.classes, cfg.pad, size);
    assert Fits(cfg, s.chunks, x, s.runs[x]);
    var k := RunIndex(cfg.classes, cfg.pad, s.runs[x].n);
    IndexFits(cfg, s.runs[x].n);
    assert x in s.avail[k] <==> BelongsIn(cfg, s.runs, s.spare, x, k);
  }

  // ---------------------------------------------------------------- new chunks

  /** What the chunk layer offers when the arena asks for a chunk.  `extent` is the cached extent that the chunk is cut
      from, as its chunks, or nothing if it does not come from the chunk cache. */
  datatype ChunkSource =
    | NoChunk
    | NewChunk(addr: nat, sn: nat, zeroed: bool, committed: bool, extent: set<nat>)

  /** arena_chunk_cache_maybe_insert, for an extent of whole chunks. */
  method CacheMaybeInsert(cfg: Config, a: Fields, ghost runs: map<PageId, Run>, extent: set<nat>) returns (b: Fields)
    requires Valid(cfg, a, runs) && extent !! a.cache && extent !! a.maps.Keys
    ensures Valid(cfg, b, runs) && b == a.(ndirty := a.ndirty + CachePages(cfg, extent), cache := a.cache + extent)
  {
    assert Open(0);
    CacheInsertInv(cfg, St(a, runs), extent);
    b := a.(ndirty := a.ndirty + CachePages(cfg, extent), cache := a.cache + extent);
    assert St(b, runs) == CacheInsert(cfg, St(a, runs), extent);
  }

  /** arena_chunk_cache_maybe_remove, for an extent that is in the cache. */
  method CacheMaybeRemove(cfg: Config, a: Fields, ghost runs: map<PageId, Run>, extent: set<nat>) returns (b: Fields)
    requires Valid(cfg, a, runs) && extent <= a.cache
    ensures Valid(cfg, b, runs) && b == a.(ndirty := a.ndirty - CachePages(cfg, extent), cache := a.cache - extent)
  {
    assert Open(0);
    CacheRemoveInv(cfg, St(a, runs), extent);
    assert a.ndirty >= CachePages(cfg, extent);
    b := a.(ndirty := a.ndirty - CachePages(cfg, extent), cache := a.cache - extent);
    assert St(b, runs) == CacheRemove(cfg, St(a, runs), extent);
  }

  lemma CacheElsewhere(cfg: Config, a: Fields, runs: map<PageId, Run>)
    requires Valid(cfg, a, runs)
    ensures a.cache !! a.maps.Keys
  {
    assert Open(0);
  }

  /** What chunk_recycle does to the cache: the extent leaves it, and all but the one chunk goes back. */
  method TakeFromCache(cfg: Config, a: Fields, ghost runs: map<PageId, Run>, c: nat, extent: set<nat>)
    returns (b: Fields)
    requires Valid(cfg, a, runs) && c in extent && extent <= a.cache
    ensures Valid(cfg, b, runs) && b == a.(ndirty := a.ndirty - cfg.npages, cache := a.cache - {c})
  {
    CacheElsewhere(cfg, a, runs);
    b := CacheMaybeRemove(cfg, a, runs, extent);
    b := CacheMaybeInsert(cfg, b, runs, extent - {c});
    CachePagesSum(cfg, extent - {c}, {c});
    assert extent - {c} + {c} == extent && a.cache - extent + (extent - {c}) == a.cache - {c};
    assert CachePages(cfg, {c}) == cfg.npages;
  }

  /** arena_chunk_init_hard writes the page map of a new chunk: one maximal free run.
      The decommitted flag is only written on the first entry. */
  method InitPageMap(cfg: Config, zeroed: bool, committed: bool) returns (m: seq<MapBits>)
    requires ValidConfig(cfg)
    ensures |m| == cfg.npages
    ensures Describes(cfg, m, cfg.bias, Run(MaxRun(cfg), Free(false, !committed && 1 < MaxRun(cfg))))
    ensures !zeroed && committed ==> forall q :: cfg.bias <= q < cfg.npages ==> m[q].unzeroed
  {
    var unzeroed := !zeroed && committed;
    m := seq(cfg.npages, i => InternalBits(false));
    m := m[cfg.bias := UnallocatedBits(cfg.npages - cfg.bias, false, unzeroed, !committed)];
    if !zeroed {
      var i := cfg.bias + 1;
      while i < cfg.npages - 1
        invariant cfg.bias < i && |m| == cfg.npages
        invariant m[cfg.bias] == UnallocatedBits(cfg.npages - cfg.bias, false, unzeroed, !committed)
        invariant forall q :: cfg.bias < q < i && q < cfg.npages ==> m[q].unzeroed == unzeroed
      {
        m := m[i := InternalBits(unzeroed)];
        i := i + 1;
      }
    }
    m := m[cfg.npages - 1 := UnallocatedBits(cfg.npages - cfg.bias, false, unzeroed, false)];
  }

  /** The chunk is not the arena's, and in the cache exactly if it comes from there. */
  ghost predicate CanOffer(a: Fields, source: ChunkSource)
  {
    source.NewChunk? ==>
      && source.addr !in a.maps
      && if source.extent == {} then source.addr !in a.cache
         else source.addr in source.extent && source.extent <= a.cache
  }

  lemma AddFields(cfg: Config, a: Fields, runs: map<PageId, Run>, c: nat, m: seq<MapBits>, decommitted: bool, b: Fields)
    requires cfg.pad <= 1 && cfg.bias < cfg.npages
    requires b == a.(maps := a.maps[c := m], avail := AvailInsert(cfg, a.avail, Page(c, cfg.bias), MaxRun(cfg)))
    ensures St(b, runs[Page(c, cfg.bias) := Run(MaxRun(cfg), Free(false, decommitted))])
         == AddChunk(cfg, St(a, runs), c, decommitted)
    ensures Settled(runs) ==> Settled(runs[Page(c, cfg.bias) := Run(MaxRun(cfg), Free(false, decommitted))])
  {
    assert b.maps.Keys == a.maps.Keys + {c};
  }

  /** The runs when the chunk is added: one free run, decommitted unless the chunk is committed or has but one page. */
  ghost function WithChunk(cfg: Config, runs: map<PageId, Run>, source: ChunkSource): map<PageId, Run>
    requires cfg.bias <= cfg.npages && source.NewChunk?
  {
    runs[Page(source.addr, cfg.bias) := Run(MaxRun(cfg), Free(false, !source.committed && 1 < MaxRun(cfg)))]
  }

  /** arena_chunk_init_hard, once arena_chunk_alloc_internal has a chunk. */
  method ChunkInitHard(cfg: Config, a: Fields, ghost runs: map<PageId, Run>, source: ChunkSource)
    returns (b: Fields, ghost runs': map<PageId, Run>)
    requires Valid(cfg, a, runs) && source.NewChunk? && CanOffer(a, source)
    ensures Valid(cfg, b, runs') && (Settled(runs) ==> Settled(runs')) && Live(runs') == Live(runs)
            && b.nactive == a.nactive
    ensures var id := Page(source.addr, cfg.bias);
            InAvail(runs', b.spare, id)
            && runs'[id] == Run(MaxRun(cfg), Free(false, !source.committed && 1 < MaxRun(cfg)))
    ensures b.cache == a.cache - {source.addr} && b.maps.Keys == a.maps.Keys + {source.addr} && b.spare == a.spare
    ensures runs' == WithChunk(cfg, runs, source)
    ensures ClearFrom(a.maps, runs, b.maps, runs', ZeroChunk(cfg, source.addr, source.zeroed, source.committed))
  {
    var c := source.addr;
    b := a;
    if source.extent != {} {
      b := TakeFromCache(cfg, a, runs, c, source.extent);
    }
    b, runs' := AddNewChunk(cfg, b, runs, c, source.zeroed, source.committed);
  }

  method AddNewChunk(cfg: Config, a: Fields, ghost runs: map<PageId, Run>, c: nat, zeroed: bool, committed: bool)
    returns (b: Fields, ghost runs': map<PageId, Run>)
    requires Valid(cfg, a, runs) && c !in a.maps && c !in a.cache
    ensures Valid(cfg, b, runs') && (Settled(runs) ==> Settled(runs')) && Live(runs') == Live(runs)
            && b.nactive == a.nactive
    ensures InAvail(runs', b.spare, Page(c, cfg.bias))
    ensures runs'[Page(c, cfg.bias)] == Run(MaxRun(cfg), Free(false, !committed && 1 < MaxRun(cfg)))
    ensures b.cache == a.cache && b.maps.Keys == a.maps.Keys + {c} && b.spare == a.spare
    ensures runs' == runs[Page(c, cfg.bias) := Run(MaxRun(cfg), Free(false, !committed && 1 < MaxRun(cfg)))]
    ensures ClearFrom(a.maps, runs, b.maps, runs', ZeroChunk(cfg, c, zeroed, committed))
  {
    var m := InitPageMap(cfg, zeroed, committed);
    b := a.(maps := a.maps[c := m], avail := AvailInsert(cfg, a.avail, Page(c, cfg.bias), cfg.npages - cfg.bias));
    ghost var decommitted := !committed && 1 < MaxRun(cfg);
    runs' := runs[Page(c, cfg.bias) := Run(MaxRun(cfg), Free(false, decommitted))];
    AddedChunk(cfg, a, runs, c, m, decommitted, b);
    AddedClear(cfg, a, runs, c, m, zeroed, committed);
  }

  /** The pages of a new chunk that are zero: all if the chunk is, or if it is not committed, and otherwise none. */
  ghost function ZeroChunk(cfg: Config, c: nat, zeroed: bool, committed: bool): set<PageId>
    requires cfg.bias <= cfg.npages
  {
    if zeroed || !committed then Interval(Page(c, cfg.bias), MaxRun(cfg)) else {}
  }

  lemma AddedClear(cfg: Config, a: Fields, runs: map<PageId, Run>, c: nat, m: seq<MapBits>, zeroed: bool,
                   committed: bool)
    requires Valid(cfg, a, runs) && c !in a.maps && |m| == cfg.npages
    requires !zeroed && committed ==> forall q :: cfg.bias <= q < cfg.npages ==> m[q].unzeroed
    ensures ClearFrom(a.maps, runs, a.maps[c := m],
                      runs[Page(c, cfg.bias) := Run(MaxRun(cfg), Free(false, !committed && 1 < MaxRun(cfg)))],
                      ZeroChunk(cfg, c, zeroed, committed))
  {
    assert forall y :: y in runs ==> y.chunk != c by {
      assert Open(0);
      assert forall y :: y in runs ==> Fits(cfg, a.maps.Keys, y, runs[y]);
    }
    AddClear(a.maps, runs, c, m, Page(c, cfg.bias), Run(MaxRun(cfg), Free(false, !committed && 1 < MaxRun(cfg))),
             ZeroChunk(cfg, c, zeroed, committed));
  }

  lemma AddedChunk(cfg: Config, a: Fields, runs: map<PageId, Run>, c: nat, m: seq<MapBits>, decommitted: bool,
                   b: Fields)
    requires Valid(cfg, a, runs) && c !in a.maps && c !in a.cache
    requires |m| == cfg.npages && Describes(cfg, m, cfg.bias, Run(MaxRun(cfg), Free(false, decommitted)))
    requires b == a.(maps := a.maps[c := m], avail := AvailInsert(cfg, a.avail, Page(c, cfg.bias), MaxRun(cfg)))
    ensures var runs' := runs[Page(c, cfg.bias) := Run(MaxRun(cfg), Free(false, decommitted))];
            Valid(cfg, b, runs') && (Settled(runs) ==> Settled(runs')) && Live(runs') == Live(runs)
            && InAvail(runs', b.spare, Page(c, cfg.bias))
  {
    assert Open(0);
    AddFields(cfg, a, runs, c, m, decommitted, b);
    AddChunkInv(cfg, St(a, runs), c, decommitted);
    DescribedAdd(cfg, a.maps, runs, c, m, Run(MaxRun(cfg), Free(false, decommitted)));
  }

  /** arena_chunk_init_spare. */
  method ChunkInitSpare(cfg: Config, a: Fields, ghost runs: map<PageId, Run>) returns (b: Fields)
    requires Valid(cfg, a, runs) && a.spare.Some?
    ensures Valid(cfg, b, runs) && b == a.(spare := None, avail := b.avail)
    ensures InAvail(runs, None, Page(a.spare.value, cfg.bias)) && runs[Page(a.spare.value, cfg.bias)].n == MaxRun(cfg)
  {
    assert Open(0);
    ReviveInv(cfg, St(a, runs));
    b := a.(spare := None, avail := AvailInsert(cfg, a.avail, Page(a.spare.value, cfg.bias), cfg.npages - cfg.bias));
    assert St(b, runs) == Revive(cfg, St(a, runs));
  }

  // ---------------------------------------------------------------- allocating runs

  /** arena_run_alloc_large and arena_run_alloc_small differ only in how the run is marked. */
  datatype Request = LargeRun(zero: bool) | SmallRun(binind: nat)

  ghost predicate Marked(req: Request, kind: Kind)
  {
    match req
    case LargeRun(_) => kind.Large? && !kind.decommitted
    case SmallRun(binind) => kind == Small(binind)
  }

  /** The client's view: nothing was handed out, or exactly one new run of `size` pages was. */
  ghost predicate HandedOut(before: map<PageId, Run>, after: map<PageId, Run>, size: nat, req: Request,
                            r: Option<PageId>)
  {
    match r
    case None => after == before
    case Some(id) =>
      && id !in before
      && id in after && after[id].n == size && Marked(req, after[id].kind)
      && after == before[id := after[id]]
  }

  ghost function Handed(size: nat, r: Option<PageId>): nat
  {
    if r.Some? then size else 0
  }

  /** The chosen run would have to be committed first, and that fails. */
  ghost predicate CommitRefused(runs: map<PageId, Run>, id: PageId, commitFails: bool)
  {
    id in runs && runs[id].kind.Free? && runs[id].kind.decommitted && commitFails
  }

  /** A mark that lets a proof look inside `NoFit` or `Shrunk`; elsewhere they are kept as one fact. */
  ghost predicate Choosing(key: int)
  {
    true
  }

  /** There is no best fit, or it cannot be committed. */
  ghost predicate NoFit(cfg: Config, sn: map<nat, nat>, a: Fields, runs: map<PageId, Run>, size: nat, commitFails: bool)
    requires ValidConfig(cfg) && 1 <= size <= MaxRun(cfg)
  {
    forall key {:trigger Choosing(key)} :: Choosing(key) ==>
      || BestFit(cfg, sn, a.avail, size, None)
      || exists id :: BestFit(cfg, sn, a.avail, size, Some(id)) && CommitRefused(runs, id, commitFails)
  }

  lemma NoFitIff(cfg: Config, sn: map<nat, nat>, a: Fields, runs: map<PageId, Run>, size: nat, commitFails: bool,
                 fit: Option<PageId>)
    requires ValidConfig(cfg) && 1 <= size <= MaxRun(cfg) && BestFit(cfg, sn, a.avail, size, fit)
    ensures NoFit(cfg, sn, a, runs, size, commitFails) <==> fit.None? || CommitRefused(runs, fit.value, commitFails)
  {
    assert Choosing(0);
    forall x | BestFit(cfg, sn, a.avail, size, x) ensures x == fit { BestFitUnique(cfg, sn, a.avail, size, x, fit); }
  }

  /** How an allocated run is marked, if the pages were dirty or not. */
  function Mark(req: Request, dirty: bool): Kind
  {
    match req
    case LargeRun(_) => Large(dirty, false)
    case SmallRun(binind) => Small(binind)
  }

  /** The first `size` pages of the free run `id` were taken, and no other page. */
  ghost predicate Took(base: map<PageId, Run>, runs: map<PageId, Run>, chunks: set<nat>, size: nat, req: Request,
                       id: PageId)
  {
    && id in base && base[id].kind.Free? && size <= base[id].n
    && id in runs && runs[id] == Run(size, Mark(req, base[id].kind.dirty))
    && Moved(base, runs, Interval(id, size), Mark(req, base[id].kind.dirty), chunks)
  }

  /** If the memory is to be zero, it is: what did not count as zero was cleared. */
  ghost predicate ZeroServed(maps: View, runs: map<PageId, Run>, extra: set<PageId>, size: nat, req: Request,
                             r: Option<PageId>, cleared: set<PageId>)
  {
    if req.LargeRun? && req.zero && r.Some? then ZeroMet(maps, runs, extra, Interval(r.value, size), cleared)
    else cleared == {}
  }

  lemma ZeroServedFrom(maps: View, runs: map<PageId, Run>, maps1: View, runs1: map<PageId, Run>, extra: set<PageId>,
                       size: nat, req: Request, r: Option<PageId>, cleared: set<PageId>)
    requires ClearFrom(maps, runs, maps1, runs1, extra) && ZeroServed(maps1, runs1, {}, size, req, r, cleared)
    ensures ZeroServed(maps, runs, extra, size, req, r, cleared)
  {
    if req.LargeRun? && req.zero && r.Some? {
      ZeroMetFrom(maps, runs, maps1, runs1, extra, Interval(r.value, size), cleared);
    }
  }

  /** Split the chosen run as the request asks. */
  method RunSplit(cfg: Config, a: Fields, ghost runs: map<PageId, Run>, id: PageId, size: nat, req: Request,
                  commitFails: bool)
    returns (b: Fields, ghost runs': map<PageId, Run>, r: Option<PageId>, cleared: set<PageId>)
    requires Valid(cfg, a, runs) && Settled(runs) && CanTake(a, runs, id, size)
    ensures Valid(cfg, b, runs') && Settled(runs') && b.nactive == a.nactive + Handed(size, r)
    ensures HandedOut(Live(runs), Live(runs'), size, req, r)
    ensures r == if CommitRefused(runs, id, commitFails) then None else Some(id)
    ensures r.None? ==> b == a && runs' == runs
    ensures SameChunks(a, b) && (r.Some? ==> Took(runs, runs', b.maps.Keys, size, req, id))
    ensures ClearFrom(a.maps, runs, b.maps, runs', {}) && ZeroServed(a.maps, runs, {}, size, req, r, cleared)
  {
    var err;
    cleared := {};
    if req.LargeRun? {
      b, runs', err, cleared := RunSplitLarge(cfg, a, runs, id, size, commitFails, req.zero);
    } else {
      b, runs', err := RunSplitSmall(cfg, a, runs, id, size, req.binind, commitFails);
    }
    r := if err then None else Some(id);
    LiveEntry(runs', id);
  }

  lemma HeapsPerClass(cfg: Config, a: Fields, runs: map<PageId, Run>)
    requires Valid(cfg, a, runs)
    ensures |a.avail| == |cfg.classes|
  {
    assert Open(0);
  }

  lemma BestFitTaken(cfg: Config, sn: map<nat, nat>, a: Fields, runs: map<PageId, Run>, size: nat, id: PageId)
    requires Valid(cfg, a, runs) && 1 <= size <= MaxRun(cfg) && BestFit(cfg, sn, a.avail, size, Some(id))
    ensures CanTake(a, runs, id, size)
  {
    assert Open(0);
    BestFitSound(cfg, sn, St(a, runs), size, id);
  }

  /** arena_run_alloc_large_helper and arena_run_alloc_small_helper: the best fit is handed out, unless there is none
      or it cannot be committed. */
  method RunAllocHelper(cfg: Config, sn: map<nat, nat>, a: Fields, ghost runs: map<PageId, Run>, size: nat,
                        req: Request, commitFails: bool)
    returns (b: Fields, ghost runs': map<PageId, Run>, r: Option<PageId>, cleared: set<PageId>)
    requires Valid(cfg, a, runs) && Settled(runs) && 1 <= size <= MaxRun(cfg)
    ensures Valid(cfg, b, runs') && Settled(runs') && b.nactive == a.nactive + Handed(size, r)
    ensures HandedOut(Live(runs), Live(runs'), size, req, r)
    ensures r.None? <==> NoFit(cfg, sn, a, runs, size, commitFails)
    ensures r.Some? ==> BestFit(cfg, sn, a.avail, size, r)
    ensures r.None? ==> b == a && runs' == runs
    ensures SameChunks(a, b) && (r.Some? ==> Took(runs, runs', b.maps.Keys, size, req, r.value))
    ensures ClearFrom(a.maps, runs, b.maps, runs', {}) && ZeroServed(a.maps, runs, {}, size, req, r, cleared)
  {
    HeapsPerClass(cfg, a, runs);
    var fit := RunFirstBestFit(cfg, sn, a.avail, size);
    NoFitIff(cfg, sn, a, runs, size, commitFails, fit);
    if fit.None? {
      ClearStill(a.maps, runs);
      return a, runs, None, {};
    }
    BestFitTaken(cfg, sn, a, runs, size, fit.value);
    b, runs', r, cleared := RunSplit(cfg, a, runs, fit.value, size, req, commitFails);
  }

  /** The rest of arena_run_alloc_*, once arena->lock is retaken after asking the system for a chunk. */
  method RunAllocNew(cfg: Config, sn: map<nat, nat>, a: Fields, ghost runs: map<PageId, Run>, size: nat, req: Request,
                     source: ChunkSource, commitFails: bool)
    returns (b: Fields, ghost runs': map<PageId, Run>, r: Option<PageId>, cleared: set<PageId>)
    requires Valid(cfg, a, runs) && Settled(runs) && 1 <= size <= MaxRun(cfg) && CanOffer(a, source)
    ensures Valid(cfg, b, runs') && Settled(runs') && b.nactive == a.nactive + Handed(size, r)
    ensures HandedOut(Live(runs), Live(runs'), size, req, r)
    ensures r.None? <==> NewRefused(cfg, sn, a, runs, size, source, commitFails)
    ensures var base := if source.NewChunk? then WithChunk(cfg, runs, source) else runs;
            if r.None? then runs' == base else Took(base, runs', b.maps.Keys, size, req, r.value)
    ensures source.NoChunk? ==> SameChunks(a, b) && (r.Some? ==> BestFit(cfg, sn, a.avail, size, r))
    ensures source.NewChunk? ==> ChunkAdded(a, b, source.addr) && (r.Some? ==> r.value == Page(source.addr, cfg.bias))
    ensures ClearFrom(a.maps, runs, b.maps, runs', SourceZero(cfg, source))
    ensures ZeroServed(a.maps, runs, SourceZero(cfg, source), size, req, r, cleared)
  {
    if source.NoChunk? {
      b, runs', r, cleared := RunAllocHelper(cfg, sn, a, runs, size, req, commitFails);
    } else {
      b, runs' := ChunkInitHard(cfg, a, runs, source);
      ghost var maps1, runs1, extra := b.maps, runs', SourceZero(cfg, source);
      b, runs', r, cleared := RunSplit(cfg, b, runs', Page(source.addr, cfg.bias), size, req, commitFails);
      ClearTwice(a.maps, runs, maps1, runs1, b.maps, runs', extra, {});
      ZeroServedFrom(a.maps, runs, maps1, runs1, extra, size, req, r, cleared);
      assert extra + {} == extra;
    }
  }

  ghost function SourceZero(cfg: Config, source: ChunkSource): set<PageId>
    requires cfg.bias <= cfg.npages
  {
    match source
    case NoChunk => {}
    case NewChunk(c, _, zeroed, committed, _) => ZeroChunk(cfg, c, zeroed, committed)
  }

  ghost predicate ChunkAdded(a: Fields, b: Fields, c: nat)
  {
    b.maps.Keys == a.maps.Keys + {c} && b.cache == a.cache - {c} && b.spare == a.spare
  }

  /** Without a spare chunk: the system has no chunk, and still nothing fits; or the new chunk cannot be committed. */
  ghost predicate NewRefused(cfg: Config, sn: map<nat, nat>, a: Fields, runs: map<PageId, Run>, size: nat,
                             source: ChunkSource, commitFails: bool)
    requires ValidConfig(cfg) && 1 <= size <= MaxRun(cfg)
  {
    match source
    case NoChunk => NoFit(cfg, sn, a, runs, size, commitFails)
    case NewChunk(_, _, _, committed, _) => !committed && 1 < MaxRun(cfg) && commitFails
  }

  /** The rest of arena_run_alloc_*, when there is a spare chunk. */
  method RunAllocSpare(cfg: Config, a: Fields, ghost runs: map<PageId, Run>, size: nat, req: Request, commitFails: bool)
    returns (b: Fields, ghost runs': map<PageId, Run>, r: Option<PageId>, cleared: set<PageId>)
    requires Valid(cfg, a, runs) && Settled(runs) && 1 <= size <= MaxRun(cfg) && a.spare.Some?
    ensures Valid(cfg, b, runs') && Settled(runs') && b.nactive == a.nactive + Handed(size, r)
    ensures HandedOut(Live(runs), Live(runs'), size, req, r)
    ensures r.None? <==> CommitRefused(runs, Page(a.spare.value, cfg.bias), commitFails)
    ensures if r.None? then runs' == runs else Took(runs, runs', b.maps.Keys, size, req, r.value)
    ensures SameChunks(a.(spare := None), b) && (r.Some? ==> r.value == Page(a.spare.value, cfg.bias))
    ensures ClearFrom(a.maps, runs, b.maps, runs', {}) && ZeroServed(a.maps, runs, {}, size, req, r, cleared)
  {
    b := ChunkInitSpare(cfg, a, runs);
    b, runs', r, cleared := RunSplit(cfg, b, runs, Page(a.spare.value, cfg.bias), size, req, commitFails);
  }

  /** What the environment answers while a run is allocated: the chunk offered, the commits of the first and of the
      second attempt, and what the other threads leave behind while arena->lock is dropped. */
  datatype Answers = Answers(source: ChunkSource, firstFails: bool, secondFails: bool, sn: map<nat, nat>, later: Fields)

  /** Exactly when there is no run: nothing fits, and neither the spare nor a new chunk, nor a second search, helps. */
  ghost predicate Refused(cfg: Config, sn: map<nat, nat>, a: Fields, runs: map<PageId, Run>, size: nat,
                          env: Answers, laterRuns: map<PageId, Run>)
    requires ValidConfig(cfg) && 1 <= size <= MaxRun(cfg)
  {
    && NoFit(cfg, sn, a, runs, size, env.firstFails)
    && if a.spare.Some? then CommitRefused(runs, Page(a.spare.value, cfg.bias), env.secondFails)
       else NewRefused(cfg, env.sn, env.later, laterRuns, size, env.source, env.secondFails)
  }

  /** The runs to choose from: the arena's, or what the other threads left of them, with the new chunk if there is
      one. */
  ghost function Base(cfg: Config, runs: map<PageId, Run>, env: Answers, laterRuns: map<PageId, Run>, dropped: bool)
    : map<PageId, Run>
    requires cfg.bias <= cfg.npages
  {
    if !dropped then runs
    else if env.source.NewChunk? then WithChunk(cfg, laterRuns, env.source)
    else laterRuns
  }

  /** Where the run comes from: the best fit if it can be used, else the spare chunk, else the new chunk, else the best
      fit of a second search. */
  ghost predicate ChosenFrom(cfg: Config, sn: map<nat, nat>, a: Fields, runs: map<PageId, Run>, size: nat,
                             env: Answers, id: PageId)
    requires ValidConfig(cfg) && 1 <= size <= MaxRun(cfg)
  {
    if !NoFit(cfg, sn, a, runs, size, env.firstFails) then BestFit(cfg, sn, a.avail, size, Some(id))
    else if a.spare.Some? then id == Page(a.spare.value, cfg.bias)
    else if env.source.NewChunk? then id == Page(env.source.addr, cfg.bias)
    else BestFit(cfg, env.sn, env.later.avail, size, Some(id))
  }

  /** What becomes of the chunks, the spare and the cache: a new chunk comes from the cache or the system, and the spare
      is used up if it is needed. */
  ghost predicate ChunksAfter(cfg: Config, sn: map<nat, nat>, a: Fields, runs: map<PageId, Run>, size: nat,
                              env: Answers, b: Fields)
    requires ValidConfig(cfg) && 1 <= size <= MaxRun(cfg)
  {
    if !NoFit(cfg, sn, a, runs, size, env.firstFails) then SameChunks(a, b)
    else if a.spare.Some? then SameChunks(a.(spare := None), b)
    else if env.source.NewChunk? then ChunkAdded(env.later, b, env.source.addr)
    else SameChunks(env.later, b)
  }

  /** arena_run_alloc_large and arena_run_alloc_small.  Asking the system for a chunk drops arena->lock; `env.later`
      is whatever valid state the other threads leave behind.  The outcome is relative to it when the lock
      was dropped, and to `a` otherwise. */
  method RunAlloc(cfg: Config, sn: map<nat, nat>, a: Fields, ghost runs: map<PageId, Run>, size: nat, req: Request,
                  env: Answers, ghost laterRuns: map<PageId, Run>)
    returns (b: Fields, ghost runs': map<PageId, Run>, r: Option<PageId>, dropped: bool, cleared: set<PageId>)
    requires Valid(cfg, a, runs) && Settled(runs) && 1 <= size <= MaxRun(cfg)
    requires Valid(cfg, env.later, laterRuns) && Settled(laterRuns) && CanOffer(env.later, env.source)
    ensures Valid(cfg, b, runs') && Settled(runs')
    ensures HandedOut(Live(if dropped then laterRuns else runs), Live(runs'), size, req, r)
    ensures b.nactive == (if dropped then env.later else a).nactive + Handed(size, r)
    ensures r.None? <==> Refused(cfg, sn, a, runs, size, env, laterRuns)
    ensures dropped <==> a.spare.None? && NoFit(cfg, sn, a, runs, size, env.firstFails)
    ensures var base := Base(cfg, runs, env, laterRuns, dropped);
            if r.None? then runs' == base else Took(base, runs', b.maps.Keys, size, req, r.value)
    ensures r.Some? ==> ChosenFrom(cfg, sn, a, runs, size, env, r.value)
    ensures ChunksAfter(cfg, sn, a, runs, size, env, b)
    ensures dropped ==> ClearFrom(env.later.maps, laterRuns, b.maps, runs', SourceZero(cfg, env.source))
    ensures !dropped ==> ClearFrom(a.maps, runs, b.maps, runs', {})
    ensures dropped ==>
              ZeroServed(env.later.maps, laterRuns, SourceZero(cfg, env.source), size, req, r, cleared)
    ensures !dropped ==> ZeroServed(a.maps, runs, {}, size, req, r, cleared)
  {
    dropped := false;
    b, runs', r, cleared := RunAllocHelper(cfg, sn, a, runs, size, req, env.firstFails);
    if r.None? {
      b, runs', r, dropped, cleared := RunAllocMore(cfg, sn, a, runs, size, req, env, laterRuns);
    }
  }

  /** The part of arena_run_alloc_* that is taken when nothing fits: the spare chunk, or a new one. */
  method RunAllocMore(cfg: Config, ghost sn: map<nat, nat>, a: Fields, ghost runs: map<PageId, Run>, size: nat,
                      req: Request, env: Answers, ghost laterRuns: map<PageId, Run>)
    returns (b: Fields, ghost runs': map<PageId, Run>, r: Option<PageId>, dropped: bool, cleared: set<PageId>)
    requires Valid(cfg, a, runs) && Settled(runs) && 1 <= size <= MaxRun(cfg)
    requires Valid(cfg, env.later, laterRuns) && Settled(laterRuns) && CanOffer(env.later, env.source)
    requires NoFit(cfg, sn, a, runs, size, env.firstFails)
    ensures Valid(cfg, b, runs') && Settled(runs')
    ensures HandedOut(Live(if dropped then laterRuns else runs), Live(runs'), size, req, r)
    ensures b.nactive == (if dropped then env.later else a).nactive + Handed(size, r)
    ensures r.None? <==> Refused(cfg, sn, a, runs, size, env, laterRuns)
    ensures dropped <==> a.spare.None?
    ensures var base := Base(cfg, runs, env, laterRuns, dropped);
            if r.None? then runs' == base else Took(base, runs', b.maps.Keys, size, req, r.value)
    ensures r.Some? ==> ChosenFrom(cfg, sn, a, runs, size, env, r.value)
    ensures ChunksAfter(cfg, sn, a, runs, size, env, b)
    ensures dropped ==> ClearFrom(env.later.maps, laterRuns, b.maps, runs', SourceZero(cfg, env.source))
    ensures !dropped ==> ClearFrom(a.maps, runs, b.maps, runs', {})
    ensures dropped ==>
              ZeroServed(env.later.maps, laterRuns, SourceZero(cfg, env.source), size, req, r, cleared)
    ensures !dropped ==> ZeroServed(a.maps, runs, {}, size, req, r, cleared)
  {
    dropped := a.spare.None?;
    if a.spare.Some? {
      b, runs', r, cleared := RunAllocSpare(cfg, a, runs, size, req, env.secondFails);
    } else {
      b, runs', r, cleared := RunAllocNew(cfg, env.sn, env.later, laterRuns, size, req, env.source, env.secondFails);
    }
  }

  // ---------------------------------------------------------------- whole operations

  /** Between operations: the page maps describe the runs, the indexes and counters agree with them,
      and no run is half way. */
  ghost predicate Consistent(cfg: Config, a: Fields, runs: map<PageId, Run>)
  {
    ValidConfig(cfg) && forall key {:trigger Open(key)} :: Open(key) ==> Valid(cfg, a, runs) && Settled(runs)
  }

  /** An arena without chunks. */
  function EmptyFields(cfg: Config): Fields
  {
    Fields(map[], None, seq(|cfg.classes|, i => {}), {}, 0, 0, {})
  }

  lemma EmptyConsistent(cfg: Config)
    requires ValidConfig(cfg)
    ensures Consistent(cfg, EmptyFields(cfg), map[])
  {
    var a := EmptyFields(cfg);
    var runs: map<PageId, Run> := map[];
    EmptyCovered(All);
    EmptyCovered(Active);
    EmptyCovered(Dirty);
    assert a.maps.Keys == {};
    assert forall i :: 0 <= i < |a.avail| ==> a.avail[i] == {};
    assert AvailExact(cfg, runs, None, a.avail);
    assert Counted(cfg, St(a, runs));
  }

  lemma EmptyCovered(m: Measure)
    ensures Pages(map[], m) == 0
  {
    assert Covered(map[], m) == {};
  }

  lemma MovedConsistent(cfg: Config, a: Fields, runs: map<PageId, Run>, b: Fields, runs': map<PageId, Run>,
                        moved: set<PageId>, kind: Kind)
    requires Consistent(cfg, a, runs) && Consistent(cfg, b, runs') && ClearFrom(a.maps, runs, b.maps, runs', {})
    requires Moved(runs, runs', moved, kind, b.maps.Keys) && (kind.Large? || (kind.Free? && kind.dirty))
    ensures ZeroKept(a.maps, runs, b.maps, runs', {})
  {
    assert AllApart(runs) && Settled(runs) by { assert Open(0); }
    assert AllApart(runs') by { assert Open(0); }
    MovedZeroKept(a.maps, runs, b.maps, runs', moved, kind, b.maps.Keys, {});
  }

  /** An allocation frees no page. */
  lemma TookIdle(cfg: Config, b: Fields, base: map<PageId, Run>, runs': map<PageId, Run>, size: nat, req: Request,
                 r: Option<PageId>)
    requires if r.None? then runs' == base else Took(base, runs', b.maps.Keys, size, req, r.value)
    ensures Covered(runs', Idle) <= Covered(base, Idle)
  {
    if r.Some? {
      assert MovedFor(base, runs', Interval(r.value, size), Mark(req, base[r.value].kind.dirty), b.maps.Keys, Idle);
    }
  }

  lemma AllocZeroKept(cfg: Config, a: Fields, runs: map<PageId, Run>, base: map<PageId, Run>, b: Fields,
                      runs': map<PageId, Run>, source: ChunkSource, extra: set<PageId>)
    requires Consistent(cfg, a, runs) && Consistent(cfg, b, runs')
    requires base == runs || (source.NewChunk? && CanOffer(a, source) && base == WithChunk(cfg, runs, source))
    requires Covered(runs', Idle) <= Covered(base, Idle) && ClearFrom(a.maps, runs, b.maps, runs', extra)
    ensures ZeroKept(a.maps, runs, b.maps, runs', extra)
  {
    assert AllApart(runs) && AllFit(cfg, a.maps.Keys, runs) && Settled(runs) by { assert Open(0); }
    assert AllApart(runs') by { assert Open(0); }
    var id := Page(if source.NewChunk? then source.addr else 0, cfg.bias);
    assert base != runs ==> id !in runs by { assert id in runs ==> Fits(cfg, a.maps.Keys, id, runs[id]); }
    IdleZeroKept(cfg, a.maps, runs, base, b.maps, runs', extra, id);
  }

  lemma AllocatedZero(cfg: Config, a: Fields, runs: map<PageId, Run>, env: Answers, laterRuns: map<PageId, Run>,
                      dropped: bool, b: Fields, runs': map<PageId, Run>, size: nat, req: Request, r: Option<PageId>)
    requires Consistent(cfg, a, runs) && Consistent(cfg, b, runs')
    requires Consistent(cfg, env.later, laterRuns) && CanOffer(env.later, env.source)
    requires var base := Base(cfg, runs, env, laterRuns, dropped);
             if r.None? then runs' == base else Took(base, runs', b.maps.Keys, size, req, r.value)
    requires dropped ==> ClearFrom(env.later.maps, laterRuns, b.maps, runs', SourceZero(cfg, env.source))
    requires !dropped ==> ClearFrom(a.maps, runs, b.maps, runs', {})
    ensures dropped ==> ZeroKept(env.later.maps, laterRuns, b.maps, runs', SourceZero(cfg, env.source))
    ensures !dropped ==> ZeroKept(a.maps, runs, b.maps, runs', {})
  {
    var base := Base(cfg, runs, env, laterRuns, dropped);
    TookIdle(cfg, b, base, runs', size, req, r);
    if dropped {
      AllocZeroKept(cfg, env.later, laterRuns, base, b, runs', env.source, SourceZero(cfg, env.source));
    } else {
      AllocZeroKept(cfg, a, runs, base, b, runs', env.source, {});
    }
  }

  /** arena_run_alloc_*, as an operation on a consistent arena. */
  method AllocRun(cfg: Config, sn: map<nat, nat>, a: Fields, ghost runs: map<PageId, Run>, size: nat, req: Request,
                  env: Answers, ghost laterRuns: map<PageId, Run>)
    returns (b: Fields, ghost runs': map<PageId, Run>, r: Option<PageId>, dropped: bool, cleared: set<PageId>)
    requires Consistent(cfg, a, runs) && 1 <= size <= MaxRun(cfg)
    requires Consistent(cfg, env.later, laterRuns) && CanOffer(env.later, env.source)
    ensures Consistent(cfg, b, runs')
    ensures HandedOut(Live(if dropped then laterRuns else runs), Live(runs'), size, req, r)
    ensures b.nactive == (if dropped then env.later else a).nactive + Handed(size, r)
    ensures r.None? <==> Refused(cfg, sn, a, runs, size, env, laterRuns)
    ensures dropped <==> a.spare.None? && NoFit(cfg, sn, a, runs, size, env.firstFails)
    ensures var base := Base(cfg, runs, env, laterRuns, dropped);
            if r.None? then runs' == base else Took(base, runs', b.maps.Keys, size, req, r.value)
    ensures r.Some? ==> ChosenFrom(cfg, sn, a, runs, size, env, r.value)
    ensures ChunksAfter(cfg, sn, a, runs, size, env, b)
    ensures dropped ==> ClearFrom(env.later.maps, laterRuns, b.maps, runs', SourceZero(cfg, env.source))
    ensures !dropped ==> ClearFrom(a.maps, runs, b.maps, runs', {})
    ensures dropped ==>
              ZeroServed(env.later.maps, laterRuns, SourceZero(cfg, env.source), size, req, r, cleared)
    ensures !dropped ==> ZeroServed(a.maps, runs, {}, size, req, r, cleared)
    ensures dropped ==> ZeroKept(env.later.maps, laterRuns, b.maps, runs', SourceZero(cfg, env.source))
    ensures !dropped ==> ZeroKept(a.maps, runs, b.maps, runs', {})
  {
    assert Valid(cfg, a, runs) && Settled(runs) by { assert Open(0); }
    assert Valid(cfg, env.later, laterRuns) && Settled(laterRuns) by { assert Open(0); }
    b, runs', r, dropped, cleared := RunAlloc(cfg, sn, a, runs, size, req, env, laterRuns);
    IsConsistent(cfg, b, runs');
    AllocatedZero(cfg, a, runs, env, laterRuns, dropped, b, runs', size, req, r);
  }

  /** arena_run_dalloc, as an operation on a consistent arena. */
  method FreeRun(cfg: Config, a: Fields, ghost runs: map<PageId, Run>, id: PageId, smallPages: nat,
                 dirtied: bool, cleaned: bool, decommitted: bool, recorded: bool)
    returns (b: Fields, ghost runs': map<PageId, Run>)
    requires Consistent(cfg, a, runs) && id in runs && IsLive(runs[id])
    requires runs[id].kind.Small? ==> smallPages == runs[id].n
    requires !(dirtied && decommitted)
    ensures Consistent(cfg, b, runs') && Live(runs') == Live(runs) - {id} && b.nactive == a.nactive - runs[id].n
    ensures Freed(cfg, a, runs, b, runs', id, FreedDirty(runs[id], dirtied, cleaned, decommitted), decommitted,
                  recorded)
    ensures forall x :: x in Interval(id, runs[id].n) ==>
              LiesIn(b, runs', x, Free(FreedDirty(runs[id], dirtied, cleaned, decommitted), decommitted))
    ensures ClearFrom(a.maps, runs, b.maps, runs', VouchedPages(runs, id, dirtied, cleaned, decommitted))
    ensures dirtied ==> ZeroKept(a.maps, runs, b.maps, runs', {})
  {
    assert Valid(cfg, a, runs) && Settled(runs) && AllApart(runs) by { assert Open(0); }
    b, runs' := RunDalloc(cfg, a, runs, id, smallPages, dirtied, cleaned, decommitted, recorded);
    IsConsistent(cfg, b, runs');
    if dirtied {
      assert AllApart(runs') by { assert Open(0); }
      MovedZeroKept(a.maps, runs, b.maps, runs', Interval(id, runs[id].n), Free(true, decommitted), b.maps.Keys, {});
    }
  }

  // ---------------------------------------------------------------- trimming

  /** The page map writes of arena_run_trim_head and arena_run_trim_tail: one large run becomes two. */
  method SetLargeCut(cfg: Config, maps: View, id: PageId, n: nat, head: nat, dirty: bool, mask: bool)
    returns (after: View)
    requires cfg.bias <= cfg.npages && DescribedAt(cfg, maps, id, Run(n, Large(dirty, false))) && 1 <= head < n
    ensures WrittenWithin(maps, after, id.chunk, id.ind, id.ind + n)
    ensures DescribedAt(cfg, after, id, Run(head, Large(dirty, false)))
    ensures DescribedAt(cfg, after, Page(id.chunk, id.ind + head), Run(n - head, Large(dirty, false)))
    ensures mask ==> MarksKept(maps, after, id.chunk, id.ind, id.ind + n)
  {
    var m, p := maps[id.chunk], id.ind;
    m := m[p + head - 1 := LargeBits(0, dirty, mask && m[p + head - 1].unzeroed, false)];
    m := m[p := LargeBits(head, dirty, mask && m[p].unzeroed, false)];
    m := m[p + head := LargeBits(n - head, dirty, mask && m[p + head].unzeroed, false)];
    after := maps[id.chunk := m];
  }

  lemma CutFields(cfg: Config, a: Fields, runs: map<PageId, Run>, id: PageId, head: nat, kind: Kind, maps: View)
    requires Valid(cfg, a, runs) && Settled(runs) && id in runs && IsLive(runs[id]) && 1 <= head < runs[id].n
    requires kind.Large? && FlagsOk(kind)
    requires WrittenWithin(a.maps, maps, id.chunk, id.ind, id.ind + runs[id].n)
    requires DescribedAt(cfg, maps, id, Run(head, kind))
    requires DescribedAt(cfg, maps, Page(id.chunk, id.ind + head), Run(runs[id].n - head, kind))
    ensures Valid(cfg, a.(maps := maps), Cut(runs, id, head, kind, kind))
    ensures Settled(Cut(runs, id, head, kind, kind))
    ensures Live(Cut(runs, id, head, kind, kind))
         == Live(runs)[id := Run(head, kind)][Page(id.chunk, id.ind + head) := Run(runs[id].n - head, kind)]
    ensures Page(id.chunk, id.ind + head) !in runs
    ensures kind == runs[id].kind ==> Moved(runs, Cut(runs, id, head, kind, kind), {}, kind, a.maps.Keys)
  {
    assert Open(0);
    HalvesMoved(cfg, a.maps.Keys, runs, id, head);
    CutRunInv(cfg, St(a, runs), id, head, kind, kind);
    assert St(a.(maps := maps), Cut(runs, id, head, kind, kind)) == CutRun(St(a, runs), id, head, kind, kind);
    DescribedCut(cfg, a.maps, maps, runs, id, head, kind, kind);
    CutLive(runs, id, head, kind, kind);
  }

  /** What the page map says about a large run. */
  lemma LargeFacts(cfg: Config, a: Fields, runs: map<PageId, Run>, id: PageId)
    requires Consistent(cfg, a, runs) && id in runs && runs[id].kind.Large?
    ensures Valid(cfg, a, runs) && Settled(runs) && cfg.bias <= cfg.npages && DescribedAt(cfg, a.maps, id, runs[id])
    ensures id.chunk in a.maps && id.ind < |a.maps[id.chunk]|
    ensures a.maps[id.chunk][id.ind].dirty == runs[id].kind.dirty
  {
    assert Open(0);
    LiveFacts(cfg, a, runs, id);
    assert DescribedAt(cfg, a.maps, id, runs[id]);
  }

  lemma IsConsistent(cfg: Config, a: Fields, runs: map<PageId, Run>)
    requires ValidConfig(cfg) && Valid(cfg, a, runs) && Settled(runs)
    ensures Consistent(cfg, a, runs)
  {
  }

  /** Present one large run of head + tail pages as two, before one of them is freed. */
  method CutLargeRun(cfg: Config, a: Fields, ghost runs: map<PageId, Run>, id: PageId, head: nat, tail: nat)
    returns (b: Fields, ghost runs': map<PageId, Run>)
    requires Consistent(cfg, a, runs) && id in runs
    requires runs[id].kind.Large? && !runs[id].kind.decommitted && 1 <= head && 1 <= tail && head + tail == runs[id].n
    ensures Consistent(cfg, b, runs') && b.nactive == a.nactive
    ensures id in runs' && runs'[id] == Run(head, runs[id].kind)
    ensures Page(id.chunk, id.ind + head) in runs' && runs'[Page(id.chunk, id.ind + head)] == Run(tail, runs[id].kind)
    ensures Page(id.chunk, id.ind + head) !in Live(runs)
    ensures Live(runs')
            == Live(runs)[id := Run(head, runs[id].kind)][Page(id.chunk, id.ind + head) := Run(tail, runs[id].kind)]
    ensures Moved(runs, runs', {}, runs[id].kind, b.maps.Keys) && SameChunks(a, b)
    ensures ClearFrom(a.maps, runs, b.maps, runs', {})
  {
    LargeFacts(cfg, a, runs, id);
    var flagDirty := a.maps[id.chunk][id.ind].dirty;
    var maps := SetLargeCut(cfg, a.maps, id, head + tail, head, flagDirty, !flagDirty);
    CutFields(cfg, a, runs, id, head, Large(flagDirty, false), maps);
    b := a.(maps := maps);
    runs' := Cut(runs, id, head, Large(flagDirty, false), Large(flagDirty, false));
    assert AllApart(runs) by { assert Open(0); }
    CutClear(a.maps, maps, runs, id, head, Large(flagDirty, false), Large(flagDirty, false));
    IsConsistent(cfg, b, runs');
  }

  lemma TwoThenOne(m: map<PageId, Run>, id: PageId, rest: PageId, x: Run, y: Run)
    requires id != rest && rest !in m
    ensures m[id := x][rest := y] - {id} == (m - {id})[rest := y]
    ensures m[id := x][rest := y] - {rest} == m[id := x]
  {
  }

  /** A chunk in which a run is held is not one free run. */
  lemma NotWhole(cfg: Config, a: Fields, runs: map<PageId, Run>, id: PageId)
    requires Consistent(cfg, a, runs) && id in Live(runs)
    ensures !WholeFree(cfg, runs, id.chunk)
  {
    assert Open(0);
    LiveEntry(runs, id);
    assert Fits(cfg, a.maps.Keys, id, runs[id]);
    var first := Page(id.chunk, cfg.bias);
    assert first in runs ==> Apart(first, runs[first], id);
  }

  /** Part of a run was freed: its pages are free, with these flags, and no chunk has come or gone. */
  ghost predicate Trimmed(a: Fields, runs: map<PageId, Run>, b: Fields, runs': map<PageId, Run>, pages: set<PageId>,
                          dirty: bool)
  {
    Moved(runs, runs', pages, Free(dirty, false), b.maps.Keys) && SameChunks(a, b)
  }

  lemma CutThenFreed(cfg: Config, a: Fields, runs: map<PageId, Run>, a1: Fields, runs1: map<PageId, Run>, b: Fields,
                     runs': map<PageId, Run>, id: PageId, kept: PageId, kind: Kind, dirty: bool, recorded: bool)
    requires Moved(runs, runs1, {}, kind, a1.maps.Keys) && SameChunks(a, a1) && id in runs1
    requires Consistent(cfg, b, runs') && kept in Live(runs') && kept.chunk == id.chunk
    requires Freed(cfg, a1, runs1, b, runs', id, dirty, false, recorded)
    ensures Trimmed(a, runs, b, runs', Interval(id, runs1[id].n), dirty)
  {
    NotWhole(cfg, b, runs', kept);
    NoneMoved(runs, runs1, kind, Free(dirty, false), a1.maps.Keys);
    MovedTwice(runs, runs1, runs', {}, Interval(id, runs1[id].n), Free(dirty, false), a1.maps.Keys, b.maps.Keys);
    assert {} + Interval(id, runs1[id].n) == Interval(id, runs1[id].n);
  }

  /** arena_run_trim_head: free the first `head` pages of a large run, keeping `newsize`. */
  method RunTrimHead(cfg: Config, a: Fields, ghost runs: map<PageId, Run>, id: PageId, head: nat, newsize: nat,
                     recorded: bool)
    returns (b: Fields, ghost runs': map<PageId, Run>)
    requires Consistent(cfg, a, runs) && id in runs && runs[id].n == head + newsize
    requires runs[id].kind.Large? && !runs[id].kind.decommitted && 1 <= newsize && 1 <= head
    ensures Consistent(cfg, b, runs')
    ensures Live(runs') == (Live(runs) - {id})[Page(id.chunk, id.ind + head) := Run(newsize, runs[id].kind)]
    ensures Page(id.chunk, id.ind + head) !in Live(runs)
    ensures b.nactive == a.nactive - head
    ensures Trimmed(a, runs, b, runs', Interval(id, head), runs[id].kind.dirty)
    ensures ClearFrom(a.maps, runs, b.maps, runs', {})
  {
    var kept := Page(id.chunk, id.ind + head);
    b, runs' := CutLargeRun(cfg, a, runs, id, head, newsize);
    TwoThenOne(Live(runs), id, kept, Run(head, runs[id].kind), Run(newsize, runs[id].kind));
    ghost var a1, runs1 := b, runs';
    b, runs' := FreeRun(cfg, b, runs', id, 0, false, false, false, recorded);
    CutThenFreed(cfg, a, runs, a1, runs1, b, runs', id, kept, runs[id].kind, runs[id].kind.dirty, recorded);
    ClearOnce(a.maps, runs, a1.maps, runs1, b.maps, runs');
  }

  /** arena_run_trim_tail: keep the first `newsize` pages of a large run, free the last `tail`. */
  method RunTrimTail(cfg: Config, a: Fields, ghost runs: map<PageId, Run>, id: PageId, newsize: nat, tail: nat,
                     dirtied: bool, recorded: bool)
    returns (b: Fields, ghost runs': map<PageId, Run>)
    requires Consistent(cfg, a, runs) && id in runs && runs[id].n == newsize + tail
    requires runs[id].kind.Large? && !runs[id].kind.decommitted && 1 <= newsize && 1 <= tail
    ensures Consistent(cfg, b, runs')
    ensures Live(runs') == Live(runs)[id := Run(newsize, runs[id].kind)]
    ensures b.nactive == a.nactive - tail
    ensures Trimmed(a, runs, b, runs', Interval(Page(id.chunk, id.ind + newsize), tail),
                    dirtied || runs[id].kind.dirty)
    ensures ClearFrom(a.maps, runs, b.maps, runs', {})
  {
    var rest := Page(id.chunk, id.ind + newsize);
    b, runs' := CutLargeRun(cfg, a, runs, id, newsize, tail);
    TwoThenOne(Live(runs), id, rest, Run(newsize, runs[id].kind), Run(tail, runs[id].kind));
    ghost var a1, runs1 := b, runs';
    b, runs' := FreeRun(cfg, b, runs', rest, 0, dirtied, false, false, recorded);
    CutThenFreed(cfg, a, runs, a1, runs1, b, runs', rest, id, runs[id].kind, dirtied || runs[id].kind.dirty, recorded);
    ClearOnce(a.maps, runs, a1.maps, runs1, b.maps, runs');
  }

  lemma NothingTrimmed(cfg: Config, a: Fields, runs: map<PageId, Run>, id: PageId, dirty: bool)
    requires Consistent(cfg, a, runs)
    ensures Trimmed(a, runs, a, runs, Interval(id, 0), dirty)
  {
    assert Open(0);
    StillMoved(cfg, a.maps.Keys, runs, Free(dirty, false));
    assert Interval(id, 0) == {};
  }

  // ---------------------------------------------------------------- aligned allocation

  /** The page number of a page in the address space: chunks are chunk-aligned. */
  function PageAddress(cfg: Config, id: PageId): nat
  {
    id.chunk * cfg.npages + id.ind
  }

  lemma LiveEntry(runs: map<PageId, Run>, id: PageId)
    ensures id in Live(runs) <==> id in runs && IsLive(runs[id])
    ensures id in Live(runs) ==> Live(runs)[id] == runs[id]
  {
  }

  lemma MapUpdates(m: map<PageId, Run>, id: PageId, x: Run, y: Run)
    ensures m[id := x][id := y] == m[id := y]
    ensures m[id := x] == (m - {id})[id := x]
    ensures id in m ==> m[id := m[id]] == m
    ensures id !in m ==> m[id := x] - {id} == m
  {
  }

  /** The leading part of the trimming: skip `lead` pages of a large run of lead + rest pages. */
  method SkipLead(cfg: Config, a: Fields, ghost runs: map<PageId, Run>, id: PageId, lead: nat, rest: nat,
                  recorded: bool)
    returns (b: Fields, ghost runs': map<PageId, Run>)
    requires Consistent(cfg, a, runs) && id in runs
    requires runs[id].kind.Large? && !runs[id].kind.decommitted && 1 <= rest && runs[id].n == lead + rest
    ensures Consistent(cfg, b, runs') && b.nactive == a.nactive - lead
    ensures Live(runs') == (Live(runs) - {id})[Page(id.chunk, id.ind + lead) := Run(rest, runs[id].kind)]
    ensures lead > 0 ==> Page(id.chunk, id.ind + lead) !in Live(runs)
    ensures Trimmed(a, runs, b, runs', Interval(id, lead), runs[id].kind.dirty)
    ensures ClearFrom(a.maps, runs, b.maps, runs', {})
  {
    NothingTrimmed(cfg, a, runs, id, runs[id].kind.dirty);
    if lead != 0 {
      b, runs' := RunTrimHead(cfg, a, runs, id, lead, rest, recorded);
    } else {
      b, runs' := a, runs;
      LiveEntry(runs, id);
      MapUpdates(Live(runs), id, runs[id], runs[id]);
    }
  }

  /** The trailing part of the trimming: keep the first `size` pages. */
  method KeepFront(cfg: Config, a: Fields, ghost runs: map<PageId, Run>, id: PageId, size: nat, trail: nat,
                   recorded: bool)
    returns (b: Fields, ghost runs': map<PageId, Run>)
    requires Consistent(cfg, a, runs) && id in runs
    requires runs[id].kind.Large? && !runs[id].kind.decommitted && 1 <= size && runs[id].n == size + trail
    ensures Consistent(cfg, b, runs') && b.nactive == a.nactive - trail
    ensures Live(runs') == Live(runs)[id := Run(size, runs[id].kind)]
    ensures Trimmed(a, runs, b, runs', Interval(Page(id.chunk, id.ind + size), trail), runs[id].kind.dirty)
    ensures ClearFrom(a.maps, runs, b.maps, runs', {})
  {
    NothingTrimmed(cfg, a, runs, Page(id.chunk, id.ind + size), runs[id].kind.dirty);
    if trail != 0 {
      b, runs' := RunTrimTail(cfg, a, runs, id, size, trail, false, recorded);
    } else {
      b, runs' := a, runs;
      LiveEntry(runs, id);
      MapUpdates(Live(runs), id, runs[id], runs[id]);
    }
  }

  /** The trimming part of arena_palloc_large: keep `size` aligned pages of a freshly allocated run. */
  method TrimToAlignment(cfg: Config, a: Fields, ghost runs: map<PageId, Run>, id: PageId, size: nat, lead: nat,
                         trail: nat, leadRecorded: bool, trailRecorded: bool)
    returns (b: Fields, ghost runs': map<PageId, Run>)
    requires Consistent(cfg, a, runs) && id in runs
    requires runs[id].kind.Large? && !runs[id].kind.decommitted && 1 <= size && runs[id].n == lead + (size + trail)
    ensures Consistent(cfg, b, runs')
    ensures Live(runs') == (Live(runs) - {id})[Page(id.chunk, id.ind + lead) := Run(size, runs[id].kind)]
    ensures lead > 0 ==> Page(id.chunk, id.ind + lead) !in Live(runs)
    ensures b.nactive == a.nactive - lead - trail
    ensures Trimmed(a, runs, b, runs', Interval(id, lead) + Interval(Page(id.chunk, id.ind + lead + size), trail),
                    runs[id].kind.dirty)
    ensures ClearFrom(a.maps, runs, b.maps, runs', {})
  {
    var kept := Page(id.chunk, id.ind + lead);
    b, runs' := SkipLead(cfg, a, runs, id, lead, size + trail, leadRecorded);
    ghost var maps1, runs1 := b.maps, runs';
    LiveEntry(runs', kept);
    MapUpdates(Live(runs) - {id}, kept, Run(size + trail, runs[id].kind), Run(size, runs[id].kind));
    b, runs' := KeepFront(cfg, b, runs', kept, size, trail, trailRecorded);
    MovedTwice(runs, runs1, runs', Interval(id, lead), Interval(Page(kept.chunk, kept.ind + size), trail),
               Free(runs[id].kind.dirty, false), b.maps.Keys, b.maps.Keys);
    ClearOnce(a.maps, runs, maps1, runs1, b.maps, runs');
  }

  /** How much arena_palloc_large allocates, so that an aligned part of `usize` pages is inside. */
  function AllocSize(cfg: Config, usize: nat, alignment: nat): (n: nat)
    requires 1 <= alignment
    ensures n == usize + cfg.pad + alignment - 1
  {
    usize + cfg.pad + alignment - 1
  }

  /** arena_palloc_large: allocate `usize` pages at an aligned address by over-allocating and trimming both ends.
      The failure branch after arena_run_init_large is not reachable: the trimmed run is never decommitted. */
  method PallocLarge(cfg: Config, sn: map<nat, nat>, a: Fields, ghost runs: map<PageId, Run>, usize: nat,
                     alignment: nat, zero: bool,
                     env: Answers, ghost laterRuns: map<PageId, Run>, leadRecorded: bool, trailRecorded: bool)
    returns (b: Fields, ghost runs': map<PageId, Run>, r: Option<PageId>, dropped: bool, cleared: set<PageId>,
             ghost fit: PageId, ghost whole: map<PageId, Run>)
    requires Consistent(cfg, a, runs)
    requires 1 <= usize && 1 <= alignment && AllocSize(cfg, usize, alignment) <= MaxRun(cfg)
    requires Consistent(cfg, env.later, laterRuns) && CanOffer(env.later, env.source)
    ensures Consistent(cfg, b, runs')
    ensures HandedOut(Live(if dropped then laterRuns else runs), Live(runs'), usize + cfg.pad, LargeRun(zero), r)
    ensures r.Some? ==> PageAddress(cfg, r.value) % alignment == 0
    ensures b.nactive == (if dropped then env.later else a).nactive + Handed(usize + cfg.pad, r)
    ensures r.None? <==> Refused(cfg, sn, a, runs, AllocSize(cfg, usize, alignment), env, laterRuns)
    ensures dropped <==> a.spare.None? && NoFit(cfg, sn, a, runs, AllocSize(cfg, usize, alignment), env.firstFails)
    ensures ChunksAfter(cfg, sn, a, runs, AllocSize(cfg, usize, alignment), env, b)
    ensures r.None? ==> runs' == Base(cfg, runs, env, laterRuns, dropped)
    ensures r.Some? ==> ChosenFrom(cfg, sn, a, runs, AllocSize(cfg, usize, alignment), env, fit)
    ensures r.Some? ==> CutOut(Base(cfg, runs, env, laterRuns, dropped), whole, runs', b.maps.Keys, fit,
                               AllocSize(cfg, usize, alignment), r.value, usize + cfg.pad)
    ensures dropped ==> ClearFrom(env.later.maps, laterRuns, b.maps, runs', SourceZero(cfg, env.source))
    ensures !dropped ==> ClearFrom(a.maps, runs, b.maps, runs', {})
    ensures dropped ==>
              ZeroServed(env.later.maps, laterRuns, SourceZero(cfg, env.source), usize + cfg.pad, LargeRun(zero), r,
                         cleared)
    ensures !dropped ==> ZeroServed(a.maps, runs, {}, usize + cfg.pad, LargeRun(zero), r, cleared)
    ensures dropped ==> ZeroKept(env.later.maps, laterRuns, b.maps, runs', SourceZero(cfg, env.source))
    ensures !dropped ==> ZeroKept(a.maps, runs, b.maps, runs', {})
  {
    var allocSize := AllocSize(cfg, usize, alignment);
    b, runs', r, dropped, cleared := AllocRun(cfg, sn, a, runs, allocSize, LargeRun(false), env, laterRuns);
    fit, whole := Page(0, 0), runs';
    if r.None? {
      return;
    }
    fit := r.value;
    ghost var maps1 := b.maps;
    b, runs', r, cleared := PallocTrim(cfg, b, runs', Live(if dropped then laterRuns else runs), r.value,
                                       usize + cfg.pad, alignment, zero, leadRecorded, trailRecorded);
    PallocClear(cfg, a, runs, env, laterRuns, dropped, maps1, whole, b.maps, runs', usize + cfg.pad, LargeRun(zero), r,
                cleared);
    PallocZero(cfg, a, runs, env, laterRuns, dropped, whole, b, runs', fit, allocSize, r.value, usize + cfg.pad);
  }

  lemma PallocClear(cfg: Config, a: Fields, runs: map<PageId, Run>, env: Answers, laterRuns: map<PageId, Run>,
                    dropped: bool, maps1: View, whole: map<PageId, Run>, maps': View, runs': map<PageId, Run>,
                    size: nat, req: Request, r: Option<PageId>, cleared: set<PageId>)
    requires cfg.bias <= cfg.npages && ClearFrom(maps1, whole, maps', runs', {})
    requires ZeroServed(maps1, whole, {}, size, req, r, cleared)
    requires dropped ==> ClearFrom(env.later.maps, laterRuns, maps1, whole, SourceZero(cfg, env.source))
    requires !dropped ==> ClearFrom(a.maps, runs, maps1, whole, {})
    ensures dropped ==> ClearFrom(env.later.maps, laterRuns, maps', runs', SourceZero(cfg, env.source))
    ensures !dropped ==> ClearFrom(a.maps, runs, maps', runs', {})
    ensures dropped ==> ZeroServed(env.later.maps, laterRuns, SourceZero(cfg, env.source), size, req, r, cleared)
    ensures !dropped ==> ZeroServed(a.maps, runs, {}, size, req, r, cleared)
  {
    if dropped {
      ZeroServedFrom(env.later.maps, laterRuns, maps1, whole, SourceZero(cfg, env.source), size, req, r, cleared);
      ClearTwice(env.later.maps, laterRuns, maps1, whole, maps', runs', SourceZero(cfg, env.source), {});
      assert SourceZero(cfg, env.source) + {} == SourceZero(cfg, env.source);
    } else {
      ZeroServedFrom(a.maps, runs, maps1, whole, {}, size, req, r, cleared);
      ClearOnce(a.maps, runs, maps1, whole, maps', runs');
    }
  }

  /** Pages that are free after the trimming were free before the allocation. */
  lemma CutOutIdle(base: map<PageId, Run>, whole: map<PageId, Run>, runs: map<PageId, Run>, chunks: set<nat>,
                   fit: PageId, allocSize: nat, kept: PageId, size: nat)
    requires CutOut(base, whole, runs, chunks, fit, allocSize, kept, size)
    ensures Covered(runs, Idle) <= Covered(base, Idle)
  {
    var all, kind := Interval(fit, allocSize), Free(whole[fit].kind.dirty, false);
    assert MovedFor(base, whole, all, Mark(LargeRun(false), base[fit].kind.dirty), chunks, Idle);
    assert MovedFor(whole, runs, all - Interval(kept, size), kind, chunks, Idle);
    forall x | x in all
      ensures x in Covered(base, Idle)
    {
      assert x in Interval(fit, base[fit].n);
    }
  }

  lemma PallocZero(cfg: Config, a: Fields, runs: map<PageId, Run>, env: Answers, laterRuns: map<PageId, Run>,
                   dropped: bool, whole: map<PageId, Run>, b: Fields, runs': map<PageId, Run>, fit: PageId,
                   allocSize: nat, kept: PageId, size: nat)
    requires Consistent(cfg, a, runs) && Consistent(cfg, b, runs')
    requires Consistent(cfg, env.later, laterRuns) && CanOffer(env.later, env.source)
    requires CutOut(Base(cfg, runs, env, laterRuns, dropped), whole, runs', b.maps.Keys, fit, allocSize, kept, size)
    requires dropped ==> ClearFrom(env.later.maps, laterRuns, b.maps, runs', SourceZero(cfg, env.source))
    requires !dropped ==> ClearFrom(a.maps, runs, b.maps, runs', {})
    ensures dropped ==> ZeroKept(env.later.maps, laterRuns, b.maps, runs', SourceZero(cfg, env.source))
    ensures !dropped ==> ZeroKept(a.maps, runs, b.maps, runs', {})
  {
    var base := Base(cfg, runs, env, laterRuns, dropped);
    CutOutIdle(base, whole, runs', b.maps.Keys, fit, allocSize, kept, size);
    if dropped {
      AllocZeroKept(cfg, env.later, laterRuns, base, b, runs', env.source, SourceZero(cfg, env.source));
    } else {
      AllocZeroKept(cfg, a, runs, base, b, runs', env.source, {});
    }
  }

  /** The `size` pages at `kept` are what is left of the large run `id` of `allocSize` pages; the rest of it is free, as
      dirty as it was. */
  ghost predicate KeptPart(runs: map<PageId, Run>, runs': map<PageId, Run>, chunks: set<nat>, id: PageId,
                           allocSize: nat, kept: PageId, size: nat)
  {
    && id in runs && runs[id].kind.Large? && Interval(kept, size) <= Interval(id, allocSize)
    && Moved(runs, runs', Interval(id, allocSize) - Interval(kept, size), Free(runs[id].kind.dirty, false), chunks)
  }

  /** A run of `allocSize` pages is taken at `fit`, and all but the `size` pages at `kept` are given back. */
  ghost predicate CutOut(base: map<PageId, Run>, whole: map<PageId, Run>, runs: map<PageId, Run>, chunks: set<nat>,
                         fit: PageId, allocSize: nat, kept: PageId, size: nat)
  {
    && Took(base, whole, chunks, allocSize, LargeRun(false), fit)
    && KeptPart(whole, runs, chunks, fit, allocSize, kept, size)
  }

  lemma KeptPartIs(runs: map<PageId, Run>, runs': map<PageId, Run>, chunks: set<nat>, id: PageId, lead: nat, size: nat,
                   trail: nat)
    requires id in runs && runs[id].kind.Large?
    requires Moved(runs, runs', Interval(id, lead) + Interval(Page(id.chunk, id.ind + lead + size), trail),
                   Free(runs[id].kind.dirty, false), chunks)
    ensures KeptPart(runs, runs', chunks, id, lead + size + trail, Page(id.chunk, id.ind + lead), size)
  {
    IntervalSplit(id, lead, size + trail);
    IntervalSplit(Page(id.chunk, id.ind + lead), size, trail);
    assert Interval(id, lead) + Interval(Page(id.chunk, id.ind + lead + size), trail)
        == Interval(id, lead + size + trail) - Interval(Page(id.chunk, id.ind + lead), size);
  }

  /** The rest of arena_palloc_large, once a run of size + alignment - 1 pages is allocated. */
  method PallocTrim(cfg: Config, a: Fields, ghost runs: map<PageId, Run>, ghost before: map<PageId, Run>, id: PageId,
                    size: nat, alignment: nat, zero: bool, leadRecorded: bool, trailRecorded: bool)
    returns (b: Fields, ghost runs': map<PageId, Run>, r: Option<PageId>, cleared: set<PageId>)
    requires Consistent(cfg, a, runs) && 1 <= size && 1 <= alignment
    requires HandedOut(before, Live(runs), size + alignment - 1, LargeRun(false), Some(id))
    ensures Consistent(cfg, b, runs') && b.nactive == a.nactive - (alignment - 1)
    ensures r.Some? && HandedOut(before, Live(runs'), size, LargeRun(zero), r)
    ensures PageAddress(cfg, r.value) % alignment == 0
    ensures KeptPart(runs, runs', b.maps.Keys, id, size + alignment - 1, r.value, size) && SameChunks(a, b)
    ensures ClearFrom(a.maps, runs, b.maps, runs', {})
    ensures ZeroServed(a.maps, runs, {}, size, LargeRun(zero), r, cleared)
  {
    var allocSize := size + alignment - 1;
    LiveEntry(runs, id);
    var lead := Lead(PageAddress(cfg, id), alignment);
    var trail := allocSize - lead - size;
    var kept := Page(id.chunk, id.ind + lead);
    MapUpdates(before, id, runs[id], runs[id]);
    b, runs' := TrimToAlignment(cfg, a, runs, id, size, lead, trail, leadRecorded, trailRecorded);
    KeptPartIs(runs, runs', b.maps.Keys, id, lead, size, trail);
    LiveEntry(runs', kept);
    ghost var maps1, runs1 := b.maps, runs';
    b, runs', cleared := RunInitLarge(cfg, b, runs', kept, size, zero);
    r := Some(kept);
    ZeroServedFrom(a.maps, runs, maps1, runs1, {}, size, LargeRun(zero), r, cleared);
    ClearOnce(a.maps, runs, maps1, runs1, b.maps, runs');
  }

  /** arena_run_init_large on a committed run: rewrites its page map and cannot fail. */
  method RunInitLarge(cfg: Config, a: Fields, ghost runs: map<PageId, Run>, id: PageId, size: nat, zero: bool)
    returns (b: Fields, ghost runs': map<PageId, Run>, cleared: set<PageId>)
    requires Consistent(cfg, a, runs) && id in runs && runs[id].n == size
    requires runs[id].kind.Large? && !runs[id].kind.decommitted
    ensures Consistent(cfg, b, runs') && runs' == runs && b.nactive == a.nactive && SameChunks(a, b)
    ensures ClearFrom(a.maps, runs, b.maps, runs', {})
    ensures ZeroServed(a.maps, runs, {}, size, LargeRun(zero), Some(id), cleared)
  {
    assert Valid(cfg, a, runs) && AllApart(runs) by { assert Open(0); }
    LiveFacts(cfg, a, runs, id);
    var flagDirty := a.maps[id.chunk][id.ind].dirty;
    assert !a.maps[id.chunk][id.ind].decommitted;
    cleared := {};
    if zero {
      cleared := ZeroRun(a.maps, id, size, flagDirty, false);
      ZeroRunMet(a.maps, runs, a.maps, id, size, cleared);
    }
    var maps := SetLargeEnds(cfg, a.maps, id.chunk, id.ind, size, flagDirty, false, !flagDirty);
    RewrittenRun(cfg, a, runs, id, maps, Large(flagDirty, false));
    b := a.(maps := maps);
    runs' := runs;
    RekindClear(a.maps, maps, runs, id, Large(flagDirty, false), {});
    assert runs == runs[id := Run(size, Large(flagDirty, false))];
  }
}
