/** The abstract state of one arena: its chunks, the runs that tile them, and the three
    indexes kept beside them (free runs by size, the dirty ring, the page counters).

    Chunks are named by their base address divided by the chunk size; a page is a chunk and
    an index into it.  Each transition below is one critical-section step of arena.c; the
    lemma beside it shows that it keeps `Inv`.
 */
module ArenaState {
  import opened Basics
  import opened SizeClasses

  /** chunk_npages, map_bias, the page size classes and large_pad (in pages). */
  datatype Config = Config(npages: nat, bias: nat, classes: seq<nat>, pad: nat)

  ghost predicate ValidConfig(cfg: Config)
  {
    && 0 < cfg.bias < cfg.npages
    && cfg.pad <= 1
    && ValidClasses(cfg.classes)
    && cfg.npages in cfg.classes
  }

  /** arena_maxrun, in pages. */
  function MaxRun(cfg: Config): nat
    requires cfg.bias <= cfg.npages
  {
    cfg.npages - cfg.bias
  }

  datatype PageId = Page(chunk: nat, ind: nat)

  /** `Carved` is a run taken out of the free indexes whose page map is not written yet;
      `Detached` is a run marked free in the page map but not yet put back in the indexes. */
  datatype Kind =
    | Free(dirty: bool, decommitted: bool)
    | Detached(dirty: bool, decommitted: bool)
    | Carved
    | Large(dirty: bool, decommitted: bool)
    | Small(binind: nat)

  datatype Run = Run(n: nat, kind: Kind)

  datatype State = State(
    runs: map<PageId, Run>,      // every run, by its first page
    chunks: set<nat>,            // chunks owned, the spare included
    spare: Option<nat>,
    avail: seq<set<PageId>>,     // runs_avail: one heap per page size class
    ring: set<PageId>,           // runs_dirty
    ndirty: int,
    nactive: int,
    cache: set<nat>)             // chunks_cache: the chunks of address space held in the chunk cache

  // ---------------------------------------------------------------- the invariant

  function Next(id: PageId, r: Run): PageId
  {
    Page(id.chunk, id.ind + r.n)
  }

  ghost predicate Fits(cfg: Config, chunks: set<nat>, id: PageId, r: Run)
  {
    id.chunk in chunks && cfg.bias <= id.ind && 1 <= r.n && id.ind + r.n <= cfg.npages
  }

  ghost predicate Apart(a: PageId, ra: Run, b: PageId)
  {
    a.chunk == b.chunk && a.ind < b.ind ==> a.ind + ra.n <= b.ind
  }

  ghost predicate Chained(cfg: Config, runs: map<PageId, Run>)
  {
    forall id {:trigger Next(id, runs[id])} :: id in runs ==>
      id.ind + runs[id].n == cfg.npages || Next(id, runs[id]) in runs
  }

  ghost predicate AllFit(cfg: Config, chunks: set<nat>, runs: map<PageId, Run>)
  {
    forall id {:trigger Fits(cfg, chunks, id, runs[id])} :: id in runs ==> Fits(cfg, chunks, id, runs[id])
  }

  ghost predicate AllApart(runs: map<PageId, Run>)
  {
    forall a, b {:trigger Apart(a, runs[a], b)} :: a in runs && b in runs ==> Apart(a, runs[a], b)
  }

  /** Pages bias..npages of every chunk are covered exactly, without overlap. */
  ghost predicate Tiled(cfg: Config, chunks: set<nat>, runs: map<PageId, Run>)
  {
    && (forall c {:trigger Page(c, cfg.bias)} :: c in chunks ==> Page(c, cfg.bias) in runs)
    && AllFit(cfg, chunks, runs)
    && AllApart(runs)
    && Chained(cfg, runs)
  }

  /** A run is never dirty and decommitted at once. */
  ghost predicate FlagsDisjoint(runs: map<PageId, Run>)
  {
    forall id :: id in runs && (runs[id].kind.Free? || runs[id].kind.Detached? || runs[id].kind.Large?) ==>
      !(runs[id].kind.dirty && runs[id].kind.decommitted)
  }

  /** No two neighbouring free runs share both flags. */
  ghost predicate Coalesced(runs: map<PageId, Run>)
  {
    forall id {:trigger Next(id, runs[id])} ::
      id in runs && runs[id].kind.Free? && Next(id, runs[id]) in runs ==>
      runs[Next(id, runs[id])].kind != runs[id].kind
  }

  /** The runs the size index must hold: free, and not in the spare chunk. */
  ghost predicate InAvail(runs: map<PageId, Run>, spare: Option<nat>, id: PageId)
  {
    id in runs && runs[id].kind.Free? && spare != Some(id.chunk)
  }

  ghost predicate BelongsIn(cfg: Config, runs: map<PageId, Run>, spare: Option<nat>, id: PageId, i: nat)
    requires cfg.pad <= 1
  {
    InAvail(runs, spare, id) && 1 <= runs[id].n && i == RunIndex(cfg.classes, cfg.pad, runs[id].n)
  }

  /** Each heap holds exactly the free runs of non-spare chunks whose quantized size selects it. */
  ghost predicate AvailExact(cfg: Config, runs: map<PageId, Run>, spare: Option<nat>, avail: seq<set<PageId>>)
    requires cfg.pad <= 1
  {
    && |avail| == |cfg.classes|
    && (forall i, id :: 0 <= i < |avail| ==> (id in avail[i] <==> BelongsIn(cfg, runs, spare, id, i)))
  }

  /** The dirty ring holds exactly the dirty free runs, the spare's included. */
  ghost predicate RingExact(runs: map<PageId, Run>, ring: set<PageId>)
  {
    forall id :: id in ring <==> id in runs && runs[id].kind.Free? && runs[id].kind.dirty
  }

  /** The spare is one chunk-sized free run. */
  ghost predicate SpareWhole(cfg: Config, chunks: set<nat>, runs: map<PageId, Run>, spare: Option<nat>)
    requires cfg.bias <= cfg.npages
  {
    spare.Some? ==>
      && spare.value in chunks
      && Page(spare.value, cfg.bias) in runs
      && runs[Page(spare.value, cfg.bias)].n == MaxRun(cfg)
      && runs[Page(spare.value, cfg.bias)].kind.Free?
  }

  function CachePages(cfg: Config, cache: set<nat>): nat
  {
    |cache| * cfg.npages
  }

  ghost predicate Counted(cfg: Config, s: State)
    requires cfg.bias <= cfg.npages
  {
    && s.nactive == Pages(s.runs, Active)
    && s.ndirty == Pages(s.runs, Dirty) + CachePages(cfg, s.cache)
    && Pages(s.runs, All) == |s.chunks| * MaxRun(cfg)
  }

  ghost predicate Inv(cfg: Config, s: State)
  {
    && ValidConfig(cfg)
    && Tiled(cfg, s.chunks, s.runs)
    && FlagsDisjoint(s.runs)
    && Coalesced(s.runs)
    && AvailExact(cfg, s.runs, s.spare, s.avail)
    && RingExact(s.runs, s.ring)
    && SpareWhole(cfg, s.chunks, s.runs, s.spare)
    && s.cache !! s.chunks
    && Counted(cfg, s)
  }

  predicate SettledKind(k: Kind)
  {
    !k.Carved? && !k.Detached?
  }

  /** No operation is half way, except on `id`: every other run is free and indexed, or allocated. */
  ghost predicate SettledExcept(runs: map<PageId, Run>, id: Option<PageId>)
  {
    forall x :: x in runs && Some(x) != id ==> SettledKind(runs[x].kind)
  }

  ghost predicate Settled(runs: map<PageId, Run>)
  {
    SettledExcept(runs, None)
  }

  predicate IsLive(r: Run)
  {
    r.kind.Large? || r.kind.Small?
  }

  /** What clients hold: the allocated runs, with their first pages and sizes. */
  ghost function Live(runs: map<PageId, Run>): map<PageId, Run>
  {
    map id | id in runs && IsLive(runs[id]) :: runs[id]
  }

  /** Boundary tags: the run that ends where `id` begins. */
  lemma Predecessor(cfg: Config, chunks: set<nat>, runs: map<PageId, Run>, id: PageId) returns (prev: PageId)
    requires Tiled(cfg, chunks, runs)
    requires id in runs && cfg.bias < id.ind
    ensures prev in runs && Next(prev, runs[prev]) == id
  {
    assert Fits(cfg, chunks, id, runs[id]);
    prev := Page(id.chunk, cfg.bias);
    while Next(prev, runs[prev]) != id
      invariant prev in runs && prev.chunk == id.chunk && prev.ind < id.ind
      decreases id.ind - prev.ind
    {
      assert Fits(cfg, chunks, prev, runs[prev]) && Apart(prev, runs[prev], id);
      prev := Next(prev, runs[prev]);
    }
  }

  // ---------------------------------------------------------------- page counts

  datatype Measure = All | Active | Dirty | Idle | Decommitted

  predicate Counts(r: Run, m: Measure)
  {
    match m
    case All => true
    case Active => r.kind.Carved? || r.kind.Large? || r.kind.Small?
    case Dirty => r.kind.Free? && r.kind.dirty
    case Idle => r.kind.Free? || r.kind.Detached?
    case Decommitted => r.kind.Free? && r.kind.decommitted
  }

  function Weight(r: Run, m: Measure): nat
  {
    if Counts(r, m) then r.n else 0
  }

  ghost function Interval(id: PageId, n: nat): set<PageId>
  {
    set q | id.ind <= q < id.ind + n :: Page(id.chunk, q)
  }

  /** The pages covered by the runs that `m` counts. */
  ghost function Covered(runs: map<PageId, Run>, m: Measure): set<PageId>
  {
    set id, x | id in runs && Counts(runs[id], m) && x in Interval(id, runs[id].n) :: x
  }

  ghost function Pages(runs: map<PageId, Run>, m: Measure): nat
  {
    |Covered(runs, m)|
  }

  lemma {:induction false} IntervalSize(id: PageId, n: nat)
    ensures |Interval(id, n)| == n
  {
    if n == 0 {
      assert Interval(id, n) == {};
    } else {
      IntervalSize(id, n - 1);
      assert Interval(id, n) == Interval(id, n - 1) + {Page(id.chunk, id.ind + n - 1)};
    }
  }

  lemma CoveredRemove(runs: map<PageId, Run>, id: PageId, m: Measure)
    requires id in runs
    ensures Covered(runs, m) == Covered(runs - {id}, m) + (if Counts(runs[id], m) then Interval(id, runs[id].n) else {})
  {
    var rest := runs - {id};
    forall x | x in Covered(runs, m)
      ensures x in Covered(rest, m) || (Counts(runs[id], m) && x in Interval(id, runs[id].n))
    {
      var y :| y in runs && Counts(runs[y], m) && x in Interval(y, runs[y].n);
      if y != id {
        assert y in rest && x in Interval(y, rest[y].n);
      }
    }
    forall x | x in Covered(rest, m)
      ensures x in Covered(runs, m)
    {
      var y :| y in rest && Counts(rest[y], m) && x in Interval(y, rest[y].n);
      assert y in runs && x in Interval(y, runs[y].n);
    }
  }

  lemma CoveredDisjoint(runs: map<PageId, Run>, id: PageId, m: Measure)
    requires id in runs && AllApart(runs)
    ensures Covered(runs - {id}, m) !! Interval(id, runs[id].n)
  {
    var rest := runs - {id};
    forall x | x in Covered(rest, m)
      ensures x !in Interval(id, runs[id].n)
    {
      var y :| y in rest && Counts(rest[y], m) && x in Interval(y, rest[y].n);
      assert Apart(y, runs[y], id) && Apart(id, runs[id], y);
    }
  }

  lemma PagesRemove(runs: map<PageId, Run>, id: PageId, m: Measure)
    requires id in runs && AllApart(runs)
    ensures Pages(runs, m) == Weight(runs[id], m) + Pages(runs - {id}, m)
  {
    CoveredRemove(runs, id, m);
    CoveredDisjoint(runs, id, m);
    IntervalSize(id, runs[id].n);
  }

  lemma PagesUpdate(runs: map<PageId, Run>, id: PageId, r: Run, m: Measure)
    requires AllApart(runs) && AllApart(runs[id := r])
    ensures id in runs ==> Pages(runs[id := r], m) + Weight(runs[id], m) == Pages(runs, m) + Weight(r, m)
    ensures id !in runs ==> Pages(runs[id := r], m) == Pages(runs, m) + Weight(r, m)
  {
    PagesRemove(runs[id := r], id, m);
    if id in runs {
      PagesRemove(runs, id, m);
      assert runs[id := r] - {id} == runs - {id};
    } else {
      assert runs[id := r] - {id} == runs;
    }
  }

  // ---------------------------------------------------------------- cutting and fusing runs

  /** Cut `id` after `need` pages; the two parts get the given kinds. */
  function Cut(runs: map<PageId, Run>, id: PageId, need: nat, head: Kind, tail: Kind): map<PageId, Run>
    requires id in runs && need <= runs[id].n
  {
    var rem := runs[id].n - need;
    if rem == 0 then runs[id := Run(need, head)]
    else runs[id := Run(need, head)][Page(id.chunk, id.ind + need) := Run(rem, tail)]
  }

  lemma CutApart(runs: map<PageId, Run>, id: PageId, need: nat, head: Kind, tail: Kind)
    requires AllApart(runs) && id in runs && 1 <= need <= runs[id].n
    ensures AllApart(Cut(runs, id, need, head, tail))
    ensures need < runs[id].n ==> Page(id.chunk, id.ind + need) !in runs
  {
    var rest := Page(id.chunk, id.ind + need);
    var cut := Cut(runs, id, need, head, tail);
    assert need < runs[id].n && rest in runs ==> !Apart(id, runs[id], rest);
    forall a, b | a in cut && b in cut
      ensures Apart(a, cut[a], b)
    {
      if a == rest && need < runs[id].n {
        if b != rest {
          assert Apart(id, runs[id], b);
        }
      } else if b == rest && need < runs[id].n {
        assert Apart(a, runs[a], id) && Apart(id, runs[id], a);
      } else {
        assert Apart(a, runs[a], b);
      }
    }
  }

  lemma CutChained(cfg: Config, runs: map<PageId, Run>, id: PageId, need: nat, head: Kind, tail: Kind)
    requires Chained(cfg, runs) && id in runs && 1 <= need <= runs[id].n
    requires need < runs[id].n ==> Page(id.chunk, id.ind + need) !in runs
    ensures Chained(cfg, Cut(runs, id, need, head, tail))
  {
    var rest := Page(id.chunk, id.ind + need);
    var cut := Cut(runs, id, need, head, tail);
    forall a | a in cut
      ensures a.ind + cut[a].n == cfg.npages || Next(a, cut[a]) in cut
    {
      if a == rest && need < runs[id].n {
        assert Next(a, cut[a]) == Next(id, runs[id]);
      } else if a == id && need < runs[id].n {
        assert Next(a, cut[a]) == rest;
      } else {
        assert Next(a, cut[a]) == Next(a, runs[a]);
      }
    }
  }

  lemma CutTiled(cfg: Config, chunks: set<nat>, runs: map<PageId, Run>, id: PageId, need: nat, head: Kind, tail: Kind)
    requires Tiled(cfg, chunks, runs) && id in runs && 1 <= need <= runs[id].n
    ensures Tiled(cfg, chunks, Cut(runs, id, need, head, tail))
    ensures need < runs[id].n ==> Page(id.chunk, id.ind + need) !in runs
  {
    CutApart(runs, id, need, head, tail);
    CutChained(cfg, runs, id, need, head, tail);
    assert Fits(cfg, chunks, id, runs[id]);
  }

  lemma ShrinkApart(runs: map<PageId, Run>, id: PageId, r: Run)
    requires AllApart(runs) && id in runs && r.n <= runs[id].n
    ensures AllApart(runs[id := r])
  {
    var t := runs[id := r];
    forall a, b | a in t && b in t
      ensures Apart(a, t[a], b)
    {
      assert Apart(a, runs[a], b);
    }
  }

  lemma CutPages(runs: map<PageId, Run>, id: PageId, need: nat, head: Kind, tail: Kind, m: Measure)
    requires AllApart(runs) && id in runs && 1 <= need <= runs[id].n
    ensures Pages(Cut(runs, id, need, head, tail), m) + Weight(runs[id], m)
         == Pages(runs, m) + Weight(Run(need, head), m)
            + (if need < runs[id].n then Weight(Run(runs[id].n - need, tail), m) else 0)
  {
    CutApart(runs, id, need, head, tail);
    ShrinkApart(runs, id, Run(need, head));
    PagesUpdate(runs, id, Run(need, head), m);
    if need < runs[id].n {
      PagesUpdate(runs[id := Run(need, head)], Page(id.chunk, id.ind + need), Run(runs[id].n - need, tail), m);
    }
  }

  /** Merge `id` with the run right after it. */
  function Fuse(runs: map<PageId, Run>, id: PageId, kind: Kind): map<PageId, Run>
    requires id in runs && Next(id, runs[id]) in runs
  {
    var nxt := Next(id, runs[id]);
    (runs - {nxt})[id := Run(runs[id].n + runs[nxt].n, kind)]
  }

  lemma FuseApart(runs: map<PageId, Run>, id: PageId, kind: Kind)
    requires AllApart(runs) && id in runs && Next(id, runs[id]) in runs && 1 <= runs[id].n
    ensures AllApart(Fuse(runs, id, kind))
  {
    var nxt := Next(id, runs[id]);
    var fused := Fuse(runs, id, kind);
    forall a, b | a in fused && b in fused
      ensures Apart(a, fused[a], b)
    {
      assert Apart(a, runs[a], b);
      if a == id {
        assert Apart(nxt, runs[nxt], b);
      }
    }
  }

  lemma FuseChained(cfg: Config, runs: map<PageId, Run>, id: PageId, kind: Kind)
    requires Chained(cfg, runs) && AllApart(runs) && id in runs && Next(id, runs[id]) in runs
    requires forall a :: a in runs ==> 1 <= runs[a].n
    ensures Chained(cfg, Fuse(runs, id, kind))
  {
    var nxt := Next(id, runs[id]);
    var fused := Fuse(runs, id, kind);
    forall a | a in fused
      ensures a.ind + fused[a].n == cfg.npages || Next(a, fused[a]) in fused
    {
      if a == id {
        assert Next(a, fused[a]) == Next(nxt, runs[nxt]);
        assert nxt.ind < Next(nxt, runs[nxt]).ind;
      } else {
        assert Next(a, fused[a]) == Next(a, runs[a]);
        assert Apart(a, runs[a], id) && Apart(id, runs[id], a);
      }
    }
  }

  lemma FuseTiled(cfg: Config, chunks: set<nat>, runs: map<PageId, Run>, id: PageId, kind: Kind)
    requires Tiled(cfg, chunks, runs) && id in runs && Next(id, runs[id]) in runs
    ensures Tiled(cfg, chunks, Fuse(runs, id, kind))
  {
    var nxt := Next(id, runs[id]);
    assert Fits(cfg, chunks, id, runs[id]) && Fits(cfg, chunks, nxt, runs[nxt]);
    FuseApart(runs, id, kind);
    assert forall a :: a in runs ==> Fits(cfg, chunks, a, runs[a]) && 1 <= runs[a].n;
    FuseChained(cfg, runs, id, kind);
  }

  lemma RemoveApart(runs: map<PageId, Run>, id: PageId)
    requires AllApart(runs)
    ensures AllApart(runs - {id})
  {
    var t := runs - {id};
    forall a, b | a in t && b in t
      ensures Apart(a, t[a], b)
    {
      assert Apart(a, runs[a], b);
    }
  }

  lemma FusePages(runs: map<PageId, Run>, id: PageId, kind: Kind, m: Measure)
    requires AllApart(runs) && id in runs && 1 <= runs[id].n && Next(id, runs[id]) in runs
    ensures Pages(Fuse(runs, id, kind), m) + Weight(runs[id], m) + Weight(runs[Next(id, runs[id])], m)
         == Pages(runs, m) + Weight(Run(runs[id].n + runs[Next(id, runs[id])].n, kind), m)
  {
    var nxt := Next(id, runs[id]);
    PagesRemove(runs, nxt, m);
    FuseApart(runs, id, kind);
    RemoveApart(runs, nxt);
    PagesUpdate(runs - {nxt}, id, Run(runs[id].n + runs[nxt].n, kind), m);
  }

  // ---------------------------------------------------------------- heaps

  function AvailInsert(cfg: Config, avail: seq<set<PageId>>, id: PageId, n: nat): (r: seq<set<PageId>>)
    requires cfg.pad <= n
  {
    var i := RunIndex(cfg.classes, cfg.pad, n);
    if i < |avail| then avail[i := avail[i] + {id}] else avail
  }

  function AvailRemove(cfg: Config, avail: seq<set<PageId>>, id: PageId, n: nat): (r: seq<set<PageId>>)
    requires cfg.pad <= n
  {
    var i := RunIndex(cfg.classes, cfg.pad, n);
    if i < |avail| then avail[i := avail[i] - {id}] else avail
  }

  /** Free runs are shorter than a chunk, so their heap exists and its class is at most a chunk. */
  lemma IndexFits(cfg: Config, n: nat)
    requires ValidConfig(cfg) && 1 <= n < cfg.npages
    ensures RunIndex(cfg.classes, cfg.pad, n) < |cfg.classes|
    ensures cfg.classes[RunIndex(cfg.classes, cfg.pad, n)] <= cfg.npages
  {
    RunIndexInTable(cfg.classes, cfg.pad, n, cfg.npages);
  }

  /** The two maps agree on which runs are indexed, and under which size, except for `id`. */
  ghost predicate SameIndexed(a: map<PageId, Run>, b: map<PageId, Run>, spare: Option<nat>, id: PageId)
  {
    forall x :: x != id ==>
      && (InAvail(a, spare, x) <==> InAvail(b, spare, x))
      && (InAvail(a, spare, x) ==> a[x].n == b[x].n)
  }

  /** Taking a run out of its heap keeps the heaps exact when that run stops being an indexed free run. */
  lemma AvailOnRemove(cfg: Config, runs: map<PageId, Run>, spare: Option<nat>, avail: seq<set<PageId>>,
                      after: map<PageId, Run>, id: PageId)
    requires cfg.pad <= 1 && AvailExact(cfg, runs, spare, avail)
    requires id in runs && 1 <= runs[id].n
    requires SameIndexed(runs, after, spare, id) && !InAvail(after, spare, id)
    ensures AvailExact(cfg, after, spare, AvailRemove(cfg, avail, id, runs[id].n))
  {
    var avail' := AvailRemove(cfg, avail, id, runs[id].n);
    forall i, x | 0 <= i < |avail'|
      ensures x in avail'[i] <==> BelongsIn(cfg, after, spare, x, i)
    {
      assert x in avail[i] <==> BelongsIn(cfg, runs, spare, x, i);
    }
  }

  lemma AvailOnInsert(cfg: Config, runs: map<PageId, Run>, spare: Option<nat>, avail: seq<set<PageId>>,
                      after: map<PageId, Run>, id: PageId)
    requires cfg.pad <= 1 && AvailExact(cfg, runs, spare, avail)
    requires SameIndexed(runs, after, spare, id)
    requires !InAvail(runs, spare, id) && InAvail(after, spare, id) && 1 <= after[id].n
    ensures AvailExact(cfg, after, spare, AvailInsert(cfg, avail, id, after[id].n))
  {
    var avail' := AvailInsert(cfg, avail, id, after[id].n);
    forall i, x | 0 <= i < |avail'|
      ensures x in avail'[i] <==> BelongsIn(cfg, after, spare, x, i)
    {
      assert x in avail[i] <==> BelongsIn(cfg, runs, spare, x, i);
    }
  }

  // ---------------------------------------------------------------- arena_run_split_remove

  ghost predicate CanSplit(cfg: Config, s: State, id: PageId, need: nat)
  {
    && Inv(cfg, s)
    && InAvail(s.runs, s.spare, id)
    && 1 <= need <= s.runs[id].n
  }

  function SplitAvail(cfg: Config, avail: seq<set<PageId>>, id: PageId, total: nat, need: nat): seq<set<PageId>>
    requires cfg.pad <= 1 <= need <= total
  {
    if need < total
    then AvailInsert(cfg, AvailRemove(cfg, avail, id, total), Page(id.chunk, id.ind + need), total - need)
    else AvailRemove(cfg, avail, id, total)
  }

  function SplitRing(ring: set<PageId>, id: PageId, total: nat, need: nat, dirty: bool): set<PageId>
  {
    if need < total && dirty
    then ring - {id} + {Page(id.chunk, id.ind + need)}
    else ring - {id}
  }

  ghost function SplitRemove(cfg: Config, s: State, id: PageId, need: nat): State
    requires cfg.pad <= 1 && id in s.runs && s.runs[id].kind.Free? && 1 <= need <= s.runs[id].n
  {
    var total, kind := s.runs[id].n, s.runs[id].kind;
    s.(runs := Cut(s.runs, id, need, Carved, kind),
       avail := SplitAvail(cfg, s.avail, id, total, need),
       ring := SplitRing(s.ring, id, total, need, kind.dirty),
       ndirty := if kind.dirty then s.ndirty - need else s.ndirty,
       nactive := s.nactive + need)
  }

  lemma SplitOffAvail(cfg: Config, runs: map<PageId, Run>, spare: Option<nat>, avail: seq<set<PageId>>,
                      id: PageId, need: nat)
    requires cfg.pad <= 1 && id in runs && runs[id].kind.Free? && 1 <= need < runs[id].n && spare != Some(id.chunk)
    requires Page(id.chunk, id.ind + need) !in runs
    requires AvailExact(cfg, runs[id := Run(need, Carved)], spare, avail)
    ensures AvailExact(cfg, Cut(runs, id, need, Carved, runs[id].kind), spare,
                       AvailInsert(cfg, avail, Page(id.chunk, id.ind + need), runs[id].n - need))
  {
    AvailOnInsert(cfg, runs[id := Run(need, Carved)], spare, avail, Cut(runs, id, need, Carved, runs[id].kind),
                  Page(id.chunk, id.ind + need));
  }

  lemma TakenOffAvail(cfg: Config, runs: map<PageId, Run>, spare: Option<nat>, avail: seq<set<PageId>>,
                      id: PageId, need: nat)
    requires cfg.pad <= 1 && AvailExact(cfg, runs, spare, avail) && InAvail(runs, spare, id) && 1 <= need <= runs[id].n
    ensures AvailExact(cfg, runs[id := Run(need, Carved)], spare, AvailRemove(cfg, avail, id, runs[id].n))
  {
    AvailOnRemove(cfg, runs, spare, avail, runs[id := Run(need, Carved)], id);
  }

  lemma SplitPartAvail(cfg: Config, runs: map<PageId, Run>, spare: Option<nat>, avail: seq<set<PageId>>,
                       id: PageId, need: nat)
    requires cfg.pad <= 1 && AvailExact(cfg, runs, spare, avail)
    requires InAvail(runs, spare, id) && 1 <= need < runs[id].n && Page(id.chunk, id.ind + need) !in runs
    ensures AvailExact(cfg, Cut(runs, id, need, Carved, runs[id].kind), spare,
                       AvailInsert(cfg, AvailRemove(cfg, avail, id, runs[id].n), Page(id.chunk, id.ind + need),
                                   runs[id].n - need))
  {
    TakenOffAvail(cfg, runs, spare, avail, id, need);
    SplitOffAvail(cfg, runs, spare, AvailRemove(cfg, avail, id, runs[id].n), id, need);
  }

  lemma SplitWholeAvail(cfg: Config, runs: map<PageId, Run>, spare: Option<nat>, avail: seq<set<PageId>>, id: PageId)
    requires cfg.pad <= 1 && AvailExact(cfg, runs, spare, avail) && InAvail(runs, spare, id) && 1 <= runs[id].n
    ensures AvailExact(cfg, Cut(runs, id, runs[id].n, Carved, runs[id].kind), spare,
                       AvailRemove(cfg, avail, id, runs[id].n))
  {
    TakenOffAvail(cfg, runs, spare, avail, id, runs[id].n);
    assert Cut(runs, id, runs[id].n, Carved, runs[id].kind) == runs[id := Run(runs[id].n, Carved)];
  }

  lemma SplitRemoveAvail(cfg: Config, runs: map<PageId, Run>, spare: Option<nat>, avail: seq<set<PageId>>,
                         id: PageId, need: nat)
    requires cfg.pad <= 1 && AvailExact(cfg, runs, spare, avail)
    requires InAvail(runs, spare, id) && 1 <= need <= runs[id].n
    requires need < runs[id].n ==> Page(id.chunk, id.ind + need) !in runs
    ensures AvailExact(cfg, Cut(runs, id, need, Carved, runs[id].kind), spare,
                       SplitAvail(cfg, avail, id, runs[id].n, need))
  {
    if need < runs[id].n {
      var rest := Page(id.chunk, id.ind + need);
      assert SplitAvail(cfg, avail, id, runs[id].n, need)
          == AvailInsert(cfg, AvailRemove(cfg, avail, id, runs[id].n), rest, runs[id].n - need);
      SplitPartAvail(cfg, runs, spare, avail, id, need);
    } else {
      assert SplitAvail(cfg, avail, id, runs[id].n, need) == AvailRemove(cfg, avail, id, runs[id].n);
      assert need == runs[id].n;
      SplitWholeAvail(cfg, runs, spare, avail, id);
    }
  }

  lemma SplitRemoveCounts(cfg: Config, s: State, id: PageId, need: nat)
    requires cfg.pad <= 1 && cfg.bias <= cfg.npages && AllApart(s.runs) && Counted(cfg, s)
    requires id in s.runs && s.runs[id].kind.Free? && 1 <= need <= s.runs[id].n
    requires need < s.runs[id].n ==> Page(id.chunk, id.ind + need) !in s.runs
    ensures Counted(cfg, SplitRemove(cfg, s, id, need))
  {
    var kind := s.runs[id].kind;
    CutPages(s.runs, id, need, Carved, kind, All);
    CutPages(s.runs, id, need, Carved, kind, Active);
    CutPages(s.runs, id, need, Carved, kind, Dirty);
  }

  lemma CutCoalesced(runs: map<PageId, Run>, id: PageId, need: nat, head: Kind)
    requires Coalesced(runs) && AllApart(runs) && id in runs && 1 <= need <= runs[id].n && !head.Free?
    requires need < runs[id].n ==> Page(id.chunk, id.ind + need) !in runs
    ensures Coalesced(Cut(runs, id, need, head, runs[id].kind))
  {
    var rest := Page(id.chunk, id.ind + need);
    var cut := Cut(runs, id, need, head, runs[id].kind);
    forall a | a in cut && cut[a].kind.Free? && Next(a, cut[a]) in cut
      ensures cut[Next(a, cut[a])].kind != cut[a].kind
    {
      if a == rest && need < runs[id].n {
        assert Next(a, cut[a]) == Next(id, runs[id]);
      } else {
        assert Next(a, cut[a]) == Next(a, runs[a]);
        assert Apart(id, runs[id], a) && Apart(a, runs[a], id);
      }
    }
  }

  lemma CutFree(cfg: Config, chunks: set<nat>, runs: map<PageId, Run>, spare: Option<nat>, ring: set<PageId>,
                id: PageId, need: nat)
    requires cfg.bias <= cfg.npages
    requires id in runs && runs[id].kind.Free? && 1 <= need <= runs[id].n
    requires need < runs[id].n ==> Page(id.chunk, id.ind + need) !in runs
    ensures FlagsDisjoint(runs) ==> FlagsDisjoint(Cut(runs, id, need, Carved, runs[id].kind))
    ensures RingExact(runs, ring) ==> RingExact(Cut(runs, id, need, Carved, runs[id].kind),
                                                SplitRing(ring, id, runs[id].n, need, runs[id].kind.dirty))
    ensures Live(Cut(runs, id, need, Carved, runs[id].kind)) == Live(runs)
    ensures SpareWhole(cfg, chunks, runs, spare) && spare != Some(id.chunk) ==>
              SpareWhole(cfg, chunks, Cut(runs, id, need, Carved, runs[id].kind), spare)
  {
  }

  lemma SplitRemoveInv(cfg: Config, s: State, id: PageId, need: nat)
    requires CanSplit(cfg, s, id, need)
    ensures Inv(cfg, SplitRemove(cfg, s, id, need))
    ensures Live(SplitRemove(cfg, s, id, need).runs) == Live(s.runs)
  {
    CutTiled(cfg, s.chunks, s.runs, id, need, Carved, s.runs[id].kind);
    CutFree(cfg, s.chunks, s.runs, s.spare, s.ring, id, need);
    SplitRemoveAvail(cfg, s.runs, s.spare, s.avail, id, need);
    SplitRemoveCounts(cfg, s, id, need);
    CutCoalesced(s.runs, id, need, Carved);
  }

  // ---------------------------------------------------------------- writing an allocated run's page map

  predicate Allocated(k: Kind)
  {
    k.Carved? || k.Large? || k.Small?
  }

  predicate FlagsOk(k: Kind)
  {
    k.Free? || k.Detached? || k.Large? ==> !(k.dirty && k.decommitted)
  }

  /** Replacing an allocated run by allocated parts touches none of the indexes. */
  lemma CutAllocated(cfg: Config, chunks: set<nat>, runs: map<PageId, Run>, spare: Option<nat>,
                     avail: seq<set<PageId>>, ring: set<PageId>, id: PageId, need: nat, head: Kind, tail: Kind)
    requires cfg.pad <= 1 && cfg.bias <= cfg.npages
    requires id in runs && Allocated(runs[id].kind) && 1 <= need <= runs[id].n
    requires need < runs[id].n ==> Page(id.chunk, id.ind + need) !in runs
    requires Allocated(head) && Allocated(tail)
    ensures AvailExact(cfg, runs, spare, avail) ==> AvailExact(cfg, Cut(runs, id, need, head, tail), spare, avail)
    ensures RingExact(runs, ring) ==> RingExact(Cut(runs, id, need, head, tail), ring)
    ensures FlagsDisjoint(runs) && FlagsOk(head) && FlagsOk(tail) ==> FlagsDisjoint(Cut(runs, id, need, head, tail))
  {
    var cut := Cut(runs, id, need, head, tail);
    forall i, x | 0 <= i < |avail|
      ensures BelongsIn(cfg, cut, spare, x, i) <==> BelongsIn(cfg, runs, spare, x, i)
    {
    }
  }

  lemma CutAllocatedSpare(cfg: Config, chunks: set<nat>, runs: map<PageId, Run>, spare: Option<nat>,
                          id: PageId, need: nat, head: Kind, tail: Kind)
    requires cfg.bias <= cfg.npages && SpareWhole(cfg, chunks, runs, spare) && AllApart(runs)
    requires id in runs && Allocated(runs[id].kind) && Fits(cfg, chunks, id, runs[id]) && 1 <= need <= runs[id].n
    ensures spare != Some(id.chunk)
    ensures SpareWhole(cfg, chunks, Cut(runs, id, need, head, tail), spare)
  {
    if spare.Some? {
      var whole := Page(spare.value, cfg.bias);
      assert Apart(whole, runs[whole], id);
    }
  }

  lemma CutAllocatedCoalesced(runs: map<PageId, Run>, id: PageId, need: nat, head: Kind, tail: Kind)
    requires Coalesced(runs) && AllApart(runs) && id in runs && 1 <= need <= runs[id].n
    requires need < runs[id].n ==> Page(id.chunk, id.ind + need) !in runs
    requires Allocated(runs[id].kind) && Allocated(head) && Allocated(tail)
    ensures Coalesced(Cut(runs, id, need, head, tail))
  {
    var cut := Cut(runs, id, need, head, tail);
    forall a | a in cut && cut[a].kind.Free? && Next(a, cut[a]) in cut
      ensures cut[Next(a, cut[a])].kind != cut[a].kind
    {
      assert Next(a, cut[a]) == Next(a, runs[a]);
    }
  }

  /** arena_run_trim_*: present one large run as two, before one of them is freed. */
  ghost function CutRun(s: State, id: PageId, need: nat, head: Kind, tail: Kind): State
    requires id in s.runs && need <= s.runs[id].n
  {
    s.(runs := Cut(s.runs, id, need, head, tail))
  }

  lemma CutRunCounts(cfg: Config, s: State, id: PageId, need: nat, head: Kind, tail: Kind)
    requires cfg.bias <= cfg.npages && AllApart(s.runs) && Counted(cfg, s)
    requires id in s.runs && 1 <= need <= s.runs[id].n
    requires need < s.runs[id].n ==> Page(id.chunk, id.ind + need) !in s.runs
    requires Allocated(s.runs[id].kind) && Allocated(head) && Allocated(tail)
    ensures Counted(cfg, CutRun(s, id, need, head, tail))
  {
    CutPages(s.runs, id, need, head, tail, All);
    CutPages(s.runs, id, need, head, tail, Active);
    CutPages(s.runs, id, need, head, tail, Dirty);
  }

  lemma CutRunInv(cfg: Config, s: State, id: PageId, need: nat, head: Kind, tail: Kind)
    requires Inv(cfg, s) && id in s.runs && Allocated(s.runs[id].kind) && 1 <= need <= s.runs[id].n
    requires Allocated(head) && Allocated(tail) && FlagsOk(head) && FlagsOk(tail)
    ensures Inv(cfg, CutRun(s, id, need, head, tail))
    ensures need < s.runs[id].n ==> Page(id.chunk, id.ind + need) !in s.runs
    ensures s.spare != Some(id.chunk)
  {
    CutTiled(cfg, s.chunks, s.runs, id, need, head, tail);
    CutAllocated(cfg, s.chunks, s.runs, s.spare, s.avail, s.ring, id, need, head, tail);
    assert Fits(cfg, s.chunks, id, s.runs[id]);
    CutAllocatedSpare(cfg, s.chunks, s.runs, s.spare, id, need, head, tail);
    CutAllocatedCoalesced(s.runs, id, need, head, tail);
    CutRunCounts(cfg, s, id, need, head, tail);
  }

  // ---------------------------------------------------------------- arena_run_dalloc

  /** The first half of arena_run_dalloc: the run leaves nactive and is marked unallocated. */
  ghost function Detach(s: State, id: PageId, dirty: bool, decommitted: bool): State
    requires id in s.runs
  {
    s.(runs := s.runs[id := Run(s.runs[id].n, Detached(dirty, decommitted))],
       nactive := s.nactive - s.runs[id].n)
  }

  lemma DetachParts(cfg: Config, chunks: set<nat>, runs: map<PageId, Run>, spare: Option<nat>,
                    avail: seq<set<PageId>>, ring: set<PageId>, id: PageId, r: Run)
    requires cfg.pad <= 1 && cfg.bias <= cfg.npages
    requires id in runs && !runs[id].kind.Free? && !r.kind.Free? && FlagsOk(r.kind) && r.n == runs[id].n
    ensures AvailExact(cfg, runs, spare, avail) ==> AvailExact(cfg, runs[id := r], spare, avail)
    ensures RingExact(runs, ring) ==> RingExact(runs[id := r], ring)
    ensures FlagsDisjoint(runs) ==> FlagsDisjoint(runs[id := r])
    ensures SpareWhole(cfg, chunks, runs, spare) ==> SpareWhole(cfg, chunks, runs[id := r], spare)
  {
    forall i, x | 0 <= i < |avail|
      ensures BelongsIn(cfg, runs[id := r], spare, x, i) <==> BelongsIn(cfg, runs, spare, x, i)
    {
    }
  }

  lemma RekindTiled(cfg: Config, chunks: set<nat>, runs: map<PageId, Run>, id: PageId, kind: Kind)
    requires Tiled(cfg, chunks, runs) && id in runs
    ensures Tiled(cfg, chunks, runs[id := Run(runs[id].n, kind)])
  {
    assert Fits(cfg, chunks, id, runs[id]);
    CutTiled(cfg, chunks, runs, id, runs[id].n, kind, kind);
  }

  lemma DetachCoalesced(runs: map<PageId, Run>, id: PageId, kind: Kind)
    requires Coalesced(runs) && id in runs && !kind.Free?
    ensures Coalesced(runs[id := Run(runs[id].n, kind)])
  {
    var t := runs[id := Run(runs[id].n, kind)];
    forall a | a in t && t[a].kind.Free? && Next(a, t[a]) in t
      ensures t[Next(a, t[a])].kind != t[a].kind
    {
      assert Next(a, t[a]) == Next(a, runs[a]);
    }
  }

  lemma DetachCounts(cfg: Config, s: State, id: PageId, dirty: bool, decommitted: bool)
    requires cfg.bias <= cfg.npages && AllApart(s.runs) && Counted(cfg, s)
    requires id in s.runs && Allocated(s.runs[id].kind)
    ensures Counted(cfg, Detach(s, id, dirty, decommitted))
    ensures Live(Detach(s, id, dirty, decommitted).runs) == Live(s.runs) - {id}
  {
    var r := Run(s.runs[id].n, Detached(dirty, decommitted));
    ShrinkApart(s.runs, id, r);
    PagesUpdate(s.runs, id, r, All);
    PagesUpdate(s.runs, id, r, Active);
    PagesUpdate(s.runs, id, r, Dirty);
  }

  lemma DetachInv(cfg: Config, s: State, id: PageId, dirty: bool, decommitted: bool)
    requires Inv(cfg, s) && id in s.runs && Allocated(s.runs[id].kind) && !(dirty && decommitted)
    ensures Inv(cfg, Detach(s, id, dirty, decommitted))
    ensures Live(Detach(s, id, dirty, decommitted).runs) == Live(s.runs) - {id}
  {
    var r := Run(s.runs[id].n, Detached(dirty, decommitted));
    RekindTiled(cfg, s.chunks, s.runs, id, r.kind);
    DetachParts(cfg, s.chunks, s.runs, s.spare, s.avail, s.ring, id, r);
    DetachCoalesced(s.runs, id, r.kind);
    DetachCounts(cfg, s, id, dirty, decommitted);
  }

  /** arena_run_coalesce, one side: `first` and its neighbour become one detached run.
      `free` is whichever of the two was free; it leaves its heap and the dirty ring. */
  ghost function Absorb(cfg: Config, s: State, first: PageId, free: PageId): State
    requires cfg.pad <= 1 && first in s.runs && Next(first, s.runs[first]) in s.runs
    requires free in s.runs && s.runs[free].kind.Free? && 1 <= s.runs[free].n
  {
    var kind := s.runs[free].kind;
    s.(runs := Fuse(s.runs, first, Detached(kind.dirty, kind.decommitted)),
       avail := AvailRemove(cfg, s.avail, free, s.runs[free].n),
       ring := s.ring - {free},
       ndirty := if kind.dirty then s.ndirty - s.runs[free].n else s.ndirty)
  }

  /** `first` and the run after it are one detached and one free run of the same flags. */
  ghost predicate CanAbsorb(runs: map<PageId, Run>, first: PageId, free: PageId)
  {
    && first in runs && Next(first, runs[first]) in runs
    && 1 <= runs[first].n && 1 <= runs[Next(first, runs[first])].n
    && var second := Next(first, runs[first]);
       && (free == first || free == second)
       && var other := if free == first then second else first;
          && runs[free].kind.Free?
          && runs[other].kind == Detached(runs[free].kind.dirty, runs[free].kind.decommitted)
  }

  lemma AbsorbAvail(cfg: Config, runs: map<PageId, Run>, spare: Option<nat>, avail: seq<set<PageId>>,
                    first: PageId, free: PageId, kind: Kind)
    requires cfg.pad <= 1 && AvailExact(cfg, runs, spare, avail)
    requires CanAbsorb(runs, first, free) && kind.Detached?
    ensures AvailExact(cfg, Fuse(runs, first, kind), spare, AvailRemove(cfg, avail, free, runs[free].n))
  {
    var fused := Fuse(runs, first, kind);
    forall x | x != free
      ensures InAvail(runs, spare, x) <==> InAvail(fused, spare, x)
      ensures InAvail(runs, spare, x) ==> runs[x].n == fused[x].n
    {
    }
    AvailOnRemove(cfg, runs, spare, avail, fused, free);
  }

  lemma AbsorbParts(cfg: Config, chunks: set<nat>, runs: map<PageId, Run>, spare: Option<nat>, ring: set<PageId>,
                    first: PageId, free: PageId, kind: Kind)
    requires cfg.bias <= cfg.npages
    requires CanAbsorb(runs, first, free) && kind.Detached? && FlagsOk(kind)
    ensures RingExact(runs, ring) ==> RingExact(Fuse(runs, first, kind), ring - {free})
    ensures FlagsDisjoint(runs) ==> FlagsDisjoint(Fuse(runs, first, kind))
    ensures Live(Fuse(runs, first, kind)) == Live(runs)
    ensures SpareWhole(cfg, chunks, runs, spare) && spare != Some(first.chunk) ==>
              SpareWhole(cfg, chunks, Fuse(runs, first, kind), spare)
  {
  }

  lemma FuseCoalesced(runs: map<PageId, Run>, first: PageId, kind: Kind)
    requires Coalesced(runs) && AllApart(runs) && first in runs && Next(first, runs[first]) in runs && !kind.Free?
    requires forall a :: a in runs ==> 1 <= runs[a].n
    ensures Coalesced(Fuse(runs, first, kind))
  {
    var fused := Fuse(runs, first, kind);
    forall a | a in fused && fused[a].kind.Free? && Next(a, fused[a]) in fused
      ensures fused[Next(a, fused[a])].kind != fused[a].kind
    {
      assert Next(a, fused[a]) == Next(a, runs[a]);
    }
  }

  lemma AbsorbCounts(cfg: Config, s: State, first: PageId, free: PageId)
    requires cfg.pad <= 1 && cfg.bias <= cfg.npages && AllApart(s.runs) && Counted(cfg, s)
             && CanAbsorb(s.runs, first, free)
    ensures Counted(cfg, Absorb(cfg, s, first, free))
  {
    var kind := Detached(s.runs[free].kind.dirty, s.runs[free].kind.decommitted);
    FusePages(s.runs, first, kind, All);
    FusePages(s.runs, first, kind, Active);
    FusePages(s.runs, first, kind, Dirty);
  }

  lemma AbsorbInv(cfg: Config, s: State, first: PageId, free: PageId)
    requires Inv(cfg, s) && CanAbsorb(s.runs, first, free) && s.spare != Some(first.chunk)
    ensures Inv(cfg, Absorb(cfg, s, first, free))
    ensures Live(Absorb(cfg, s, first, free).runs) == Live(s.runs)
  {
    var kind := Detached(s.runs[free].kind.dirty, s.runs[free].kind.decommitted);
    FuseTiled(cfg, s.chunks, s.runs, first, kind);
    AbsorbAvail(cfg, s.runs, s.spare, s.avail, first, free, kind);
    AbsorbParts(cfg, s.chunks, s.runs, s.spare, s.ring, first, free, kind);
    assert forall a :: a in s.runs ==> Fits(cfg, s.chunks, a, s.runs[a]) && 1 <= s.runs[a].n;
    FuseCoalesced(s.runs, first, kind);
    AbsorbCounts(cfg, s, first, free);
  }

  /** The last part of arena_run_dalloc: the coalesced run enters its heap and the dirty ring. */
  ghost function Attach(cfg: Config, s: State, id: PageId): State
    requires cfg.pad <= 1 && id in s.runs && s.runs[id].kind.Detached? && 1 <= s.runs[id].n
  {
    var kind := s.runs[id].kind;
    s.(runs := s.runs[id := Run(s.runs[id].n, Free(kind.dirty, kind.decommitted))],
       avail := AvailInsert(cfg, s.avail, id, s.runs[id].n),
       ring := if kind.dirty then s.ring + {id} else s.ring,
       ndirty := if kind.dirty then s.ndirty + s.runs[id].n else s.ndirty)
  }

  /** Neither neighbour of `id` is a free run with these flags. */
  ghost predicate NoMergeableNeighbour(runs: map<PageId, Run>, id: PageId, free: Kind)
  {
    && id in runs
    && (Next(id, runs[id]) in runs ==> runs[Next(id, runs[id])].kind != free)
    && (forall p {:trigger Next(p, runs[p])} :: p in runs && Next(p, runs[p]) == id ==> runs[p].kind != free)
  }

  lemma AttachParts(cfg: Config, chunks: set<nat>, runs: map<PageId, Run>, spare: Option<nat>, avail: seq<set<PageId>>,
                    ring: set<PageId>, id: PageId, kind: Kind)
    requires cfg.pad <= 1 && cfg.bias <= cfg.npages
    requires id in runs && runs[id].kind.Detached? && 1 <= runs[id].n && kind.Free? && FlagsOk(kind)
    requires spare != Some(id.chunk)
    ensures AvailExact(cfg, runs, spare, avail) ==>
              AvailExact(cfg, runs[id := Run(runs[id].n, kind)], spare, AvailInsert(cfg, avail, id, runs[id].n))
    ensures RingExact(runs, ring) ==>
              RingExact(runs[id := Run(runs[id].n, kind)], if kind.dirty then ring + {id} else ring)
    ensures FlagsDisjoint(runs) ==> FlagsDisjoint(runs[id := Run(runs[id].n, kind)])
    ensures Live(runs[id := Run(runs[id].n, kind)]) == Live(runs)
    ensures SpareWhole(cfg, chunks, runs, spare) ==> SpareWhole(cfg, chunks, runs[id := Run(runs[id].n, kind)], spare)
  {
    if AvailExact(cfg, runs, spare, avail) {
      AvailOnInsert(cfg, runs, spare, avail, runs[id := Run(runs[id].n, kind)], id);
    }
  }

  lemma AttachCoalesced(runs: map<PageId, Run>, id: PageId, kind: Kind)
    requires Coalesced(runs) && kind.Free? && NoMergeableNeighbour(runs, id, kind)
    requires 1 <= runs[id].n
    ensures Coalesced(runs[id := Run(runs[id].n, kind)])
  {
    var t := runs[id := Run(runs[id].n, kind)];
    forall a | a in t && t[a].kind.Free? && Next(a, t[a]) in t
      ensures t[Next(a, t[a])].kind != t[a].kind
    {
      assert Next(a, t[a]) == Next(a, runs[a]);
    }
  }

  lemma AttachCounts(cfg: Config, s: State, id: PageId)
    requires cfg.pad <= 1 && cfg.bias <= cfg.npages && AllApart(s.runs) && Counted(cfg, s)
    requires id in s.runs && s.runs[id].kind.Detached? && 1 <= s.runs[id].n
    ensures Counted(cfg, Attach(cfg, s, id))
  {
    var r := Run(s.runs[id].n, Free(s.runs[id].kind.dirty, s.runs[id].kind.decommitted));
    ShrinkApart(s.runs, id, r);
    PagesUpdate(s.runs, id, r, All);
    PagesUpdate(s.runs, id, r, Active);
    PagesUpdate(s.runs, id, r, Dirty);
  }

  lemma AttachInv(cfg: Config, s: State, id: PageId)
    requires Inv(cfg, s) && id in s.runs && s.runs[id].kind.Detached? && s.spare != Some(id.chunk)
    requires 1 <= s.runs[id].n
    requires NoMergeableNeighbour(s.runs, id, Free(s.runs[id].kind.dirty, s.runs[id].kind.decommitted))
    ensures Inv(cfg, Attach(cfg, s, id))
    ensures Live(Attach(cfg, s, id).runs) == Live(s.runs)
  {
    var kind := Free(s.runs[id].kind.dirty, s.runs[id].kind.decommitted);
    RekindTiled(cfg, s.chunks, s.runs, id, kind);
    AttachParts(cfg, s.chunks, s.runs, s.spare, s.avail, s.ring, id, kind);
    AttachCoalesced(s.runs, id, kind);
    AttachCounts(cfg, s, id);
  }

  ghost predicate NextNotMergeable(runs: map<PageId, Run>, id: PageId, free: Kind)
    requires id in runs
  {
    Next(id, runs[id]) in runs ==> runs[Next(id, runs[id])].kind != free
  }

  ghost predicate PrevNotMergeable(runs: map<PageId, Run>, id: PageId, free: Kind)
  {
    forall p {:trigger Next(p, runs[p])} :: p in runs && Next(p, runs[p]) == id ==> runs[p].kind != free
  }

  lemma ForwardDone(runs: map<PageId, Run>, id: PageId, free: Kind, kind: Kind)
    requires Coalesced(runs) && id in runs && Next(id, runs[id]) in runs && free.Free?
    requires runs[Next(id, runs[id])].kind == free
    requires forall a :: a in runs ==> 1 <= runs[a].n
    ensures NextNotMergeable(Fuse(runs, id, kind), id, free)
  {
    var nxt := Next(id, runs[id]);
    var fused := Fuse(runs, id, kind);
    assert Next(id, fused[id]) == Next(nxt, runs[nxt]);
  }

  lemma BackwardDone(runs: map<PageId, Run>, prev: PageId, free: Kind, kind: Kind)
    requires Coalesced(runs) && AllApart(runs) && prev in runs && Next(prev, runs[prev]) in runs && free.Free?
    requires runs[prev].kind == free
    requires forall a :: a in runs ==> 1 <= runs[a].n
    ensures PrevNotMergeable(Fuse(runs, prev, kind), prev, free)
    ensures NextNotMergeable(runs, Next(prev, runs[prev]), free) ==>
            NextNotMergeable(Fuse(runs, prev, kind), prev, free)
  {
    var id := Next(prev, runs[prev]);
    var fused := Fuse(runs, prev, kind);
    assert Next(prev, fused[prev]) == Next(id, runs[id]);
    forall p | p in fused && Next(p, fused[p]) == prev
      ensures fused[p].kind != free
    {
      assert p != prev;
      assert Next(p, runs[p]) == prev;
    }
  }

  // ---------------------------------------------------------------- whole chunks

  ghost predicate WholeFree(cfg: Config, runs: map<PageId, Run>, c: nat)
    requires cfg.bias <= cfg.npages
  {
    && Page(c, cfg.bias) in runs
    && runs[Page(c, cfg.bias)].n == MaxRun(cfg)
    && runs[Page(c, cfg.bias)].kind.Free?
  }

  /** arena_spare_discard: the spare leaves the arena, for the chunk cache unless recording it there failed. */
  ghost function DropSpare(cfg: Config, s: State, recorded: bool): State
    requires cfg.bias <= cfg.npages && s.spare.Some? && WholeFree(cfg, s.runs, s.spare.value)
  {
    var id := Page(s.spare.value, cfg.bias);
    s.(runs := s.runs - {id},
       chunks := s.chunks - {s.spare.value},
       spare := None,
       ring := s.ring - {id},
       ndirty := (if s.runs[id].kind.dirty then s.ndirty - MaxRun(cfg) else s.ndirty)
         + (if recorded then cfg.npages else 0),
       cache := if recorded then s.cache + {s.spare.value} else s.cache)
  }

  /** Removing a chunk-sized run leaves the other chunks tiled. */
  lemma DropTiled(cfg: Config, chunks: set<nat>, runs: map<PageId, Run>, c: nat)
    requires ValidConfig(cfg) && Tiled(cfg, chunks, runs) && c in chunks && WholeFree(cfg, runs, c)
    ensures Tiled(cfg, chunks - {c}, runs - {Page(c, cfg.bias)})
    ensures forall x :: x in runs && x.chunk == c ==> x == Page(c, cfg.bias)
  {
    var id := Page(c, cfg.bias);
    var t := runs - {id};
    forall x | x in runs && x.chunk == c
      ensures x == id
    {
      assert Apart(id, runs[id], x) && Fits(cfg, chunks, x, runs[x]);
    }
    forall a | a in t
      ensures Fits(cfg, chunks - {c}, a, t[a])
      ensures a.ind + t[a].n == cfg.npages || Next(a, t[a]) in t
    {
      assert Fits(cfg, chunks, a, runs[a]);
      assert Next(a, t[a]) == Next(a, runs[a]);
    }
  }

  lemma DropParts(cfg: Config, runs: map<PageId, Run>, c: nat, avail: seq<set<PageId>>, ring: set<PageId>)
    requires ValidConfig(cfg) && WholeFree(cfg, runs, c)
    requires forall x :: x in runs && x.chunk == c ==> x == Page(c, cfg.bias)
    ensures AvailExact(cfg, runs, Some(c), avail) ==> AvailExact(cfg, runs - {Page(c, cfg.bias)}, None, avail)
    ensures RingExact(runs, ring) ==> RingExact(runs - {Page(c, cfg.bias)}, ring - {Page(c, cfg.bias)})
    ensures FlagsDisjoint(runs) ==> FlagsDisjoint(runs - {Page(c, cfg.bias)})
    ensures Live(runs - {Page(c, cfg.bias)}) == Live(runs)
  {
    var t := runs - {Page(c, cfg.bias)};
    forall i, x | 0 <= i < |avail|
      ensures BelongsIn(cfg, t, None, x, i) <==> BelongsIn(cfg, runs, Some(c), x, i)
    {
    }
  }

  lemma RemoveCoalesced(runs: map<PageId, Run>, id: PageId)
    requires Coalesced(runs)
    ensures Coalesced(runs - {id})
  {
    var t := runs - {id};
    forall a | a in t && t[a].kind.Free? && Next(a, t[a]) in t
      ensures t[Next(a, t[a])].kind != t[a].kind
    {
      assert Next(a, t[a]) == Next(a, runs[a]);
    }
  }

  lemma MulSucc(n: nat, k: nat)
    ensures (n + 1) * k == n * k + k
  {
  }

  lemma DropCounts(cfg: Config, s: State, recorded: bool)
    requires cfg.bias <= cfg.npages && AllApart(s.runs) && Counted(cfg, s)
    requires s.spare.Some? && s.spare.value in s.chunks && WholeFree(cfg, s.runs, s.spare.value) && s.cache !! s.chunks
    ensures Counted(cfg, DropSpare(cfg, s, recorded))
  {
    MulSucc(|s.cache|, cfg.npages);
    var id := Page(s.spare.value, cfg.bias);
    PagesRemove(s.runs, id, All);
    PagesRemove(s.runs, id, Active);
    PagesRemove(s.runs, id, Dirty);
    MulSucc(|s.chunks - {s.spare.value}|, MaxRun(cfg));
  }

  lemma DropSpareInv(cfg: Config, s: State, recorded: bool)
    requires Inv(cfg, s) && s.spare.Some?
    ensures Inv(cfg, DropSpare(cfg, s, recorded))
    ensures Live(DropSpare(cfg, s, recorded).runs) == Live(s.runs)
  {
    DropTiled(cfg, s.chunks, s.runs, s.spare.value);
    DropParts(cfg, s.runs, s.spare.value, s.avail, s.ring);
    RemoveCoalesced(s.runs, Page(s.spare.value, cfg.bias));
    DropCounts(cfg, s, recorded);
  }

  /** arena_chunk_dalloc: an entirely free chunk becomes the spare. */
  ghost function Retire(cfg: Config, s: State, c: nat): State
    requires ValidConfig(cfg) && WholeFree(cfg, s.runs, c)
  {
    s.(spare := Some(c), avail := AvailRemove(cfg, s.avail, Page(c, cfg.bias), MaxRun(cfg)))
  }

  lemma RetireAvail(cfg: Config, chunks: set<nat>, runs: map<PageId, Run>, avail: seq<set<PageId>>, c: nat)
    requires ValidConfig(cfg) && WholeFree(cfg, runs, c)
    requires forall x :: x in runs && x.chunk == c ==> x == Page(c, cfg.bias)
    ensures AvailExact(cfg, runs, None, avail) ==>
              AvailExact(cfg, runs, Some(c), AvailRemove(cfg, avail, Page(c, cfg.bias), MaxRun(cfg)))
    ensures AvailExact(cfg, runs, Some(c), avail) ==>
              AvailExact(cfg, runs, None, AvailInsert(cfg, avail, Page(c, cfg.bias), MaxRun(cfg)))
  {
    forall i, x | 0 <= i < |avail| && x != Page(c, cfg.bias)
      ensures BelongsIn(cfg, runs, None, x, i) <==> BelongsIn(cfg, runs, Some(c), x, i)
    {
    }
  }

  lemma RetireInv(cfg: Config, s: State, c: nat)
    requires Inv(cfg, s) && s.spare.None? && c in s.chunks && WholeFree(cfg, s.runs, c)
    ensures Inv(cfg, Retire(cfg, s, c))
  {
    DropTiled(cfg, s.chunks, s.runs, c);
    RetireAvail(cfg, s.chunks, s.runs, s.avail, c);
  }

  /** arena_chunk_alloc from the spare. */
  ghost function Revive(cfg: Config, s: State): State
    requires ValidConfig(cfg) && s.spare.Some?
  {
    s.(spare := None, avail := AvailInsert(cfg, s.avail, Page(s.spare.value, cfg.bias), MaxRun(cfg)))
  }

  lemma ReviveInv(cfg: Config, s: State)
    requires Inv(cfg, s) && s.spare.Some?
    ensures Inv(cfg, Revive(cfg, s))
    ensures InAvail(Revive(cfg, s).runs, None, Page(s.spare.value, cfg.bias))
  {
    DropTiled(cfg, s.chunks, s.runs, s.spare.value);
    RetireAvail(cfg, s.chunks, s.runs, s.avail, s.spare.value);
  }

  /** arena_chunk_cache_maybe_insert: an extent of whole chunks enters the chunk cache. */
  ghost function CacheInsert(cfg: Config, s: State, extent: set<nat>): State
  {
    s.(ndirty := s.ndirty + CachePages(cfg, extent), cache := s.cache + extent)
  }

  /** arena_chunk_cache_maybe_remove. */
  ghost function CacheRemove(cfg: Config, s: State, extent: set<nat>): State
  {
    s.(ndirty := s.ndirty - CachePages(cfg, extent), cache := s.cache - extent)
  }

  lemma CachePagesSum(cfg: Config, a: set<nat>, b: set<nat>)
    requires a !! b
    ensures CachePages(cfg, a + b) == CachePages(cfg, a) + CachePages(cfg, b)
  {
    assert |a + b| == |a| + |b|;
    MulSum(|a|, |b|, cfg.npages);
  }

  lemma MulSum(a: nat, b: nat, k: nat)
    ensures (a + b) * k == a * k + b * k
  {
  }

  lemma CacheInsertInv(cfg: Config, s: State, extent: set<nat>)
    requires Inv(cfg, s) && extent !! s.cache && extent !! s.chunks
    ensures Inv(cfg, CacheInsert(cfg, s, extent))
  {
    CachePagesSum(cfg, s.cache, extent);
  }

  /** Removing an extent that the cache holds: the assertion that ndirty is at least its pages holds. */
  lemma CacheRemoveInv(cfg: Config, s: State, extent: set<nat>)
    requires Inv(cfg, s) && extent <= s.cache
    ensures Inv(cfg, CacheRemove(cfg, s, extent))
    ensures CachePages(cfg, extent) <= s.ndirty
  {
    assert s.cache == (s.cache - extent) + extent;
    CachePagesSum(cfg, s.cache - extent, extent);
  }

  /** Removing a dirty run from the ring: the assertion that ndirty is at least its pages holds. */
  lemma DirtyEnough(cfg: Config, s: State, id: PageId)
    requires Inv(cfg, s) && id in s.ring
    ensures id in s.runs && s.runs[id].n <= s.ndirty
  {
    PagesRemove(s.runs, id, Dirty);
  }

  /** arena_chunk_alloc of a chunk the arena did not own. */
  ghost function AddChunk(cfg: Config, s: State, c: nat, decommitted: bool): State
    requires cfg.pad <= 1 && cfg.bias < cfg.npages
  {
    var id := Page(c, cfg.bias);
    s.(runs := s.runs[id := Run(MaxRun(cfg), Free(false, decommitted))],
       chunks := s.chunks + {c},
       avail := AvailInsert(cfg, s.avail, id, MaxRun(cfg)))
  }

  lemma AddTiled(cfg: Config, chunks: set<nat>, runs: map<PageId, Run>, c: nat, kind: Kind)
    requires ValidConfig(cfg) && Tiled(cfg, chunks, runs) && c !in chunks
    ensures Tiled(cfg, chunks + {c}, runs[Page(c, cfg.bias) := Run(MaxRun(cfg), kind)])
    ensures forall x :: x in runs ==> x.chunk != c
  {
    var id := Page(c, cfg.bias);
    var t := runs[id := Run(MaxRun(cfg), kind)];
    assert forall x :: x in runs ==> Fits(cfg, chunks, x, runs[x]);
    forall a | a in t
      ensures a.ind + t[a].n == cfg.npages || Next(a, t[a]) in t
    {
      if a != id {
        assert Next(a, t[a]) == Next(a, runs[a]);
      }
    }
  }

  lemma AddParts(cfg: Config, chunks: set<nat>, runs: map<PageId, Run>, spare: Option<nat>, avail: seq<set<PageId>>,
                 ring: set<PageId>, c: nat, r: Run)
    requires ValidConfig(cfg) && r.kind.Free? && !r.kind.dirty && r.n == MaxRun(cfg)
    requires forall x :: x in runs ==> x.chunk != c
    requires spare != Some(c)
    ensures AvailExact(cfg, runs, spare, avail) ==>
              AvailExact(cfg, runs[Page(c, cfg.bias) := r], spare,
                         AvailInsert(cfg, avail, Page(c, cfg.bias), MaxRun(cfg)))
    ensures RingExact(runs, ring) ==> RingExact(runs[Page(c, cfg.bias) := r], ring)
    ensures FlagsDisjoint(runs) ==> FlagsDisjoint(runs[Page(c, cfg.bias) := r])
    ensures Live(runs[Page(c, cfg.bias) := r]) == Live(runs)
    ensures SpareWhole(cfg, chunks, runs, spare) ==> SpareWhole(cfg, chunks + {c}, runs[Page(c, cfg.bias) := r], spare)
    ensures InAvail(runs[Page(c, cfg.bias) := r], spare, Page(c, cfg.bias))
  {
    if AvailExact(cfg, runs, spare, avail) {
      AvailOnInsert(cfg, runs, spare, avail, runs[Page(c, cfg.bias) := r], Page(c, cfg.bias));
    }
  }

  lemma AddCoalesced(cfg: Config, runs: map<PageId, Run>, c: nat, r: Run)
    requires Coalesced(runs) && forall x :: x in runs ==> x.chunk != c
    requires 1 <= r.n
    ensures Coalesced(runs[Page(c, cfg.bias) := r])
  {
    var t := runs[Page(c, cfg.bias) := r];
    forall a | a in t && t[a].kind.Free? && Next(a, t[a]) in t
      ensures t[Next(a, t[a])].kind != t[a].kind
    {
      if a != Page(c, cfg.bias) {
        assert Next(a, t[a]) == Next(a, runs[a]);
      }
    }
  }

  lemma AddApart(runs: map<PageId, Run>, id: PageId, r: Run)
    requires AllApart(runs)
    requires forall x :: x in runs ==> x.chunk != id.chunk
    ensures AllApart(runs[id := r])
  {
    var t := runs[id := r];
    forall a, b | a in t && b in t
      ensures Apart(a, t[a], b)
    {
      if a in runs && b in runs {
        assert Apart(a, runs[a], b);
      }
    }
  }

  lemma AddCounts(cfg: Config, s: State, c: nat, decommitted: bool)
    requires cfg.pad <= 1 && cfg.bias < cfg.npages && AllApart(s.runs) && Counted(cfg, s) && c !in s.chunks
    requires forall x :: x in s.runs ==> x.chunk != c
    ensures Counted(cfg, AddChunk(cfg, s, c, decommitted))
  {
    var id, r := Page(c, cfg.bias), Run(MaxRun(cfg), Free(false, decommitted));
    AddApart(s.runs, id, r);
    PagesUpdate(s.runs, id, r, All);
    PagesUpdate(s.runs, id, r, Active);
    PagesUpdate(s.runs, id, r, Dirty);
    MulSucc(|s.chunks|, MaxRun(cfg));
  }

  lemma AddChunkInv(cfg: Config, s: State, c: nat, decommitted: bool)
    requires Inv(cfg, s) && c !in s.chunks && c !in s.cache
    ensures Inv(cfg, AddChunk(cfg, s, c, decommitted))
    ensures Live(AddChunk(cfg, s, c, decommitted).runs) == Live(s.runs)
    ensures InAvail(AddChunk(cfg, s, c, decommitted).runs, s.spare, Page(c, cfg.bias))
  {
    var r := Run(MaxRun(cfg), Free(false, decommitted));
    AddTiled(cfg, s.chunks, s.runs, c, r.kind);
    AddParts(cfg, s.chunks, s.runs, s.spare, s.avail, s.ring, c, r);
    AddCoalesced(cfg, s.runs, c, r);
    AddCounts(cfg, s, c, decommitted);
  }

  // ---------------------------------------------------------------- allocation as one step

  /** Carve a run and write its page map: what a successful allocation does. */
  ghost function Allocate(cfg: Config, s: State, id: PageId, need: nat, kind: Kind): State
    requires cfg.pad <= 1 && id in s.runs && s.runs[id].kind.Free? && 1 <= need <= s.runs[id].n
  {
    CutRun(SplitRemove(cfg, s, id, need), id, need, kind, kind)
  }

  lemma AllocateRuns(runs: map<PageId, Run>, id: PageId, need: nat, kind: Kind)
    requires id in runs && runs[id].kind.Free? && 1 <= need <= runs[id].n
    requires need < runs[id].n ==> Page(id.chunk, id.ind + need) !in runs
    requires kind.Large? || kind.Small?
    ensures var t := Cut(Cut(runs, id, need, Carved, runs[id].kind), id, need, kind, kind);
            && t == Cut(runs, id, need, kind, runs[id].kind)
            && Live(t) == Live(runs)[id := Run(need, kind)]
            && (Settled(runs) ==> Settled(t))
  {
  }

  /** An allocation adds one run to the live ones and disturbs no other. */
  lemma AllocateLive(cfg: Config, s: State, id: PageId, need: nat, kind: Kind)
    requires CanSplit(cfg, s, id, need) && (kind.Large? || kind.Small?) && FlagsOk(kind)
    ensures id !in Live(s.runs)
    ensures Live(Allocate(cfg, s, id, need, kind).runs) == Live(s.runs)[id := Run(need, kind)]
    ensures Settled(s.runs) ==> Settled(Allocate(cfg, s, id, need, kind).runs)
  {
    CutApart(s.runs, id, need, Carved, s.runs[id].kind);
    AllocateRuns(s.runs, id, need, kind);
  }

  // ---------------------------------------------------------------- resizing live runs

  lemma CutLive(runs: map<PageId, Run>, id: PageId, need: nat, head: Kind, tail: Kind)
    requires id in runs && 1 <= need < runs[id].n && Page(id.chunk, id.ind + need) !in runs
    requires (head.Large? || head.Small?) && (tail.Large? || tail.Small?)
    ensures Live(Cut(runs, id, need, head, tail))
         == Live(runs)[id := Run(need, head)][Page(id.chunk, id.ind + need) := Run(runs[id].n - need, tail)]
    ensures Settled(runs) ==> Settled(Cut(runs, id, need, head, tail))
  {
  }

  /** arena_ralloc_large_grow: two neighbouring allocated runs become one. */
  ghost function FuseRun(s: State, id: PageId, kind: Kind): State
    requires id in s.runs && Next(id, s.runs[id]) in s.runs
  {
    s.(runs := Fuse(s.runs, id, kind))
  }

  lemma FuseParts(cfg: Config, chunks: set<nat>, runs: map<PageId, Run>, spare: Option<nat>, avail: seq<set<PageId>>,
                  ring: set<PageId>, id: PageId, kind: Kind)
    requires cfg.pad <= 1 && cfg.bias <= cfg.npages
    requires id in runs && Next(id, runs[id]) in runs && Allocated(runs[id].kind)
             && Allocated(runs[Next(id, runs[id])].kind)
    requires Allocated(kind) && FlagsOk(kind)
    ensures AvailExact(cfg, runs, spare, avail) ==> AvailExact(cfg, Fuse(runs, id, kind), spare, avail)
    ensures RingExact(runs, ring) ==> RingExact(Fuse(runs, id, kind), ring)
    ensures FlagsDisjoint(runs) ==> FlagsDisjoint(Fuse(runs, id, kind))
    ensures SpareWhole(cfg, chunks, runs, spare) ==> SpareWhole(cfg, chunks, Fuse(runs, id, kind), spare)
  {
    var fused := Fuse(runs, id, kind);
    forall i, x | 0 <= i < |avail|
      ensures BelongsIn(cfg, fused, spare, x, i) <==> BelongsIn(cfg, runs, spare, x, i)
    {
    }
  }

  lemma FuseLive(runs: map<PageId, Run>, id: PageId, kind: Kind)
    requires id in runs && Next(id, runs[id]) in runs && 1 <= runs[id].n
    requires IsLive(runs[id]) && IsLive(runs[Next(id, runs[id])]) && kind.Large?
    ensures Live(Fuse(runs, id, kind))
         == (Live(runs) - {Next(id, runs[id])})[id := Run(runs[id].n + runs[Next(id, runs[id])].n, kind)]
    ensures Settled(runs) ==> Settled(Fuse(runs, id, kind))
  {
  }

  lemma FuseCounts(cfg: Config, s: State, id: PageId, kind: Kind)
    requires cfg.bias <= cfg.npages && AllApart(s.runs) && Counted(cfg, s)
    requires id in s.runs && 1 <= s.runs[id].n && Next(id, s.runs[id]) in s.runs
    requires Allocated(s.runs[id].kind) && Allocated(s.runs[Next(id, s.runs[id])].kind) && Allocated(kind)
    ensures Counted(cfg, FuseRun(s, id, kind))
  {
    FusePages(s.runs, id, kind, All);
    FusePages(s.runs, id, kind, Active);
    FusePages(s.runs, id, kind, Dirty);
  }

  lemma FuseRunInv(cfg: Config, s: State, id: PageId, kind: Kind)
    requires Inv(cfg, s) && id in s.runs && Next(id, s.runs[id]) in s.runs
    requires Allocated(s.runs[id].kind) && Allocated(s.runs[Next(id, s.runs[id])].kind) && Allocated(kind)
             && FlagsOk(kind)
    ensures Inv(cfg, FuseRun(s, id, kind))
  {
    FuseTiled(cfg, s.chunks, s.runs, id, kind);
    FuseParts(cfg, s.chunks, s.runs, s.spare, s.avail, s.ring, id, kind);
    assert forall a :: a in s.runs ==> Fits(cfg, s.chunks, a, s.runs[a]) && 1 <= s.runs[a].n;
    FuseCoalesced(s.runs, id, kind);
    FuseCounts(cfg, s, id, kind);
  }

  // ---------------------------------------------------------------- what the invariant means

  /** Two runs never share a page, and none reaches outside its chunk or into its header. */
  lemma RunsDisjoint(cfg: Config, s: State, a: PageId, b: PageId)
    requires Inv(cfg, s) && a in s.runs && b in s.runs && a != b
    ensures Interval(a, s.runs[a].n) !! Interval(b, s.runs[b].n)
    ensures forall x :: x in Interval(a, s.runs[a].n) ==> x.chunk in s.chunks && cfg.bias <= x.ind < cfg.npages
  {
    assert Apart(a, s.runs[a], b) && Apart(b, s.runs[b], a);
    assert Fits(cfg, s.chunks, a, s.runs[a]);
  }

  /** Every page of every chunk, header excluded, belongs to some run. */
  lemma PagesCovered(cfg: Config, s: State, x: PageId)
    requires Inv(cfg, s) && x.chunk in s.chunks && cfg.bias <= x.ind < cfg.npages
    ensures exists id :: id in s.runs && x in Interval(id, s.runs[id].n)
  {
    var id := Page(x.chunk, cfg.bias);
    while id.ind + s.runs[id].n <= x.ind
      invariant id in s.runs && id.chunk == x.chunk && id.ind <= x.ind
      decreases x.ind - id.ind
    {
      assert Fits(cfg, s.chunks, id, s.runs[id]);
      id := Next(id, s.runs[id]);
    }
    assert x in Interval(id, s.runs[id].n);
  }

  /** Conservation: active pages and free pages together are all the pages of all the chunks. */
  lemma PagesConserved(cfg: Config, s: State)
    requires Inv(cfg, s)
    ensures s.nactive + Pages(s.runs, Idle) == |s.chunks| * MaxRun(cfg)
    ensures 0 <= s.ndirty - CachePages(cfg, s.cache) <= Pages(s.runs, Idle)
  {
    var active, idle, dirty := Covered(s.runs, Active), Covered(s.runs, Idle), Covered(s.runs, Dirty);
    forall x | x in active
      ensures x !in idle
    {
      var a :| a in s.runs && Counts(s.runs[a], Active) && x in Interval(a, s.runs[a].n);
      forall b | b in s.runs && Counts(s.runs[b], Idle)
        ensures x !in Interval(b, s.runs[b].n)
      {
        assert Apart(a, s.runs[a], b) && Apart(b, s.runs[b], a);
      }
    }
    CoveredSplit(s.runs);
    assert |active + idle| == |active| + |idle|;
    assert dirty <= idle by { CoveredDirtyIdle(s.runs); }
    SubsetSize(dirty, idle);
  }

  lemma SubsetSize(a: set<PageId>, b: set<PageId>)
    requires a <= b
    ensures |a| <= |b|
  {
    assert b == a + (b - a);
  }

  lemma CoveredDirtyIdle(runs: map<PageId, Run>)
    ensures Covered(runs, Dirty) <= Covered(runs, Idle)
  {
    forall x | x in Covered(runs, Dirty)
      ensures x in Covered(runs, Idle)
    {
      var a :| a in runs && Counts(runs[a], Dirty) && x in Interval(a, runs[a].n);
      assert Counts(runs[a], Idle);
    }
  }

  lemma CoveredSplit(runs: map<PageId, Run>)
    ensures Covered(runs, All) == Covered(runs, Active) + Covered(runs, Idle)
  {
    forall x | x in Covered(runs, All)
      ensures x in Covered(runs, Active) || x in Covered(runs, Idle)
    {
      var a :| a in runs && Counts(runs[a], All) && x in Interval(a, runs[a].n);
      assert Counts(runs[a], Active) || Counts(runs[a], Idle);
    }
    forall x, m: Measure | x in Covered(runs, m)
      ensures x in Covered(runs, All)
    {
      var a :| a in runs && Counts(runs[a], m) && x in Interval(a, runs[a].n);
      assert Counts(runs[a], All);
    }
  }
}
