/** The chunk page map as boundary tags.

    Only the first and last entries of a free or large run, and all entries of a small run,
    carry information; the entries in between are stale.  `Describes` says which entries
    must match a run, and the lemmas show that writing inside one run keeps the description
    of every other run.
 */
module PageMap {
  import opened Basics
  import opened SizeClasses
  import opened ArenaState

  /** One arena_chunk_map_bits_t, sizes in pages. */
  datatype MapBits = Bits(
    inUse: bool,
    large: bool,
    size: nat,
    dirty: bool,
    unzeroed: bool,
    decommitted: bool,
    binind: nat,
    runind: nat)

  const BININD_INVALID: nat := 0xff

  function UnallocatedBits(size: nat, dirty: bool, unzeroed: bool, decommitted: bool): MapBits
  {
    Bits(false, false, size, dirty, unzeroed, decommitted, BININD_INVALID, 0)
  }

  function LargeBits(size: nat, dirty: bool, unzeroed: bool, decommitted: bool): MapBits
  {
    Bits(true, true, size, dirty, unzeroed, decommitted, BININD_INVALID, 0)
  }

  function SmallBits(runind: nat, binind: nat, unzeroed: bool): MapBits
  {
    Bits(true, false, 0, false, unzeroed, false, binind, runind)
  }

  function InternalBits(unzeroed: bool): MapBits
  {
    Bits(false, false, 0, false, unzeroed, false, 0, 0)
  }

  ghost predicate FreeTag(b: MapBits, n: nat, dirty: bool)
  {
    !b.inUse && !b.large && b.size == n && b.dirty == dirty
  }

  ghost predicate LargeTag(b: MapBits, dirty: bool, decommitted: bool)
  {
    b.inUse && b.large && b.dirty == dirty && b.decommitted == decommitted
  }

  ghost predicate SmallTag(b: MapBits, runind: nat, binind: nat)
  {
    b.inUse && !b.large && b.runind == runind && b.binind == binind && !b.dirty && !b.decommitted
  }

  /** The page map entries of the run `r` that starts at page `p` say what `r` is.
      A chunk that was never carved carries its decommitted flag on its first page only. */
  ghost predicate Describes(cfg: Config, m: seq<MapBits>, p: nat, r: Run)
    requires 1 <= r.n && p + r.n <= |m| && cfg.bias <= cfg.npages
  {
    match r.kind
    case Carved => true
    case Small(binind) =>
      forall q :: p <= q < p + r.n ==> SmallTag(m[q], q - p, binind)
    case Large(dirty, decommitted) =>
      && LargeTag(m[p], dirty, decommitted) && m[p].size == r.n
      && LargeTag(m[p + r.n - 1], dirty, decommitted) && (1 < r.n ==> m[p + r.n - 1].size == 0)
    case Free(dirty, decommitted) =>
      && FreeTag(m[p], r.n, dirty) && m[p].decommitted == decommitted
      && FreeTag(m[p + r.n - 1], r.n, dirty) && (r.n != MaxRun(cfg) ==> m[p + r.n - 1].decommitted == decommitted)
    case Detached(dirty, decommitted) =>
      && FreeTag(m[p], r.n, dirty) && m[p].decommitted == decommitted
      && FreeTag(m[p + r.n - 1], r.n, dirty) && m[p + r.n - 1].decommitted == decommitted
  }

  type View = map<nat, seq<MapBits>>

  ghost predicate DescribedAt(cfg: Config, view: View, id: PageId, r: Run)
  {
    && cfg.bias <= cfg.npages
    && id.chunk in view
    && 1 <= r.n && id.ind + r.n <= |view[id.chunk]|
    && Describes(cfg, view[id.chunk], id.ind, r)
  }

  ghost predicate Described(cfg: Config, view: View, runs: map<PageId, Run>)
  {
    && (forall c :: c in view ==> |view[c]| == cfg.npages)
    && (forall id {:trigger DescribedAt(cfg, view, id, runs[id])} :: id in runs ==>
        DescribedAt(cfg, view, id, runs[id]))
  }

  /** `after` differs from `view` only on pages lo..hi of chunk `c`. */
  ghost predicate WrittenWithin(view: View, after: View, c: nat, lo: nat, hi: nat)
  {
    && c in view
    && after.Keys == view.Keys
    && (forall d :: d in view && d != c ==> after[d] == view[d])
    && |after[c]| == |view[c]|
    && (forall i :: 0 <= i < |view[c]| && !(lo <= i < hi) ==> after[c][i] == view[c][i])
  }

  /** Writing inside one run leaves every other run described. */
  lemma OthersDescribed(cfg: Config, view: View, after: View, id: PageId, r: Run, x: PageId, rx: Run)
    requires DescribedAt(cfg, view, x, rx)
    requires WrittenWithin(view, after, id.chunk, id.ind, id.ind + r.n)
    requires x.chunk == id.chunk && x.ind < id.ind ==> x.ind + rx.n <= id.ind
    requires x.chunk == id.chunk && id.ind <= x.ind ==> id.ind + r.n <= x.ind
    ensures DescribedAt(cfg, after, x, rx)
  {
    if x.chunk == id.chunk {
      var m, m' := view[x.chunk], after[x.chunk];
      assert forall i :: x.ind <= i < x.ind + rx.n ==> m'[i] == m[i];
      assert m'[x.ind] == m[x.ind] && m'[x.ind + rx.n - 1] == m[x.ind + rx.n - 1];
    }
  }

  lemma DescribedCut(cfg: Config, view: View, after: View, runs: map<PageId, Run>, id: PageId, need: nat,
                     head: Kind, tail: Kind)
    requires Described(cfg, view, runs) && AllApart(runs)
    requires id in runs && 1 <= need <= runs[id].n
    requires WrittenWithin(view, after, id.chunk, id.ind, id.ind + runs[id].n)
    requires DescribedAt(cfg, after, id, Run(need, head))
    requires need < runs[id].n ==> DescribedAt(cfg, after, Page(id.chunk, id.ind + need), Run(runs[id].n - need, tail))
    ensures Described(cfg, after, Cut(runs, id, need, head, tail))
  {
    var cut := Cut(runs, id, need, head, tail);
    forall x | x in cut
      ensures DescribedAt(cfg, after, x, cut[x])
    {
      if x != id && !(need < runs[id].n && x == Page(id.chunk, id.ind + need)) {
        assert Apart(x, runs[x], id) && Apart(id, runs[id], x);
        assert DescribedAt(cfg, view, x, runs[x]);
        OthersDescribed(cfg, view, after, id, runs[id], x, runs[x]);
      }
    }
  }

  lemma DescribedRekind(cfg: Config, view: View, after: View, runs: map<PageId, Run>, id: PageId, kind: Kind)
    requires Described(cfg, view, runs) && AllApart(runs)
    requires id in runs
    requires WrittenWithin(view, after, id.chunk, id.ind, id.ind + runs[id].n)
    requires DescribedAt(cfg, after, id, Run(runs[id].n, kind))
    ensures Described(cfg, after, runs[id := Run(runs[id].n, kind)])
  {
    assert DescribedAt(cfg, view, id, runs[id]);
    DescribedCut(cfg, view, after, runs, id, runs[id].n, kind, kind);
  }

  lemma DescribedFuse(cfg: Config, view: View, after: View, runs: map<PageId, Run>, id: PageId, kind: Kind)
    requires Described(cfg, view, runs) && AllApart(runs)
    requires id in runs && Next(id, runs[id]) in runs
    requires WrittenWithin(view, after, id.chunk, id.ind, id.ind + runs[id].n + runs[Next(id, runs[id])].n)
    requires DescribedAt(cfg, after, id, Run(runs[id].n + runs[Next(id, runs[id])].n, kind))
    ensures Described(cfg, after, Fuse(runs, id, kind))
  {
    var nxt := Next(id, runs[id]);
    var fused := Fuse(runs, id, kind);
    forall x | x in fused
      ensures DescribedAt(cfg, after, x, fused[x])
    {
      if x != id {
        assert Apart(x, runs[x], id) && Apart(id, runs[id], x) && Apart(nxt, runs[nxt], x);
        assert DescribedAt(cfg, view, x, runs[x]);
        OthersDescribed(cfg, view, after, id, fused[id], x, runs[x]);
      }
    }
  }

  /** Boundary tags read backward: the entry before a run tells whether the run there is free, and how long it is. */
  lemma PrevTag(cfg: Config, view: View, runs: map<PageId, Run>, prev: PageId)
    requires Described(cfg, view, runs) && prev in runs
    ensures DescribedAt(cfg, view, prev, runs[prev])
    ensures runs[prev].kind.Free? && runs[prev].n != MaxRun(cfg) ==>
              var b := view[prev.chunk][prev.ind + runs[prev].n - 1];
              !b.inUse && b.size == runs[prev].n && b.dirty == runs[prev].kind.dirty
              && b.decommitted == runs[prev].kind.decommitted
    ensures IsLive(runs[prev]) ==> view[prev.chunk][prev.ind + runs[prev].n - 1].inUse
  {
    assert DescribedAt(cfg, view, prev, runs[prev]);
    if runs[prev].kind.Small? {
      var q := prev.ind + runs[prev].n - 1;
      assert SmallTag(view[prev.chunk][q], q - prev.ind, runs[prev].kind.binind);
    }
  }

  /** Boundary tags read forward. */
  lemma FirstTag(cfg: Config, view: View, runs: map<PageId, Run>, id: PageId)
    requires Described(cfg, view, runs) && id in runs
    ensures DescribedAt(cfg, view, id, runs[id])
    ensures runs[id].kind.Free? ==>
              var b := view[id.chunk][id.ind];
              !b.inUse && !b.large && b.size == runs[id].n && b.dirty == runs[id].kind.dirty
              && b.decommitted == runs[id].kind.decommitted
    ensures IsLive(runs[id]) ==> view[id.chunk][id.ind].inUse
  {
    assert DescribedAt(cfg, view, id, runs[id]);
    if runs[id].kind.Small? {
      assert SmallTag(view[id.chunk][id.ind], 0, runs[id].kind.binind);
    }
  }

  /** What the page map and the indexes say about a free run that can be split. */
  lemma SplitFacts(cfg: Config, s: State, view: View, id: PageId, need: nat)
    requires CanSplit(cfg, s, id, need) && Described(cfg, view, s.runs)
    ensures id.chunk in view && id.ind + s.runs[id].n <= |view[id.chunk]| && s.runs[id].n < cfg.npages
    ensures view[id.chunk][id.ind].size == s.runs[id].n
    ensures view[id.chunk][id.ind].dirty == s.runs[id].kind.dirty
    ensures view[id.chunk][id.ind].decommitted == s.runs[id].kind.decommitted
    ensures view[id.chunk][id.ind + s.runs[id].n - 1].dirty == s.runs[id].kind.dirty
    ensures RunIndex(cfg.classes, cfg.pad, s.runs[id].n) < |s.avail| == |cfg.classes|
    ensures id in s.avail[RunIndex(cfg.classes, cfg.pad, s.runs[id].n)]
    ensures s.runs[id].kind.dirty <==> id in s.ring
    ensures need < s.runs[id].n ==> Page(id.chunk, id.ind + need) !in s.ring
  {
    FirstTag(cfg, view, s.runs, id);
    assert Fits(cfg, s.chunks, id, s.runs[id]);
    IndexFits(cfg, s.runs[id].n);
    assert BelongsIn(cfg, s.runs, s.spare, id, RunIndex(cfg.classes, cfg.pad, s.runs[id].n));
    CutApart(s.runs, id, need, Carved, Carved);
  }

  /** The page map after arena_run_split_remove: only the remainder's two ends were written. */
  lemma SplitDescribed(cfg: Config, view: View, after: View, runs: map<PageId, Run>, id: PageId, need: nat)
    requires Described(cfg, view, runs) && AllApart(runs) && cfg.bias <= cfg.npages
    requires id in runs && runs[id].kind.Free? && 1 <= need <= runs[id].n
    requires need == runs[id].n ==> after == view
    requires need < runs[id].n ==>
               && WrittenWithin(view, after, id.chunk, id.ind + need, id.ind + runs[id].n)
               && DescribedAt(cfg, after, Page(id.chunk, id.ind + need), Run(runs[id].n - need, runs[id].kind))
    ensures Described(cfg, after, Cut(runs, id, need, Carved, runs[id].kind))
    ensures after.Keys == view.Keys
  {
    assert DescribedAt(cfg, view, id, runs[id]);
    assert WrittenWithin(view, after, id.chunk, id.ind, id.ind + runs[id].n);
    DescribedCut(cfg, view, after, runs, id, need, Carved, runs[id].kind);
  }

  /** Coalescing reads one tag: the page after `id` tells whether a free run with these flags follows. */
  lemma NextTag(cfg: Config, s: State, view: View, id: PageId, dirty: bool, decommitted: bool)
    requires Inv(cfg, s) && Described(cfg, view, s.runs) && id in s.runs && SettledExcept(s.runs, Some(id))
    ensures id.chunk in view && |view[id.chunk]| == cfg.npages && 1 <= s.runs[id].n
            && id.ind + s.runs[id].n <= cfg.npages
    ensures id.ind + s.runs[id].n < cfg.npages ==>
              var nxt := Next(id, s.runs[id]);
              var b := view[id.chunk][nxt.ind];
              && nxt in s.runs && nxt != id
              && (s.runs[nxt].kind == Free(dirty, decommitted) <==>
                    !b.inUse && b.dirty == dirty && b.decommitted == decommitted)
              && (s.runs[nxt].kind.Free? ==> b.size == s.runs[nxt].n && nxt.ind + b.size <= cfg.npages && 1 <= b.size)
    ensures id.ind + s.runs[id].n == cfg.npages ==> Next(id, s.runs[id]) !in s.runs
  {
    assert Fits(cfg, s.chunks, id, s.runs[id]) && DescribedAt(cfg, view, id, s.runs[id]);
    var nxt := Next(id, s.runs[id]);
    if nxt in s.runs {
      assert Fits(cfg, s.chunks, nxt, s.runs[nxt]);
    }
    if id.ind + s.runs[id].n < cfg.npages {
      assert nxt in s.runs;
      FirstTag(cfg, view, s.runs, nxt);
    }
  }

  /** The page before `id` tells whether a free run with these flags precedes it, and how long it is. */
  lemma PrevTagOf(cfg: Config, s: State, view: View, id: PageId, dirty: bool, decommitted: bool) returns (prev: PageId)
    requires Inv(cfg, s) && Described(cfg, view, s.runs) && id in s.runs && SettledExcept(s.runs, Some(id))
    requires cfg.bias < id.ind
    ensures id.chunk in view && |view[id.chunk]| == cfg.npages && id.ind < cfg.npages
    ensures prev in s.runs && Next(prev, s.runs[prev]) == id && prev != id && 1 <= s.runs[prev].n
    ensures var b := view[id.chunk][id.ind - 1];
            && (s.runs[prev].kind == Free(dirty, decommitted) <==>
                  !b.inUse && b.dirty == dirty && b.decommitted == decommitted)
            && (s.runs[prev].kind.Free? ==> b.size == s.runs[prev].n)
  {
    prev := Predecessor(cfg, s.chunks, s.runs, id);
    assert Fits(cfg, s.chunks, id, s.runs[id]) && DescribedAt(cfg, view, id, s.runs[id]);
    assert Fits(cfg, s.chunks, prev, s.runs[prev]);
    PrevTag(cfg, view, s.runs, prev);
  }

  ghost predicate SizesWritten(view: View, after: View, c: nat, p: nat, n: nat)
  {
    && WrittenWithin(view, after, c, p, p + n)
    && 2 <= n && p + n <= |view[c]|
    && after[c][p] == view[c][p].(size := n)
    && after[c][p + n - 1] == view[c][p + n - 1].(size := n)
  }

  /** After coalescing, both ends of the merged run carry its size and the common flags. */
  lemma AbsorbDescribed(cfg: Config, view: View, after: View, runs: map<PageId, Run>, first: PageId, free: PageId)
    requires Described(cfg, view, runs) && AllApart(runs) && cfg.bias <= cfg.npages
    requires CanAbsorb(runs, first, free)
    requires first.ind >= cfg.bias && first.ind + runs[first].n + runs[Next(first, runs[first])].n <= cfg.npages
    requires SizesWritten(view, after, first.chunk, first.ind, runs[first].n + runs[Next(first, runs[first])].n)
    ensures Described(cfg, after, Fuse(runs, first, Detached(runs[free].kind.dirty, runs[free].kind.decommitted)))
  {
    var second := Next(first, runs[first]);
    assert DescribedAt(cfg, view, first, runs[first]) && DescribedAt(cfg, view, second, runs[second]);
    var kind := Detached(runs[free].kind.dirty, runs[free].kind.decommitted);
    assert DescribedAt(cfg, after, first, Run(runs[first].n + runs[second].n, kind));
    DescribedFuse(cfg, view, after, runs, first, kind);
  }

  /** A chunk with its own page map leaves the other chunks described. */
  lemma DescribedAdd(cfg: Config, view: View, runs: map<PageId, Run>, c: nat, m: seq<MapBits>, r: Run)
    requires Described(cfg, view, runs) && cfg.bias <= cfg.npages && |m| == cfg.npages && c !in view
    requires 1 <= r.n && cfg.bias + r.n <= cfg.npages && Describes(cfg, m, cfg.bias, r)
    ensures Described(cfg, view[c := m], runs[Page(c, cfg.bias) := r])
  {
    var view', runs' := view[c := m], runs[Page(c, cfg.bias) := r];
    forall x | x in runs'
      ensures DescribedAt(cfg, view', x, runs'[x])
    {
      if x != Page(c, cfg.bias) {
        assert DescribedAt(cfg, view, x, runs[x]);
      }
    }
  }
}
