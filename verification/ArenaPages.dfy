/** The arena seen page by page: which pages are held, free, dirty or decommitted, whatever runs they are in.
    Together with the chunks, the spare and the cache this determines what the indexes and counters of a consistent
    arena hold.
 */
module ArenaPages {
  import opened Basics
  import opened ArenaState

  /** The pages that are in one of these chunks. */
  ghost function Within(chunks: set<nat>, pages: set<PageId>): set<PageId>
  {
    set x | x in pages && x.chunk in chunks
  }

  ghost predicate MovedFor(before: map<PageId, Run>, after: map<PageId, Run>, moved: set<PageId>, kind: Kind,
                           chunks: set<nat>, m: Measure)
  {
    Covered(after, m) == Within(chunks, (Covered(before, m) - moved) + if Counts(Run(1, kind), m) then moved else {})
  }

  /** The pages in `moved` now are as `kind` says, and all others as before; only those of `chunks` are left. */
  ghost predicate Moved(before: map<PageId, Run>, after: map<PageId, Run>, moved: set<PageId>, kind: Kind,
                        chunks: set<nat>)
  {
    forall m {:trigger MovedFor(before, after, moved, kind, chunks, m)} ::
      MovedFor(before, after, moved, kind, chunks, m)
  }

  lemma MovedTwice(first: map<PageId, Run>, second: map<PageId, Run>, third: map<PageId, Run>, a: set<PageId>,
                   b: set<PageId>, kind: Kind, before: set<nat>, after: set<nat>)
    requires Moved(first, second, a, kind, before) && Moved(second, third, b, kind, after) && after <= before
    ensures Moved(first, third, a + b, kind, after)
  {
    forall m: Measure
      ensures MovedFor(first, third, a + b, kind, after, m)
    {
      assert MovedFor(first, second, a, kind, before, m) && MovedFor(second, third, b, kind, after, m);
    }
  }

  lemma StillTwice(first: map<PageId, Run>, second: map<PageId, Run>, third: map<PageId, Run>, kind: Kind,
                   chunks: set<nat>)
    requires Moved(first, second, {}, kind, chunks) && Moved(second, third, {}, kind, chunks)
    ensures Moved(first, third, {}, kind, chunks)
  {
    var none: set<PageId> := {};
    MovedTwice(first, second, third, none, none, kind, chunks, chunks);
    assert none + none == none;
  }

  /** How a moved page is counted. */
  lemma MovedCounts(before: map<PageId, Run>, after: map<PageId, Run>, moved: set<PageId>, kind: Kind,
                    chunks: set<nat>, x: PageId, m: Measure)
    requires Moved(before, after, moved, kind, chunks) && x in moved && x.chunk in chunks
    ensures x in Covered(after, m) <==> Counts(Run(1, kind), m)
  {
    assert MovedFor(before, after, moved, kind, chunks, m);
  }

  lemma MovedSame(first: map<PageId, Run>, second: map<PageId, Run>, a: set<PageId>, b: set<PageId>, kind: Kind,
                  like: Kind, chunks: set<nat>)
    requires Moved(first, second, a, kind, chunks) && a == b
    requires forall m: Measure :: Counts(Run(1, kind), m) == Counts(Run(1, like), m)
    ensures Moved(first, second, b, like, chunks)
  {
    forall m: Measure
      ensures MovedFor(first, second, b, like, chunks, m)
    {
      assert MovedFor(first, second, a, kind, chunks, m);
      assert Counts(Run(1, kind), m) == Counts(Run(1, like), m);
    }
  }

  /** A page is counted as the run that it lies in is. */
  lemma OnlyRun(runs: map<PageId, Run>, x: PageId, y: PageId, m: Measure)
    requires AllApart(runs) && y in runs && x in Interval(y, runs[y].n)
    ensures x in Covered(runs, m) <==> Counts(runs[y], m)
  {
    if x in Covered(runs, m) {
      var z :| z in runs && Counts(runs[z], m) && x in Interval(z, runs[z].n);
      assert Apart(y, runs[y], z) && Apart(z, runs[z], y);
    }
  }

  lemma CoveredFits(cfg: Config, chunks: set<nat>, runs: map<PageId, Run>, m: Measure)
    requires AllFit(cfg, chunks, runs)
    ensures Within(chunks, Covered(runs, m)) == Covered(runs, m)
  {
    forall x | x in Covered(runs, m)
      ensures x.chunk in chunks
    {
      var id :| id in runs && Counts(runs[id], m) && x in Interval(id, runs[id].n);
      assert Fits(cfg, chunks, id, runs[id]);
    }
  }

  lemma StillMoved(cfg: Config, chunks: set<nat>, runs: map<PageId, Run>, kind: Kind)
    requires AllFit(cfg, chunks, runs)
    ensures Moved(runs, runs, {}, kind, chunks)
  {
    forall m: Measure
      ensures MovedFor(runs, runs, {}, kind, chunks, m)
    {
      CoveredFits(cfg, chunks, runs, m);
    }
  }

  /** A run changes its kind. */
  lemma RekindMoved(cfg: Config, chunks: set<nat>, runs: map<PageId, Run>, id: PageId, kind: Kind)
    requires AllFit(cfg, chunks, runs) && AllApart(runs) && id in runs
    ensures Moved(runs, runs[id := Run(runs[id].n, kind)], Interval(id, runs[id].n), kind, chunks)
  {
    var after := runs[id := Run(runs[id].n, kind)];
    forall m: Measure
      ensures MovedFor(runs, after, Interval(id, runs[id].n), kind, chunks, m)
    {
      CoveredRemove(runs, id, m);
      CoveredDisjoint(runs, id, m);
      CoveredRemove(after, id, m);
      assert after - {id} == runs - {id};
      CoveredFits(cfg, chunks, runs, m);
      assert Fits(cfg, chunks, id, runs[id]);
    }
  }

  /** A held run that stays held moves no page. */
  lemma RelabelMoved(cfg: Config, chunks: set<nat>, runs: map<PageId, Run>, id: PageId, kind: Kind)
    requires AllFit(cfg, chunks, runs) && id in runs && runs[id].kind.Large? && kind.Large?
    ensures Moved(runs, runs[id := Run(runs[id].n, kind)], {}, Carved, chunks)
  {
    var after := runs[id := Run(runs[id].n, kind)];
    forall m: Measure
      ensures MovedFor(runs, after, {}, Carved, chunks, m)
    {
      CoveredRemove(runs, id, m);
      CoveredRemove(after, id, m);
      assert after - {id} == runs - {id};
      CoveredFits(cfg, chunks, runs, m);
    }
  }

  lemma IntervalSplit(id: PageId, a: nat, b: nat)
    ensures Interval(id, a + b) == Interval(id, a) + Interval(Page(id.chunk, id.ind + a), b)
    ensures Interval(id, a) !! Interval(Page(id.chunk, id.ind + a), b)
  {
    forall x | x in Interval(id, a + b)
      ensures x in Interval(id, a) || x in Interval(Page(id.chunk, id.ind + a), b)
    {
      assert x == Page(id.chunk, x.ind);
    }
  }

  lemma CutCovered(runs: map<PageId, Run>, id: PageId, need: nat, head: Kind, tail: Kind, m: Measure)
    requires id in runs && need < runs[id].n && Page(id.chunk, id.ind + need) !in runs && need > 0
    ensures Covered(Cut(runs, id, need, head, tail), m) == Covered(runs - {id}, m)
            + (if Counts(Run(1, head), m) then Interval(id, need) else {})
            + (if Counts(Run(1, tail), m) then Interval(Page(id.chunk, id.ind + need), runs[id].n - need) else {})
  {
    var rest := Page(id.chunk, id.ind + need);
    var after := Cut(runs, id, need, head, tail);
    CoveredRemove(after, rest, m);
    CoveredRemove(after - {rest}, id, m);
    assert after - {rest} - {id} == runs - {id};
  }

  /** The first pages of a free run are taken. */
  lemma CutMoved(cfg: Config, chunks: set<nat>, runs: map<PageId, Run>, id: PageId, need: nat, kind: Kind)
    requires AllFit(cfg, chunks, runs) && AllApart(runs) && id in runs && 1 <= need <= runs[id].n
    ensures Moved(runs, Cut(runs, id, need, kind, runs[id].kind), Interval(id, need), kind, chunks)
  {
    if need == runs[id].n {
      RekindMoved(cfg, chunks, runs, id, kind);
    } else {
      var rest := Page(id.chunk, id.ind + need);
      var after := Cut(runs, id, need, kind, runs[id].kind);
      assert rest !in runs by { assert rest in runs ==> Apart(id, runs[id], rest); }
      forall m: Measure
        ensures MovedFor(runs, after, Interval(id, need), kind, chunks, m)
      {
        CutCovered(runs, id, need, kind, runs[id].kind, m);
        CoveredRemove(runs, id, m);
        CoveredDisjoint(runs, id, m);
        IntervalSplit(id, need, runs[id].n - need);
        CoveredFits(cfg, chunks, runs, m);
        assert Fits(cfg, chunks, id, runs[id]);
      }
    }
  }

  /** A run is presented as two of the same kind. */
  lemma HalvesMoved(cfg: Config, chunks: set<nat>, runs: map<PageId, Run>, id: PageId, need: nat)
    requires AllFit(cfg, chunks, runs) && AllApart(runs) && id in runs && 1 <= need < runs[id].n
    ensures Moved(runs, Cut(runs, id, need, runs[id].kind, runs[id].kind), {}, runs[id].kind, chunks)
  {
    var rest := Page(id.chunk, id.ind + need);
    assert rest !in runs by { assert rest in runs ==> Apart(id, runs[id], rest); }
    forall m: Measure
      ensures MovedFor(runs, Cut(runs, id, need, runs[id].kind, runs[id].kind), {}, runs[id].kind, chunks, m)
    {
      CutCovered(runs, id, need, runs[id].kind, runs[id].kind, m);
      CoveredRemove(runs, id, m);
      IntervalSplit(id, need, runs[id].n - need);
      CoveredFits(cfg, chunks, runs, m);
    }
  }

  /** Two neighbours of one kind become one run. */
  lemma FuseMoved(cfg: Config, chunks: set<nat>, runs: map<PageId, Run>, id: PageId, kind: Kind)
    requires AllFit(cfg, chunks, runs) && id in runs && 1 <= runs[id].n && Next(id, runs[id]) in runs
    requires forall m: Measure ::
               Counts(runs[id], m) == Counts(runs[Next(id, runs[id])], m) == Counts(Run(1, kind), m)
    ensures Moved(runs, Fuse(runs, id, kind), {}, kind, chunks)
  {
    var nxt := Next(id, runs[id]);
    var after := Fuse(runs, id, kind);
    forall m: Measure
      ensures MovedFor(runs, after, {}, kind, chunks, m)
    {
      CoveredRemove(runs, nxt, m);
      CoveredRemove(runs - {nxt}, id, m);
      CoveredRemove(after, id, m);
      assert after - {id} == runs - {nxt} - {id};
      IntervalSplit(id, runs[id].n, runs[nxt].n);
      CoveredFits(cfg, chunks, runs, m);
    }
  }

  /** A chunk leaves the arena. */
  lemma DropMoved(cfg: Config, chunks: set<nat>, runs: map<PageId, Run>, c: nat, kind: Kind)
    requires ValidConfig(cfg) && Tiled(cfg, chunks, runs) && c in chunks && WholeFree(cfg, runs, c)
    ensures Moved(runs, runs - {Page(c, cfg.bias)}, {}, kind, chunks - {c})
  {
    var id := Page(c, cfg.bias);
    DropTiled(cfg, chunks, runs, c);
    forall m: Measure
      ensures MovedFor(runs, runs - {id}, {}, kind, chunks - {c}, m)
    {
      CoveredRemove(runs, id, m);
      CoveredFits(cfg, chunks - {c}, runs - {id}, m);
    }
  }
}
