/** What the numbers of a heap profile are: the sampled objects that are live, context by context, when the dump comes
    to them. */
module ProfCounts {
  import opened Basics
  import opened Prof
  import opened ProfDump

  // ---------------------------------------------------------------- live sampled objects

  ghost function SumCnts(tctxs: map<nat, Tctx>, ts: set<nat>): nat
    requires ts <= tctxs.Keys
  {
    if ts == {} then 0 else
      var t :| t in ts;
      tctxs[t].cnts + SumCnts(tctxs, ts - {t})
  }

  lemma SumCntsSplit(tctxs: map<nat, Tctx>, ts: set<nat>, t: nat)
    requires ts <= tctxs.Keys && t in ts
    ensures SumCnts(tctxs, ts) == tctxs[t].cnts + SumCnts(tctxs, ts - {t})
    decreases ts
  {
    var u :| u in ts && SumCnts(tctxs, ts) == tctxs[u].cnts + SumCnts(tctxs, ts - {u});
    if u != t {
      SumCntsSplit(tctxs, ts - {u}, t);
      SumCntsSplit(tctxs, ts - {t}, u);
      assert ts - {u} - {t} == ts - {t} - {u};
    }
  }

  function Cnt(tctxs: map<nat, Tctx>, t: nat): nat
  {
    if t in tctxs then tctxs[t].cnts else 0
  }

  lemma {:induction false} SumCntsFrame(m: map<nat, Tctx>, ts: set<nat>, m': map<nat, Tctx>, ts': set<nat>)
    requires ts <= m.Keys && ts' <= m'.Keys
    requires forall t {:trigger Cnt(m, t)} {:trigger Cnt(m', t)} ::
               (if t in ts then Cnt(m, t) else 0) == (if t in ts' then Cnt(m', t) else 0)
    ensures SumCnts(m, ts) == SumCnts(m', ts')
    decreases ts, ts'
  {
    if t :| t in ts {
      SumCntsSplit(m, ts, t);
      SumCntsFrame(m, ts - {t}, m', ts' - {t});
      assert Cnt(m, t) == m[t].cnts;
      if t in ts' {
        SumCntsSplit(m', ts', t);
      } else {
        assert ts' - {t} == ts';
      }
    } else if t :| t in ts' {
      SumCntsSplit(m', ts', t);
      assert Cnt(m', t) == m'[t].cnts;
      SumCntsFrame(m, ts, m', ts' - {t});
    }
  }

  /** The sampled objects that all contexts together account for. */
  ghost function Objects(s: State): nat
  {
    SumCnts(s.tctxs, s.tctxs.Keys)
  }

  /** How many more sampled objects are live after an action. */
  function Gain(a: Action): int
  {
    if a.Use? && a.use.Sample? then 1 else if a.Use? && a.use.FreeObject? then -1 else 0
  }

  lemma CntsAlike(s: State, s': State)
    requires forall t {:trigger Cnt(s.tctxs, t)} {:trigger Cnt(s'.tctxs, t)} :: Cnt(s'.tctxs, t) == Cnt(s.tctxs, t)
    ensures Objects(s') == Objects(s)
  {
    forall t {:trigger Cnt(s.tctxs, t)}
      ensures (if t in s.tctxs.Keys then Cnt(s.tctxs, t) else 0) == (if t in s'.tctxs.Keys then Cnt(s'.tctxs, t) else 0)
    {
    }
    SumCntsFrame(s.tctxs, s.tctxs.Keys, s'.tctxs, s'.tctxs.Keys);
  }

  /** One context accounts for more or fewer objects. */
  lemma CntsOne(s: State, s': State, t: nat)
    requires t in s.tctxs && t in s'.tctxs
    requires forall u {:trigger Cnt(s.tctxs, u)} {:trigger Cnt(s'.tctxs, u)} :: u != t ==>
               Cnt(s'.tctxs, u) == Cnt(s.tctxs, u)
    ensures Objects(s') - Objects(s) == s'.tctxs[t].cnts - s.tctxs[t].cnts
  {
    SumCntsSplit(s.tctxs, s.tctxs.Keys, t);
    SumCntsSplit(s'.tctxs, s'.tctxs.Keys, t);
    var ts, ts' := s.tctxs.Keys - {t}, s'.tctxs.Keys - {t};
    forall u {:trigger Cnt(s.tctxs, u)}
      ensures (if u in ts then Cnt(s.tctxs, u) else 0) == (if u in ts' then Cnt(s'.tctxs, u) else 0)
    {
    }
    SumCntsFrame(s.tctxs, ts, s'.tctxs, ts');
  }

  lemma LookupCnts(s: State, a: LookupAction, t: nat)
    requires LookupGuard(s, a) && LookupSafe(s, a)
    ensures Cnt(LookupDo(s, a).tctxs, t) == Cnt(s.tctxs, t)
  {
  }

  lemma DumpCnts(s: State, a: DumpAction, t: nat)
    requires Inv(s) && DumpGuard(s, a) && DumpSafe(s, a)
    ensures Cnt(DumpDo(s, a).tctxs, t) == Cnt(s.tctxs, t)
  {
    if t in s.tctxs && t !in DumpDo(s, a).tctxs {
      DumpFreesEmpty(s, a, t);
    }
  }

  lemma UseCnts(s: State, a: UseAction, t: nat)
    requires Inv(s) && UseGuard(s, a) && UseSafe(s, a) && !a.Sample? && !a.FreeObject?
    ensures Cnt(UseDo(s, a).tctxs, t) == Cnt(s.tctxs, t)
  {
    if t in s.tctxs && t !in UseDo(s, a).tctxs {
      UseFreesEmpty(s, a, t);
    }
  }

  lemma StepCnts(s: State, a: Action, t: nat)
    requires Inv(s) && Guard(s, a) && Safe(s, a) && Gain(a) == 0
    ensures Cnt(Do(s, a).tctxs, t) == Cnt(s.tctxs, t)
  {
    match a
    case Lookup(look) => LookupCnts(s, look, t);
    case Use(use) => UseCnts(s, use, t);
    case Dumper(step) => DumpCnts(s, step, t);
  }

  lemma StepObjects(s: State, a: Action)
    requires Inv(s) && Guard(s, a) && Safe(s, a)
    ensures Objects(Do(s, a)) == Objects(s) + Gain(a)
  {
    if Gain(a) == 0 {
      forall t {:trigger Cnt(s.tctxs, t)} ensures Cnt(Do(s, a).tctxs, t) == Cnt(s.tctxs, t) { StepCnts(s, a, t); }
      CntsAlike(s, Do(s, a));
    } else {
      CntsOne(s, Do(s, a), if a.use.Sample? then Pc(s, a.use.th).t else a.use.t);
    }
  }

  /** How many objects were sampled in the first `n` actions and not freed. */
  function Live(acts: seq<Action>, n: nat): int
    requires n <= |acts|
  {
    if n == 0 then 0 else Live(acts, n - 1) + Gain(acts[n - 1])
  }

  /** In every state of a run the contexts account for exactly the sampled objects that are live. */
  lemma {:induction false} ObjectsCounted(states: seq<State>, acts: seq<Action>, n: nat)
    requires IsRun(states, acts) && n < |states| && CleanUpTo(acts, n)
    ensures Objects(states[n]) == Live(acts, n)
    decreases n
  {
    if n > 0 {
      ObjectsCounted(states, acts, n - 1);
      RunsAreSafe(states, acts, n - 1);
      GoodOn(states[n - 1], acts[n - 1], states[n]);
      StepObjects(states[n - 1], acts[n - 1]);
    }
  }

  // ---------------------------------------------------------------- what the dump reports

  /** What a step of the dump merges: the count of a context that is in use, as it is at that moment.  With `g`, only
      if it belongs to that gctx. */
  function Merges(s: State, a: Action, g: Option<nat>): nat
  {
    if a.Dumper? && a.step.MergeOne? && a.step.t in s.tctxs && s.tctxs[a.step.t].state == Nominal
       && (g.None? || s.tctxs[a.step.t].gctx == g.value)
    then s.tctxs[a.step.t].cnts
    else 0
  }

  /** What the steps from `d` up to `n` merge. */
  function Merged(states: seq<State>, acts: seq<Action>, d: nat, n: nat, g: Option<nat>): nat
    requires d <= n <= |acts| && n <= |states|
  {
    if n == d then 0 else Merged(states, acts, d, n - 1, g) + Merges(states[n - 1], acts[n - 1], g)
  }

  /** A dump starts at `d` and goes on to write the profile at `n`. */
  ghost predicate IsDump(states: seq<State>, acts: seq<Action>, d: nat, n: nat)
  {
    && IsRun(states, acts) && d < n < |acts| && CleanUpTo(acts, n)
    && acts[d] == Dumper(DumpStart) && acts[n] == Dumper(Leave)
    && forall j :: d < j < n ==> acts[j] != Dumper(DumpStart)
  }

  lemma HeldBefore(s: State, a: Action)
    requires Guard(s, a) && Safe(s, a) && a != Dumper(DumpStart) && !BtMtxFree(Do(s, a))
    ensures !BtMtxFree(s)
  {
    match a
    case Lookup(look) => LookupDump(s, look);
    case Use(use) => UseDump(s, use);
    case Dumper(step) =>
  }

  lemma LookupDump(s: State, a: LookupAction)
    requires LookupGuard(s, a) && LookupSafe(s, a)
    ensures LookupDo(s, a).dump == s.dump
  {
  }

  lemma UseDump(s: State, a: UseAction)
    requires UseGuard(s, a) && UseSafe(s, a)
    ensures UseDo(s, a).dump == s.dump
  {
  }

  /** bt2gctx_mtx is held throughout. */
  lemma {:induction false} HeldThroughout(states: seq<State>, acts: seq<Action>, d: nat, n: nat, i: nat)
    requires IsDump(states, acts, d, n) && d < i <= n
    ensures !BtMtxFree(states[i]) && Good(states[i])
    decreases n - i
  {
    RunsAreSafe(states, acts, i);
    if i == n {
      StepFacts(states[n], acts[n], states[n + 1]);
    } else {
      HeldThroughout(states, acts, d, n, i + 1);
      GoodOn(states[i], acts[i], states[i + 1]);
      HeldBefore(states[i], acts[i]);
    }
  }

  /** A context in use adds its count to the grand total. */
  lemma MergeOneAdds(s: State, t: nat)
    requires DumpGuard(s, MergeOne(t)) && DumpSafe(s, MergeOne(t))
    ensures DumpDo(s, MergeOne(t)).dump.MergeT?
    ensures DumpDo(s, MergeOne(t)).dump.total
         == s.dump.total + if s.tctxs[t].state == Nominal then s.tctxs[t].cnts else 0
  {
  }

  lemma DumperTotal(s: State, a: DumpAction)
    requires DumpGuard(s, a) && DumpSafe(s, a) && (s.dump.MergeT? || s.dump.MergeG?) && !BtMtxFree(DumpDo(s, a))
    ensures DumpDo(s, a).dump.MergeT? || DumpDo(s, a).dump.MergeG?
    ensures DumpDo(s, a).dump.total == s.dump.total + Merges(s, Dumper(a), None)
  {
    if a.MergeOne? {
      MergeOneAdds(s, a.t);
    }
  }

  /** The grand total grows by what is merged, and by nothing else. */
  lemma TotalStep(s: State, a: Action)
    requires Guard(s, a) && Safe(s, a) && (s.dump.MergeT? || s.dump.MergeG?) && !BtMtxFree(Do(s, a))
    ensures Do(s, a).dump.MergeT? || Do(s, a).dump.MergeG?
    ensures Do(s, a).dump.total == s.dump.total + Merges(s, a, None)
  {
    match a
    case Lookup(look) => LookupDump(s, look);
    case Use(use) => UseDump(s, use);
    case Dumper(step) => DumperTotal(s, step);
  }

  lemma {:induction false} TotalMerged(states: seq<State>, acts: seq<Action>, d: nat, n: nat, i: nat)
    requires IsDump(states, acts, d, n) && d < i <= n
    ensures states[i].dump.Prep? || states[i].dump.MergeT? || states[i].dump.MergeG?
    ensures if states[i].dump.Prep? then Merged(states, acts, d, i, None) == 0
            else states[i].dump.total == Merged(states, acts, d, i, None)
    decreases i
  {
    HeldThroughout(states, acts, d, n, i);
    RunsAreSafe(states, acts, i - 1);
    GoodOn(states[i - 1], acts[i - 1], states[i]);
    if i > d + 1 {
      TotalMerged(states, acts, d, n, i - 1);
      if states[i - 1].dump.Prep? {
        PrepStep(states[i - 1], acts[i - 1]);
      } else {
        TotalStep(states[i - 1], acts[i - 1]);
      }
    }
  }

  lemma PrepStep(s: State, a: Action)
    requires Guard(s, a) && Safe(s, a) && s.dump.Prep?
    ensures Merges(s, a, None) == 0
    ensures Do(s, a).dump.Prep? || (Do(s, a).dump.MergeT? && Do(s, a).dump.total == 0)
  {
    match a
    case Lookup(look) => LookupDump(s, look);
    case Use(use) => UseDump(s, use);
    case Dumper(step) =>
  }

  lemma TreeCaptures(s: State, s': State, g: nat)
    requires SumsAlone(s, s') && g in s.gctxs && g in s'.gctxs
    ensures Captures(s'.tctxs, s'.gctxs[g].tree) == Captures(s.tctxs, s.gctxs[g].tree)
  {
    CapturesFrame(s.tctxs, s.gctxs[g].tree, s'.tctxs, s'.gctxs[g].tree);
  }

  lemma ThreadCaptures(s: State, a: Action, g: nat)
    requires Inv(s) && Guard(s, a) && Safe(s, a) && !a.Dumper? && !BtMtxFree(s) && g in Do(s, a).gctxs
    ensures g in s.gctxs && Captures(Do(s, a).tctxs, Do(s, a).gctxs[g].tree) == Captures(s.tctxs, s.gctxs[g].tree)
  {
    if a.Lookup? {
      LookupWeightsAlone(s, a.look);
      LookupCountersAlone(s, a.look);
      LookupTreesAlone(s, a.look);
    } else {
      UseWeightsAlone(s, a.use);
      UseCountersAlone(s, a.use);
      UseTreesAlone(s, a.use);
    }
    assert g in Do(s, a).gctxs.Keys;
    TreeCaptures(s, Do(s, a), g);
  }

  /** A context in use is linked in the tree of its gctx. */
  lemma NominalInTree(s: State, t: nat)
    requires Inv(s) && DumpGuard(s, MergeOne(t)) && DumpSafe(s, MergeOne(t)) && s.tctxs[t].state == Nominal
    ensures InTree(s, t)
  {
    DumpFacts(s);
    TctxFacts(s, t);
    if s.tctxs[t].owner.Some? {
      ThreadFacts(s, s.tctxs[t].owner.value);
    }
  }

  lemma MergeOneCaptures(s: State, t: nat, g: nat)
    requires Inv(s) && DumpGuard(s, MergeOne(t)) && DumpSafe(s, MergeOne(t)) && g in s.gctxs
    ensures Captures(DumpDo(s, MergeOne(t)).tctxs, s.gctxs[g].tree)
         == Captures(s.tctxs, s.gctxs[g].tree) + Merges(s, Dumper(MergeOne(t)), Some(g))
  {
    var s', tree := DumpDo(s, MergeOne(t)), s.gctxs[g].tree;
    GctxFacts(s, g);
    if s.tctxs[t].state == Nominal {
      NominalInTree(s, t);
      CapturesFrame(s.tctxs, tree - {t}, s'.tctxs, tree - {t});
      if t in tree {
        CapturesSplit(s.tctxs, tree, t);
        CapturesSplit(s'.tctxs, tree, t);
      } else {
        assert tree - {t} == tree;
      }
    }
  }

  lemma DumpCaptures(s: State, a: DumpAction, g: nat)
    requires Inv(s) && DumpGuard(s, a) && DumpSafe(s, a) && g in DumpDo(s, a).gctxs
    requires !BtMtxFree(s) && !BtMtxFree(DumpDo(s, a))
    ensures g in s.gctxs && DumpDo(s, a).gctxs[g].tree == s.gctxs[g].tree
    ensures Captures(DumpDo(s, a).tctxs, s.gctxs[g].tree)
         == Captures(s.tctxs, s.gctxs[g].tree) + Merges(s, Dumper(a), Some(g))
  {
    if a.MergeOne? {
      MergeOneCaptures(s, a.t, g);
    }
  }

  /** While no dump is under way no context is captured. */
  lemma NothingCaptured(s: State, g: nat)
    requires Inv(s) && s.dump.NoDump? && g in s.gctxs
    ensures Captures(s.tctxs, s.gctxs[g].tree) == 0
  {
    forall t | t in s.gctxs[g].tree
      ensures Weight(s.tctxs, t) == 0
    {
      if t in s.tctxs {
        TctxFacts(s, t);
      }
    }
    CapturesNothing(s.tctxs, s.gctxs[g].tree);
  }

  lemma {:induction false} TreesMerged(states: seq<State>, acts: seq<Action>, d: nat, n: nat, i: nat, g: nat)
    requires IsDump(states, acts, d, n) && d < i <= n && g in states[i].gctxs
    ensures Captures(states[i].tctxs, states[i].gctxs[g].tree) == Merged(states, acts, d, i, Some(g))
    decreases i
  {
    RunsAreSafe(states, acts, i - 1);
    GoodOn(states[i - 1], acts[i - 1], states[i]);
    HeldThroughout(states, acts, d, n, i);
    if i == d + 1 {
      NothingCaptured(states[d], g);
      assert Merged(states, acts, d, d, Some(g)) == 0;
    } else {
      HeldThroughout(states, acts, d, n, i - 1);
      if acts[i - 1].Dumper? {
        DumpCaptures(states[i - 1], acts[i - 1].step, g);
      } else {
        ThreadCaptures(states[i - 1], acts[i - 1], g);
      }
      TreesMerged(states, acts, d, n, i - 1, g);
    }
  }

  /** When the dump goes on to write the profile, the grand total and the sum of each backtrace are the counts that the
      contexts had when the dump came to them. */
  lemma DumpReports(states: seq<State>, acts: seq<Action>, d: nat, n: nat)
    requires IsDump(states, acts, d, n)
    ensures states[n].dump.MergeG? && states[n].dump.total == Merged(states, acts, d, n, None)
    ensures forall g :: g in states[n].gctxs ==> states[n].gctxs[g].summed == Merged(states, acts, d, n, Some(g))
  {
    RunsAreSafe(states, acts, n);
    StepFacts(states[n], acts[n], states[n + 1]);
    TotalMerged(states, acts, d, n, n);
    forall g | g in states[n].gctxs
      ensures states[n].gctxs[g].summed == Merged(states, acts, d, n, Some(g))
    {
      TreesMerged(states, acts, d, n, n, g);
    }
  }

  // ---------------------------------------------------------------- a dump while nothing is sampled or freed

  /** The threads whose tables the dump has come to. */
  function Visited(acts: seq<Action>, d: nat, n: nat): set<nat>
    requires d <= n <= |acts|
  {
    if n == d then {}
    else Visited(acts, d, n - 1)
         + if acts[n - 1].Dumper? && acts[n - 1].step.LockTdata? then {acts[n - 1].step.d} else {}
  }

  /** The contexts that were merged still have the count that was merged, and of the visited threads all contexts with
      objects were, or are about to be. */
  ghost predicate ExactAt(s: State, visited: set<nat>, t: nat)
    requires t in s.tctxs
  {
    var x := s.tctxs[t];
    && (x.state == Dumping || x.state == Purgatory ==> x.dumpCnts == x.cnts)
    && (x.cnts > 0 && x.tdata in visited ==>
          x.state == Dumping || (s.dump.MergeT? && s.dump.cur == Some(x.tdata) && t in s.dump.visit))
  }

  ghost predicate Exact(s: State, visited: set<nat>)
  {
    forall key, t {:trigger Stepping(key), ExactAt(s, visited, t)} :: Stepping(key) && t in s.tctxs ==>
      ExactAt(s, visited, t)
  }

  lemma LookupExact(s: State, a: LookupAction, visited: set<nat>, t: nat)
    requires Inv(s) && LookupGuard(s, a) && LookupSafe(s, a) && CleanLookup(a)
    requires t in LookupDo(s, a).tctxs && (t in s.tctxs ==> ExactAt(s, visited, t))
    ensures ExactAt(LookupDo(s, a), visited, t)
  {
    ThreadFacts(s, a.th);
    if t in s.tctxs {
      TctxFacts(s, t);
    }
  }

  lemma UseExact(s: State, a: UseAction, visited: set<nat>, t: nat)
    requires Inv(s) && UseGuard(s, a) && UseSafe(s, a) && !a.Sample? && !a.FreeObject?
    requires t in UseDo(s, a).tctxs && (t in s.tctxs ==> ExactAt(s, visited, t))
    ensures ExactAt(UseDo(s, a), visited, t)
  {
    ThreadFacts(s, a.th);
    TctxFacts(s, t);
  }

  lemma DumpExact(s: State, a: DumpAction, visited: set<nat>, t: nat)
    requires Inv(s) && DumpGuard(s, a) && DumpSafe(s, a)
    requires !BtMtxFree(s) && !BtMtxFree(DumpDo(s, a))
    requires t in DumpDo(s, a).tctxs && (t in s.tctxs ==> ExactAt(s, visited, t))
    ensures ExactAt(DumpDo(s, a), visited + (if a.LockTdata? then {a.d} else {}), t)
  {
    DumpFacts(s);
    TctxFacts(s, t);
  }

  lemma StepExact(s: State, a: Action, visited: set<nat>)
    requires Inv(s) && Guard(s, a) && Safe(s, a) && Clean(a) && Gain(a) == 0 && Exact(s, visited)
    requires !BtMtxFree(s) && !BtMtxFree(Do(s, a))
    ensures Exact(Do(s, a), visited + if a.Dumper? && a.step.LockTdata? then {a.step.d} else {})
  {
    var after := visited + if a.Dumper? && a.step.LockTdata? then {a.step.d} else {};
    assert !a.Dumper? ==> after == visited;
    forall t | t in Do(s, a).tctxs
      ensures ExactAt(Do(s, a), after, t)
    {
      assert Stepping(0);
      assert t in s.tctxs ==> ExactAt(s, visited, t);
      match a
      case Lookup(look) => LookupExact(s, look, visited, t);
      case Use(use) => UseExact(s, use, visited, t);
      case Dumper(step) => DumpExact(s, step, visited, t);
    }
  }

  lemma StartExact(s: State, s': State)
    requires Inv(s) && s.dump.NoDump? && s'.tctxs == s.tctxs
    ensures Exact(s', {})
  {
    forall t | t in s.tctxs
      ensures ExactAt(s', {}, t)
    {
      TctxFacts(s, t);
    }
  }

  lemma {:induction false} ExactThroughout(states: seq<State>, acts: seq<Action>, d: nat, n: nat, i: nat)
    requires IsDump(states, acts, d, n) && d < i <= n && forall j :: d < j < n ==> Gain(acts[j]) == 0
    ensures Exact(states[i], Visited(acts, d, i))
    decreases i
  {
    RunsAreSafe(states, acts, i - 1);
    GoodOn(states[i - 1], acts[i - 1], states[i]);
    HeldThroughout(states, acts, d, n, i);
    if i == d + 1 {
      StartExact(states[d], states[i]);
      assert Visited(acts, d, i) == {};
    } else {
      HeldThroughout(states, acts, d, n, i - 1);
      ExactThroughout(states, acts, d, n, i - 1);
      StepExact(states[i - 1], acts[i - 1], Visited(acts, d, i - 1));
    }
  }

  lemma {:induction false} LiveSame(acts: seq<Action>, d: nat, n: nat)
    requires d < n <= |acts| && Gain(acts[d]) == 0 && forall j :: d < j < n ==> Gain(acts[j]) == 0
    ensures Live(acts, n) == Live(acts, d)
    decreases n
  {
    if n > d + 1 {
      LiveSame(acts, d, n - 1);
    }
  }

  lemma {:induction false} CapturesAreCnts(tctxs: map<nat, Tctx>, ts: set<nat>)
    requires ts <= tctxs.Keys && forall t :: t in ts ==> Weight(tctxs, t) == tctxs[t].cnts
    ensures Captures(tctxs, ts) == SumCnts(tctxs, ts)
  {
    if t :| t in ts {
      CapturesSplit(tctxs, ts, t);
      SumCntsSplit(tctxs, ts, t);
      CapturesAreCnts(tctxs, ts - {t});
    }
  }

  /** The dump comes to every thread that has a context with objects. */
  ghost predicate VisitsAll(states: seq<State>, acts: seq<Action>, d: nat, n: nat)
    requires d <= n <= |acts| && n < |states|
  {
    forall t :: t in states[n].tctxs && states[n].tctxs[t].cnts > 0 ==> states[n].tctxs[t].tdata in Visited(acts, d, n)
  }

  lemma AllWeighed(s: State, visited: set<nat>, t: nat)
    requires Exact(s, visited) && s.dump.MergeG?
    requires t in s.tctxs && (s.tctxs[t].cnts > 0 ==> s.tctxs[t].tdata in visited)
    ensures Weight(s.tctxs, t) == s.tctxs[t].cnts
  {
    assert Stepping(0);
    assert ExactAt(s, visited, t);
  }

  /** If nothing is sampled or freed while a dump goes over the contexts of all threads, the grand total is the number
      of sampled objects that are live, and the sum of each backtrace that of its contexts. */
  lemma QuietDumpIsExact(states: seq<State>, acts: seq<Action>, d: nat, n: nat)
    requires IsDump(states, acts, d, n) && (forall j :: d < j < n ==> Gain(acts[j]) == 0)
    requires VisitsAll(states, acts, d, n)
    ensures states[n].dump.MergeG? && states[n].dump.total == Objects(states[d]) == Live(acts, d)
    ensures forall g :: g in states[n].gctxs ==>
              && states[n].gctxs[g].tree <= states[n].tctxs.Keys
              && states[n].gctxs[g].summed == SumCnts(states[n].tctxs, states[n].gctxs[g].tree)
  {
    var s := states[n];
    RunsAreSafe(states, acts, n);
    StepFacts(s, acts[n], states[n + 1]);
    ExactThroughout(states, acts, d, n, n);
    forall t | t in s.tctxs ensures Weight(s.tctxs, t) == s.tctxs[t].cnts { AllWeighed(s, Visited(acts, d, n), t); }
    CapturesAreCnts(s.tctxs, s.tctxs.Keys);
    ObjectsCounted(states, acts, d);
    ObjectsCounted(states, acts, n);
    LiveSame(acts, d, n);
    forall g | g in s.gctxs
      ensures s.gctxs[g].tree <= s.tctxs.Keys && s.gctxs[g].summed == SumCnts(s.tctxs, s.gctxs[g].tree)
    {
      GctxFacts(s, g);
      CapturesAreCnts(s.tctxs, s.gctxs[g].tree);
    }
  }
}
