/** What a heap profile adds up to, and what the context protocol guarantees over whole runs. */
module ProfDump {
  import opened Basics
  import opened Prof

  // ---------------------------------------------------------------- the sums while a dump is under way

  /** How far the dump's counters have come. */
  ghost predicate DumpSums(s: State)
  {
    match s.dump
    case Prep(todo) => forall g {:trigger g in s.gctxs} :: g in s.gctxs && g !in todo ==> s.gctxs[g].summed == 0
    case MergeT(_, _, _, total) =>
      && total == Captures(s.tctxs, s.tctxs.Keys)
      && (forall g {:trigger g in s.gctxs} :: g in s.gctxs ==> s.gctxs[g].summed == 0)
    case MergeG(todo, total) =>
      && total == Captures(s.tctxs, s.tctxs.Keys)
      && (forall g {:trigger g in s.gctxs} :: g in s.gctxs ==>
            s.gctxs[g].summed == if g in todo then 0 else Captures(s.tctxs, s.gctxs[g].tree))
    case _ => true
  }

  ghost predicate WeightsAlone(s: State, s': State)
  {
    forall t {:trigger Weight(s.tctxs, t)} {:trigger Weight(s'.tctxs, t)} :: Weight(s'.tctxs, t) == Weight(s.tctxs, t)
  }

  ghost predicate CountersAlone(s: State, s': State)
  {
    && s'.dump == s.dump
    && (!BtMtxFree(s) ==> s'.gctxs.Keys == s.gctxs.Keys)
    && (forall g {:trigger g in s.gctxs} {:trigger g in s'.gctxs} :: g in s.gctxs && g in s'.gctxs ==>
          s'.gctxs[g].summed == s.gctxs[g].summed)
  }

  ghost predicate TreesAlone(s: State, s': State)
  {
    forall g, t {:trigger t in s.gctxs[g].tree} {:trigger t in s'.gctxs[g].tree} :: g in s.gctxs && g in s'.gctxs ==>
      (t in s.gctxs[g].tree <==> t in s'.gctxs[g].tree) || Weight(s.tctxs, t) == 0
  }

  /** A thread's action moves no captured context and no counter. */
  ghost predicate SumsAlone(s: State, s': State)
  {
    WeightsAlone(s, s') && CountersAlone(s, s') && TreesAlone(s, s')
  }

  lemma LookupWeightsAlone(s: State, a: LookupAction)
    requires Inv(s) && LookupGuard(s, a) && LookupSafe(s, a)
    ensures WeightsAlone(s, LookupDo(s, a))
  {
    ThreadFacts(s, a.th);
  }

  lemma UseWeightsAlone(s: State, a: UseAction)
    requires Inv(s) && UseGuard(s, a) && UseSafe(s, a)
    ensures WeightsAlone(s, UseDo(s, a))
  {
    ThreadFacts(s, a.th);
    if a.FreeIt? {
      TctxFacts(s, Pc(s, a.th).t);
    }
  }

  lemma LookupCountersAlone(s: State, a: LookupAction)
    requires Inv(s) && LookupGuard(s, a) && LookupSafe(s, a)
    ensures CountersAlone(s, LookupDo(s, a))
  {
    ThreadFacts(s, a.th);
  }

  lemma UseCountersAlone(s: State, a: UseAction)
    requires Inv(s) && UseGuard(s, a) && UseSafe(s, a)
    ensures CountersAlone(s, UseDo(s, a))
  {
    ThreadFacts(s, a.th);
  }

  lemma LookupTreesAlone(s: State, a: LookupAction)
    requires Inv(s) && LookupGuard(s, a) && LookupSafe(s, a)
    ensures TreesAlone(s, LookupDo(s, a))
  {
    ThreadFacts(s, a.th);
  }

  lemma UseTreesAlone(s: State, a: UseAction)
    requires Inv(s) && UseGuard(s, a) && UseSafe(s, a)
    ensures TreesAlone(s, UseDo(s, a))
  {
    ThreadFacts(s, a.th);
  }

  lemma SumsAloneKeeps(s: State, s': State)
    requires SumsAlone(s, s') && DumpSums(s)
    ensures DumpSums(s')
  {
    if s.dump.MergeT? || s.dump.MergeG? {
      forall t {:trigger Weight(s.tctxs, t)}
        ensures (if t in s.tctxs.Keys then Weight(s.tctxs, t) else 0)
                == (if t in s'.tctxs.Keys then Weight(s'.tctxs, t) else 0)
      {
      }
      CapturesFrame(s.tctxs, s.tctxs.Keys, s'.tctxs, s'.tctxs.Keys);
    }
    if s.dump.MergeG? {
      forall g | g in s'.gctxs
        ensures Captures(s'.tctxs, s'.gctxs[g].tree) == Captures(s.tctxs, s.gctxs[g].tree)
      {
        assert g in s'.gctxs.Keys;
        CapturesFrame(s.tctxs, s.gctxs[g].tree, s'.tctxs, s'.gctxs[g].tree);
      }
    }
  }

  lemma {:induction false} CapturesNothing(m: map<nat, Tctx>, ts: set<nat>)
    requires forall t :: t in ts ==> Weight(m, t) == 0
    ensures Captures(m, ts) == 0
  {
    if t :| t in ts {
      CapturesSplit(m, ts, t);
      CapturesNothing(m, ts - {t});
    }
  }

  lemma DumpSumsKept(s: State, a: DumpAction)
    requires Inv(s) && DumpSums(s) && DumpGuard(s, a) && DumpSafe(s, a)
    ensures DumpSums(DumpDo(s, a))
  {
    assert Open(0);
    var s' := DumpDo(s, a);
    match a
    case PrepDone =>
      forall t | t in s.tctxs ensures Weight(s.tctxs, t) == 0 { assert TInv(s, t); }
      CapturesNothing(s.tctxs, s.tctxs.Keys);
    case MergeOne(t) =>
      if s.tctxs[t].state == Nominal {
        assert s'.tctxs.Keys == s.tctxs.Keys;
        CapturesSplit(s.tctxs, s.tctxs.Keys, t);
        CapturesSplit(s'.tctxs, s'.tctxs.Keys, t);
        CapturesFrame(s.tctxs, s.tctxs.Keys - {t}, s'.tctxs, s.tctxs.Keys - {t});
      }
    case _ =>
  }

  ghost function SumSummed(gctxs: map<nat, Gctx>, gs: set<nat>): int
    requires gs <= gctxs.Keys
  {
    if gs == {} then 0 else
      var g :| g in gs;
      gctxs[g].summed + SumSummed(gctxs, gs - {g})
  }

  lemma SumSummedSplit(gctxs: map<nat, Gctx>, gs: set<nat>, g: nat)
    requires gs <= gctxs.Keys && g in gs
    ensures SumSummed(gctxs, gs) == gctxs[g].summed + SumSummed(gctxs, gs - {g})
    decreases gs
  {
    var u :| u in gs && SumSummed(gctxs, gs) == gctxs[u].summed + SumSummed(gctxs, gs - {u});
    if u != g {
      SumSummedSplit(gctxs, gs - {u}, g);
      SumSummedSplit(gctxs, gs - {g}, u);
      assert gs - {u} - {g} == gs - {g} - {u};
    }
  }

  lemma {:induction false} CapturesUnion(m: map<nat, Tctx>, xs: set<nat>, ys: set<nat>)
    requires xs !! ys
    ensures Captures(m, xs + ys) == Captures(m, xs) + Captures(m, ys)
  {
    if t :| t in xs {
      CapturesSplit(m, xs, t);
      CapturesSplit(m, xs + ys, t);
      assert xs + ys - {t} == (xs - {t}) + ys;
      CapturesUnion(m, xs - {t}, ys);
    } else {
      assert xs + ys == ys;
    }
  }

  /** The contexts linked in the trees of the gctxs in `gs`. */
  ghost function TreesOf(s: State, gs: set<nat>): set<nat>
  {
    set t | t in s.tctxs && s.tctxs[t].gctx in gs && s.tctxs[t].gctx in s.gctxs && t in s.gctxs[s.tctxs[t].gctx].tree
  }

  lemma TreesSplit(s: State, gs: set<nat>, g: nat)
    requires g in gs && g in s.gctxs && GInv(s, g)
    ensures TreesOf(s, gs) == TreesOf(s, gs - {g}) + s.gctxs[g].tree
    ensures TreesOf(s, gs - {g}) !! s.gctxs[g].tree
  {
  }

  lemma {:induction false} TreesAddUp(s: State, gs: set<nat>)
    requires gs <= s.gctxs.Keys
    requires forall g {:trigger GInv(s, g)} :: g in s.gctxs ==> GInv(s, g)
    requires forall g :: g in gs ==> s.gctxs[g].summed == Captures(s.tctxs, s.gctxs[g].tree)
    ensures SumSummed(s.gctxs, gs) == Captures(s.tctxs, TreesOf(s, gs))
  {
    if g :| g in gs {
      assert GInv(s, g);
      SumSummedSplit(s.gctxs, gs, g);
      TreesAddUp(s, gs - {g});
      TreesSplit(s, gs, g);
      CapturesUnion(s.tctxs, TreesOf(s, gs - {g}), s.gctxs[g].tree);
    } else {
      assert TreesOf(s, gs) == {};
    }
  }

  /** When the dump goes on to write the profile, the per-backtrace sums add up to the grand total. */
  lemma DumpTotalsAgree(s: State)
    requires Inv(s) && DumpSums(s) && DumpGuard(s, Leave)
    ensures SumSummed(s.gctxs, s.gctxs.Keys) == s.dump.total
  {
    assert Open(0);
    TreesAddUp(s, s.gctxs.Keys);
    forall t {:trigger Weight(s.tctxs, t)}
      ensures (if t in TreesOf(s, s.gctxs.Keys) then Weight(s.tctxs, t) else 0)
           == (if t in s.tctxs.Keys then Weight(s.tctxs, t) else 0)
    {
      if t in s.tctxs { assert TInv(s, t); }
    }
    CapturesFrame(s.tctxs, TreesOf(s, s.gctxs.Keys), s.tctxs, s.tctxs.Keys);
  }

  // ---------------------------------------------------------------- one context per thread and backtrace

  /** The thread's table holds no context for the backtrace it is looking up. */
  ghost predicate Absent(s: State, th: nat)
  {
    match Pc(s, th)
    case Missed(bt) =>
      forall t :: t in s.tctxs && s.tctxs[t].inTable && s.tctxs[t].tdata == th && s.tctxs[t].gctx in s.gctxs ==>
        s.gctxs[s.tctxs[t].gctx].bt != bt
    case GotGctx(g, _) => forall t :: t in s.tctxs && s.tctxs[t].inTable && s.tctxs[t].tdata == th ==>
      s.tctxs[t].gctx != g
    case GotTctx(g, _, _) => forall t :: t in s.tctxs && s.tctxs[t].inTable && s.tctxs[t].tdata == th ==>
      s.tctxs[t].gctx != g
    case _ => true
  }

  ghost predicate SameKey(s: State, t: nat, u: nat)
    requires t in s.tctxs && u in s.tctxs
  {
    && s.tctxs[t].inTable && s.tctxs[u].inTable
    && s.tctxs[t].tdata == s.tctxs[u].tdata && s.tctxs[t].gctx == s.tctxs[u].gctx
  }

  /** No thread's table holds two contexts for one backtrace, and none is about to. */
  ghost predicate KeysUnique(s: State)
  {
    && (forall t, u {:trigger SameKey(s, t, u)} :: t in s.tctxs && u in s.tctxs && SameKey(s, t, u) ==> t == u)
    && (forall th {:trigger Absent(s, th)} :: Absent(s, th))
  }

  /** Nothing enters a table. */
  ghost predicate TablesShrink(s: State, s': State)
  {
    && (forall t {:trigger t in s'.tctxs} :: t in s'.tctxs && s'.tctxs[t].inTable ==>
          && t in s.tctxs && s.tctxs[t].inTable && s.tctxs[t].gctx in s.gctxs
          && s'.tctxs[t].gctx == s.tctxs[t].gctx && s'.tctxs[t].tdata == s.tctxs[t].tdata)
    && (forall g {:trigger g in s'.gctxs} :: g in s.gctxs && g in s'.gctxs ==> s'.gctxs[g].bt == s.gctxs[g].bt)
  }

  /** Contexts in tables have their gctx allocated. */
  lemma TableReadable(s: State, t: nat)
    requires Inv(s) && t in s.tctxs && s.tctxs[t].inTable
    ensures s.tctxs[t].gctx in s.gctxs
  {
    assert Open(0);
    assert TInv(s, t) && PInv(s, if s.tctxs[t].owner.Some? then s.tctxs[t].owner.value else 0);
  }

  lemma LookupShrinks(s: State, a: LookupAction)
    requires Inv(s) && LookupGuard(s, a) && LookupSafe(s, a) && CleanLookup(a) && !a.Insert?
    ensures TablesShrink(s, LookupDo(s, a))
  {
    forall t | t in s.tctxs && s.tctxs[t].inTable ensures s.tctxs[t].gctx in s.gctxs { TableReadable(s, t); }
    ThreadFacts(s, a.th);
  }

  lemma UseShrinks(s: State, a: UseAction)
    requires Inv(s) && UseGuard(s, a) && UseSafe(s, a)
    ensures TablesShrink(s, UseDo(s, a))
  {
    forall t | t in s.tctxs && s.tctxs[t].inTable ensures s.tctxs[t].gctx in s.gctxs { TableReadable(s, t); }
    ThreadFacts(s, a.th);
  }

  lemma AbsentKept(s: State, s': State, th: nat)
    requires TablesShrink(s, s') && Absent(s, th) && Pc(s', th) == Pc(s, th)
    ensures Absent(s', th)
  {
  }

  /** A lookup goes on to the gctx of its backtrace. */
  lemma AbsentGlobal(s: State, a: LookupAction)
    requires Inv(s) && LookupGuard(s, a) && LookupSafe(s, a) && (a.GlobalNew? || a.GlobalOld?)
    requires Absent(s, a.th)
    ensures Absent(LookupDo(s, a), a.th)
  {
    ThreadFacts(s, a.th);
    forall t | t in s.tctxs && s.tctxs[t].inTable ensures s.tctxs[t].gctx in s.gctxs { TableReadable(s, t); }
  }

  lemma AbsentAlloc(s: State, a: LookupAction)
    requires LookupGuard(s, a) && LookupSafe(s, a) && !(a.GlobalNew? || a.GlobalOld?) && Absent(s, a.th)
    ensures Absent(LookupDo(s, a), a.th)
  {
  }

  lemma AbsentOwn(s: State, a: LookupAction)
    requires Inv(s) && LookupGuard(s, a) && LookupSafe(s, a) && Absent(s, a.th)
    ensures Absent(LookupDo(s, a), a.th)
  {
    if a.GlobalNew? || a.GlobalOld? {
      AbsentGlobal(s, a);
    } else {
      AbsentAlloc(s, a);
    }
  }

  /** The other actions are not part of a lookup. */
  lemma AbsentUse(s: State, a: UseAction)
    requires UseGuard(s, a) && UseSafe(s, a)
    ensures Absent(UseDo(s, a), a.th)
  {
  }

  lemma InsertKeysKept(s: State, th: nat)
    requires Inv(s) && KeysUnique(s) && LookupGuard(s, Insert(th)) && LookupSafe(s, Insert(th))
    ensures KeysUnique(LookupDo(s, Insert(th)))
  {
    var s' := LookupDo(s, Insert(th));
    ThreadFacts(s, th);
    assert Absent(s, th);
    forall x ensures Absent(s', x) { assert Absent(s, x); }
    forall t, u | t in s'.tctxs && u in s'.tctxs && SameKey(s', t, u) ensures t == u {
      assert t in s.tctxs && u in s.tctxs;
      assert SameKey(s, t, u) ==> t == u;
    }
  }

  /** Where nothing enters a table, no key is there twice afterwards, and a lookup under way still finds none. */
  lemma ShrunkKeys(s: State, s': State, th: nat)
    requires KeysUnique(s) && TablesShrink(s, s') && Absent(s', th)
    requires forall x {:trigger Pc(s', x)} :: x != th ==> Pc(s', x) == Pc(s, x)
    ensures KeysUnique(s')
  {
    forall t, u | t in s'.tctxs && u in s'.tctxs && SameKey(s', t, u) ensures t == u { assert SameKey(s, t, u); }
    forall x ensures Absent(s', x) {
      if x != th {
        assert Absent(s, x);
        AbsentKept(s, s', x);
      }
    }
  }

  lemma LookupOthers(s: State, a: LookupAction)
    requires LookupGuard(s, a) && LookupSafe(s, a)
    ensures forall x {:trigger Pc(LookupDo(s, a), x)} :: x != a.th ==> Pc(LookupDo(s, a), x) == Pc(s, x)
  {
  }

  lemma UseOthers(s: State, a: UseAction)
    requires UseGuard(s, a) && UseSafe(s, a)
    ensures forall x {:trigger Pc(UseDo(s, a), x)} :: x != a.th ==> Pc(UseDo(s, a), x) == Pc(s, x)
  {
  }

  lemma LookupKeysKept(s: State, a: LookupAction)
    requires Inv(s) && KeysUnique(s) && LookupGuard(s, a) && LookupSafe(s, a) && CleanLookup(a)
    ensures KeysUnique(LookupDo(s, a))
  {
    if a.Insert? {
      InsertKeysKept(s, a.th);
    } else {
      LookupShrinks(s, a);
      assert Absent(s, a.th);
      AbsentOwn(s, a);
      LookupOthers(s, a);
      ShrunkKeys(s, LookupDo(s, a), a.th);
    }
  }

  lemma UseKeysKept(s: State, a: UseAction)
    requires Inv(s) && KeysUnique(s) && UseGuard(s, a) && UseSafe(s, a)
    ensures KeysUnique(UseDo(s, a))
  {
    UseShrinks(s, a);
    AbsentUse(s, a);
    UseOthers(s, a);
    ShrunkKeys(s, UseDo(s, a), a.th);
  }

  lemma FinishShrinks(s: State, g: nat)
    requires Inv(s) && DumpGuard(s, FinishOne(g)) && DumpSafe(s, FinishOne(g))
    ensures TablesShrink(s, DumpDo(s, FinishOne(g)))
  {
    forall t | t in s.tctxs && s.tctxs[t].inTable ensures s.tctxs[t].gctx in s.gctxs { TableReadable(s, t); }
  }

  lemma SummedShrinks(s: State, g: nat)
    requires Inv(s) && DumpGuard(s, MergeGctx(g)) && DumpSafe(s, MergeGctx(g))
    ensures TablesShrink(s, DumpDo(s, MergeGctx(g)))
  {
    SummedIs(s, g, Captures(s.tctxs, s.gctxs[g].tree));
    forall t | t in s.tctxs && s.tctxs[t].inTable ensures s.tctxs[t].gctx in s.gctxs { TableReadable(s, t); }
  }

  lemma DumpShrinks(s: State, a: DumpAction)
    requires Inv(s) && DumpGuard(s, a) && DumpSafe(s, a)
    ensures TablesShrink(s, DumpDo(s, a))
  {
    if a.FinishOne? {
      FinishShrinks(s, a.g);
    } else if a.MergeGctx? {
      SummedShrinks(s, a.g);
    } else {
      assert Open(0);
      forall t | t in s.tctxs && s.tctxs[t].inTable ensures s.tctxs[t].gctx in s.gctxs { TableReadable(s, t); }
    }
  }

  lemma DumpKeysKept(s: State, a: DumpAction)
    requires Inv(s) && KeysUnique(s) && DumpGuard(s, a) && DumpSafe(s, a)
    ensures KeysUnique(DumpDo(s, a))
  {
    DumpShrinks(s, a);
    assert Absent(s, 0);
    AbsentKept(s, DumpDo(s, a), 0);
    ShrunkKeys(s, DumpDo(s, a), 0);
  }

  // ---------------------------------------------------------------- whole runs

  /** What holds between any two critical sections. */
  ghost predicate Good(s: State)
  {
    Inv(s) && DumpSums(s) && KeysUnique(s)
  }

  const Initial := State(map[], map[], map[], map[], NoDump, {})

  lemma InitialGood()
    ensures Good(Initial)
  {
    assert forall th :: Pc(Initial, th) == Idle;
    assert forall th :: PInv(Initial, th) && Absent(Initial, th);
  }

  /** A mark that lets a proof look inside `IsStep`; elsewhere it is kept as one fact. */
  ghost predicate Stepping(key: int)
  {
    true
  }

  /** A step of a run; an unsafe one could lead anywhere. */
  ghost predicate IsStep(s: State, a: Action, s': State)
  {
    forall key {:trigger Stepping(key)} :: Stepping(key) ==> Guard(s, a) && (Safe(s, a) ==> s' == Do(s, a))
  }

  /** Any interleaving of actions. */
  ghost predicate IsRun(states: seq<State>, acts: seq<Action>)
  {
    && |states| == |acts| + 1 && states[0] == Initial
    && forall i {:trigger acts[i]} :: 0 <= i < |acts| ==> IsStep(states[i], acts[i], states[i + 1])
  }

  lemma StepFacts(s: State, a: Action, s': State)
    requires IsStep(s, a, s')
    ensures Guard(s, a) && (Safe(s, a) ==> s' == Do(s, a))
  {
    assert Stepping(0);
  }

  /** No action so far was a failed insertion that lost an old item. */
  predicate CleanUpTo(acts: seq<Action>, n: nat)
    requires n <= |acts|
  {
    forall j :: 0 <= j < n ==> Clean(acts[j])
  }

  lemma StepIsSafe(s: State, a: Action)
    requires Good(s) && Guard(s, a)
    ensures Safe(s, a)
  {
    match a
    case Lookup(look) => LookupIsSafe(s, look);
    case Use(use) => UseIsSafe(s, use);
    case Dumper(step) => DumpIsSafe(s, step);
  }

  lemma StepGood(s: State, a: Action)
    requires Good(s) && Guard(s, a) && Safe(s, a) && Clean(a)
    ensures Good(Do(s, a))
  {
    match a
    case Lookup(look) =>
      LookupKeeps(s, look);
      LookupWeightsAlone(s, look);
      LookupCountersAlone(s, look);
      LookupTreesAlone(s, look);
      SumsAloneKeeps(s, LookupDo(s, look));
      LookupKeysKept(s, look);
    case Use(use) =>
      UseKeeps(s, use);
      UseWeightsAlone(s, use);
      UseCountersAlone(s, use);
      UseTreesAlone(s, use);
      SumsAloneKeeps(s, UseDo(s, use));
      UseKeysKept(s, use);
    case Dumper(step) =>
      DumpKeeps(s, step);
      DumpSumsKept(s, step);
      DumpKeysKept(s, step);
  }

  lemma GoodOn(s: State, a: Action, s': State)
    requires Good(s) && IsStep(s, a, s') && Clean(a)
    ensures Good(s') && Guard(s, a) && Safe(s, a) && s' == Do(s, a)
  {
    StepFacts(s, a, s');
    StepIsSafe(s, a);
    StepGood(s, a);
  }

  /** In every run each action is safe, and the invariant holds throughout, as long as no failed insertion lost an
      old item. */
  lemma {:induction false} RunsAreSafe(states: seq<State>, acts: seq<Action>, i: nat)
    requires IsRun(states, acts) && i < |states| && CleanUpTo(acts, i)
    ensures Good(states[i])
    ensures i < |acts| ==> Safe(states[i], acts[i])
    decreases i
  {
    if i == 0 {
      InitialGood();
    } else {
      RunsAreSafe(states, acts, i - 1);
      GoodOn(states[i - 1], acts[i - 1], states[i]);
    }
    if i < |acts| {
      StepFacts(states[i], acts[i], states[i + 1]);
      StepIsSafe(states[i], acts[i]);
    }
  }

  // ---------------------------------------------------------------- what the invariant means

  /** nlimbo is the number of threads, and dumps, that rely on it, plus the lookups that failed and kept it. */
  lemma LimboCounts(s: State, g: nat)
    requires Inv(s) && g in s.gctxs
    ensures forall th :: th in s.gctxs[g].holders <==> HoldG(Pc(s, th)) == Some(g)
    ensures s.gctxs[g].nlimbo == |s.gctxs[g].holders| + (if DumpHolds(s.dump, g) then 1 else 0) + s.gctxs[g].leaked
  {
    assert Open(0);
    assert GInv(s, g);
    forall th ensures th in s.gctxs[g].holders <==> HoldG(Pc(s, th)) == Some(g) { assert PInv(s, th); }
  }

  /** No thread, no table and no context in a table refers to the gctx. */
  ghost predicate GctxUnused(s: State, g: nat)
  {
    && (forall th :: HoldG(Pc(s, th)) != Some(g))
    && (forall t :: t in s.tctxs && s.tctxs[t].inTable ==> s.tctxs[t].gctx != g)
    && (forall bt :: bt in s.table ==> s.table[bt] != g)
  }

  /** No thread, no table and no tree refers to the context. */
  ghost predicate TctxUnused(s: State, t: nat)
  {
    && (forall th :: OwnT(Pc(s, th)) != Some(t) && Pc(s, th) != Prepared(t))
    && (forall g :: g in s.gctxs ==> t !in s.gctxs[g].tree)
    && s.stale == {}
  }

  lemma GctxUnreferenced(s: State, g: nat)
    requires Inv(s) && g !in s.gctxs
    ensures GctxUnused(s, g)
  {
    assert Open(0);
    forall th ensures HoldG(Pc(s, th)) != Some(g) { assert PInv(s, th); }
    forall t | t in s.tctxs && s.tctxs[t].inTable ensures s.tctxs[t].gctx != g { TableReadable(s, t); }
  }

  lemma TctxUnreferenced(s: State, t: nat)
    requires Inv(s) && t !in s.tctxs
    ensures TctxUnused(s, t)
  {
    assert Open(0);
    forall th ensures OwnT(Pc(s, th)) != Some(t) && Pc(s, th) != Prepared(t) { assert PInv(s, th); }
    forall g | g in s.gctxs ensures t !in s.gctxs[g].tree { assert GInv(s, g); }
  }

  lemma LookupFreesNothing(s: State, a: LookupAction)
    requires LookupGuard(s, a) && LookupSafe(s, a)
    ensures s.gctxs.Keys <= LookupDo(s, a).gctxs.Keys && s.tctxs.Keys <= LookupDo(s, a).tctxs.Keys
  {
  }

  lemma UseDestroysEmpty(s: State, a: UseAction, g: nat)
    requires Inv(s) && UseGuard(s, a) && UseSafe(s, a) && g in s.gctxs && g !in UseDo(s, a).gctxs
    ensures s.gctxs[g].tree == {} && s.gctxs[g].leaked == 0
  {
    assert Open(0);
    assert GInv(s, g) && PInv(s, a.th);
  }

  lemma DumpDestroysEmpty(s: State, a: DumpAction, g: nat)
    requires Inv(s) && DumpGuard(s, a) && DumpSafe(s, a) && g in s.gctxs && g !in DumpDo(s, a).gctxs
    ensures s.gctxs[g].tree == {} && s.gctxs[g].leaked == 0
  {
    assert Open(0);
    assert GInv(s, g);
  }

  lemma UseFreesEmpty(s: State, a: UseAction, t: nat)
    requires Inv(s) && UseGuard(s, a) && UseSafe(s, a) && t in s.tctxs && t !in UseDo(s, a).tctxs
    ensures s.tctxs[t].cnts == 0 && !s.tctxs[t].inTable
  {
    assert Open(0);
    assert TInv(s, t) && PInv(s, a.th);
  }

  lemma DumpFreesEmpty(s: State, a: DumpAction, t: nat)
    requires Inv(s) && DumpGuard(s, a) && DumpSafe(s, a) && t in s.tctxs && t !in DumpDo(s, a).tctxs
    ensures s.tctxs[t].cnts == 0 && !s.tctxs[t].inTable
  {
    assert Open(0);
    assert TInv(s, t);
  }

  lemma DestroysEmpty(s: State, a: Action, g: nat)
    requires Inv(s) && Guard(s, a) && Safe(s, a) && g in s.gctxs && g !in Do(s, a).gctxs
    ensures s.gctxs[g].tree == {} && s.gctxs[g].leaked == 0
  {
    match a
    case Lookup(look) => LookupFreesNothing(s, look);
    case Use(use) => UseDestroysEmpty(s, use, g);
    case Dumper(step) => DumpDestroysEmpty(s, step, g);
  }

  lemma FreesEmpty(s: State, a: Action, t: nat)
    requires Inv(s) && Guard(s, a) && Safe(s, a) && t in s.tctxs && t !in Do(s, a).tctxs
    ensures s.tctxs[t].cnts == 0 && !s.tctxs[t].inTable
  {
    match a
    case Lookup(look) => LookupFreesNothing(s, look);
    case Use(use) => UseFreesEmpty(s, use, t);
    case Dumper(step) => DumpFreesEmpty(s, step, t);
  }

  /** A gctx that is destroyed has no context, no thread and no table entry left that refers to it. */
  lemma GctxFreedUnused(states: seq<State>, acts: seq<Action>, i: nat, g: nat)
    requires IsRun(states, acts) && i < |acts| && CleanUpTo(acts, i + 1) && g in states[i].gctxs
             && g !in states[i + 1].gctxs
    ensures states[i].gctxs[g].tree == {} && states[i].gctxs[g].leaked == 0
    ensures GctxUnused(states[i + 1], g)
  {
    RunsAreSafe(states, acts, i);
    GoodOn(states[i], acts[i], states[i + 1]);
    DestroysEmpty(states[i], acts[i], g);
    GctxUnreferenced(states[i + 1], g);
  }

  /** A context that is freed is referred to by nothing any more, and no sampled object is left that could. */
  lemma TctxFreedUnused(states: seq<State>, acts: seq<Action>, i: nat, t: nat)
    requires IsRun(states, acts) && i < |acts| && CleanUpTo(acts, i + 1) && t in states[i].tctxs
             && t !in states[i + 1].tctxs
    ensures states[i].tctxs[t].cnts == 0 && !states[i].tctxs[t].inTable
    ensures TctxUnused(states[i + 1], t)
  {
    RunsAreSafe(states, acts, i);
    GoodOn(states[i], acts[i], states[i + 1]);
    FreesEmpty(states[i], acts[i], t);
    TctxUnreferenced(states[i + 1], t);
  }

  /** Every dump starts from contexts that are all nominal. */
  lemma DumpStartsNominal(s: State, t: nat)
    requires Inv(s) && (s.dump.NoDump? || s.dump.Prep?) && InTree(s, t)
    ensures s.tctxs[t].state == Nominal
  {
    assert Open(0);
    assert TInv(s, t);
  }

  lemma QuietContext(s: State, t: nat)
    requires Inv(s) && s.dump.NoDump? && t in s.tctxs && forall th :: Pc(s, th) == Idle
    ensures s.tctxs[t].cnts > 0 && s.tctxs[t].state == Nominal && s.tctxs[t].inTable && InTree(s, t)
  {
    TctxFacts(s, t);
  }

  lemma QuietGctx(s: State, g: nat)
    requires Inv(s) && s.dump.NoDump? && g in s.gctxs && forall th :: Pc(s, th) == Idle
    ensures s.gctxs[g].nlimbo == s.gctxs[g].leaked
    ensures s.gctxs[g].leaked == 0 ==> s.gctxs[g].tree != {}
  {
    GctxFacts(s, g);
    assert s.gctxs[g].holders == {};
  }

  /** Whenever nothing is going on, every context has live sampled objects and is linked where it belongs,
      and a gctx without contexts is one that a failed lookup left behind. */
  lemma NothingLost(states: seq<State>, acts: seq<Action>, i: nat)
    requires IsRun(states, acts) && i < |states| && CleanUpTo(acts, i)
    requires states[i].dump.NoDump? && forall th :: Pc(states[i], th) == Idle
    ensures forall t :: t in states[i].tctxs ==>
              && states[i].tctxs[t].cnts > 0 && states[i].tctxs[t].state == Nominal
              && states[i].tctxs[t].inTable && InTree(states[i], t)
    ensures forall g :: g in states[i].gctxs ==> states[i].gctxs[g].nlimbo == states[i].gctxs[g].leaked
    ensures forall g :: g in states[i].gctxs && states[i].gctxs[g].leaked == 0 ==> states[i].gctxs[g].tree != {}
  {
    var s := states[i];
    RunsAreSafe(states, acts, i);
    forall t | t in s.tctxs
      ensures s.tctxs[t].cnts > 0 && s.tctxs[t].state == Nominal && s.tctxs[t].inTable && InTree(s, t)
    {
      QuietContext(s, t);
    }
    forall g | g in s.gctxs
      ensures s.gctxs[g].nlimbo == s.gctxs[g].leaked && (s.gctxs[g].leaked == 0 ==> s.gctxs[g].tree != {})
    {
      QuietGctx(s, g);
    }
  }

  // ---------------------------------------------------------------- lookups that give up

  /** A lookup gives up after it found gctx `g`, which another lookup had created. */
  predicate Abandons(s: State, a: Action, g: nat)
  {
    && a.Lookup? && (a.look.AllocFail? || a.look.InsertFail?)
    && var pc := Pc(s, a.look.th); (pc.GotGctx? || pc.GotTctx?) && pc.g == g && !pc.isNew
  }

  /** How many rely on the gctx being in limbo. */
  function LimboDue(s: State, g: nat): nat
    requires g in s.gctxs
  {
    |s.gctxs[g].holders| + if DumpHolds(s.dump, g) then 1 else 0
  }

  lemma LookupLeaks(s: State, a: LookupAction, g: nat)
    requires Inv(s) && LookupGuard(s, a) && LookupSafe(s, a) && g in LookupDo(s, a).gctxs
    ensures LookupDo(s, a).gctxs[g].leaked
         == (if g in s.gctxs then s.gctxs[g].leaked else 0) + (if Abandons(s, Lookup(a), g) then 1 else 0)
  {
    ThreadFacts(s, a.th);
  }

  lemma UseLeaks(s: State, a: UseAction, g: nat)
    requires Inv(s) && UseGuard(s, a) && UseSafe(s, a) && g in UseDo(s, a).gctxs
    ensures g in s.gctxs && UseDo(s, a).gctxs[g].leaked == s.gctxs[g].leaked
  {
    ThreadFacts(s, a.th);
  }

  lemma DumpLeaks(s: State, a: DumpAction, g: nat)
    requires Inv(s) && DumpGuard(s, a) && DumpSafe(s, a) && g in DumpDo(s, a).gctxs
    ensures g in s.gctxs && DumpDo(s, a).gctxs[g].leaked == s.gctxs[g].leaked
  {
    DumpFacts(s);
  }

  lemma StepLeaks(s: State, a: Action, g: nat)
    requires Inv(s) && Guard(s, a) && Safe(s, a) && g in Do(s, a).gctxs
    ensures Do(s, a).gctxs[g].leaked
         == (if g in s.gctxs then s.gctxs[g].leaked else 0) + (if Abandons(s, a, g) then 1 else 0)
  {
    match a
    case Lookup(look) => LookupLeaks(s, look, g);
    case Use(use) => UseLeaks(s, use, g);
    case Dumper(step) => DumpLeaks(s, step, g);
  }

  /** A gctx that a lookup gave up on is not freed. */
  lemma LeakedStays(s: State, a: Action, g: nat)
    requires Inv(s) && Guard(s, a) && Safe(s, a) && g in s.gctxs && (s.gctxs[g].leaked > 0 || Abandons(s, a, g))
    ensures g in Do(s, a).gctxs && Do(s, a).gctxs[g].leaked > 0
  {
    if g !in Do(s, a).gctxs {
      DestroysEmpty(s, a, g);
      LookupFreesNothing(s, a.look);
    } else {
      StepLeaks(s, a, g);
    }
  }

  lemma AbandonedAllocated(s: State, a: Action, g: nat)
    requires Inv(s) && Abandons(s, a, g)
    ensures g in s.gctxs
  {
    ThreadFacts(s, a.look.th);
  }

  lemma {:induction false} NoneAbandoned(states: seq<State>, acts: seq<Action>, n: nat)
    requires IsRun(states, acts) && n < |states| && CleanUpTo(acts, n)
    requires forall i, g {:trigger Abandons(states[i], acts[i], g)} :: 0 <= i < n ==> !Abandons(states[i], acts[i], g)
    ensures forall g :: g in states[n].gctxs ==> states[n].gctxs[g].leaked == 0
    decreases n
  {
    if n > 0 {
      NoneAbandoned(states, acts, n - 1);
      RunsAreSafe(states, acts, n - 1);
      GoodOn(states[n - 1], acts[n - 1], states[n]);
      forall g | g in states[n].gctxs
        ensures states[n].gctxs[g].leaked == 0
      {
        StepLeaks(states[n - 1], acts[n - 1], g);
        assert !Abandons(states[n - 1], acts[n - 1], g);
      }
    }
  }

  /** Once a lookup gave up on a gctx, it is allocated for ever. */
  lemma {:induction false} AbandonedStays(states: seq<State>, acts: seq<Action>, i: nat, n: nat, g: nat)
    requires IsRun(states, acts) && i < n < |states| && CleanUpTo(acts, n) && Abandons(states[i], acts[i], g)
    ensures g in states[n].gctxs && states[n].gctxs[g].leaked > 0
    decreases n
  {
    RunsAreSafe(states, acts, n - 1);
    GoodOn(states[n - 1], acts[n - 1], states[n]);
    if i < n - 1 {
      AbandonedStays(states, acts, i, n - 1, g);
    } else {
      AbandonedAllocated(states[i], acts[i], g);
    }
    LeakedStays(states[n - 1], acts[n - 1], g);
  }

  /** Its limbo count stays above what is due. */
  lemma AbandonedForever(states: seq<State>, acts: seq<Action>, i: nat, n: nat, g: nat)
    requires IsRun(states, acts) && i < n < |states| && CleanUpTo(acts, n) && Abandons(states[i], acts[i], g)
    ensures g in states[n].gctxs && states[n].gctxs[g].nlimbo > LimboDue(states[n], g)
  {
    AbandonedStays(states, acts, i, n, g);
    RunsAreSafe(states, acts, n);
    LimboCounts(states[n], g);
  }

  /** In every state of a run the limbo counts are exactly the threads and dumps that rely on them, if and only if no
      lookup gave up so far on a gctx that it had found. */
  lemma LimboExactIff(states: seq<State>, acts: seq<Action>, n: nat)
    requires IsRun(states, acts) && n < |states| && CleanUpTo(acts, n)
    ensures (forall g :: g in states[n].gctxs ==> states[n].gctxs[g].nlimbo == LimboDue(states[n], g))
       <==> (forall i, g {:trigger Abandons(states[i], acts[i], g)} :: 0 <= i < n ==> !Abandons(states[i], acts[i], g))
  {
    RunsAreSafe(states, acts, n);
    if forall i, g {:trigger Abandons(states[i], acts[i], g)} :: 0 <= i < n ==> !Abandons(states[i], acts[i], g) {
      NoneAbandoned(states, acts, n);
      forall g | g in states[n].gctxs
        ensures states[n].gctxs[g].nlimbo == LimboDue(states[n], g)
      {
        LimboCounts(states[n], g);
      }
    } else {
      var i, g :| 0 <= i < n && Abandons(states[i], acts[i], g);
      AbandonedForever(states, acts, i, n, g);
    }
  }

  lemma ExtendRun(states: seq<State>, acts: seq<Action>, a: Action, s': State)
    requires IsRun(states, acts) && IsStep(states[|acts|], a, s')
    ensures IsRun(states + [s'], acts + [a])
  {
    forall i | 0 <= i < |acts + [a]|
      ensures IsStep((states + [s'])[i], (acts + [a])[i], (states + [s'])[i + 1])
    {
      if i < |acts| {
        assert (acts + [a])[i] == acts[i];
      }
    }
  }

  lemma Extend(states: seq<State>, acts: seq<Action>, a: Action, s': State)
    returns (states': seq<State>, acts': seq<Action>)
    requires IsRun(states, acts) && CleanUpTo(acts, |acts|) && IsStep(states[|acts|], a, s') && Clean(a)
    ensures IsRun(states', acts') && CleanUpTo(acts', |acts'|) && states'[|acts'|] == s'
  {
    ExtendRun(states, acts, a, s');
    return states + [s'], acts + [a];
  }

  // A run that leaks: thread 0 creates gctx 1, thread 1 finds it and then gets no memory for its context; thread 0 gets
  // none either and tries to destroy the gctx.

  const L1 := State(map[], map[], map[], map[0 := Missed(7)], NoDump, {})
  const L2 := State(map[1 := Gctx(7, 1, {}, 0, {0}, false, 0)], map[], map[7 := 1], map[0 := GotGctx(1, true)],
                    NoDump, {})
  const L3 := L2.(pcs := map[0 := GotGctx(1, true), 1 := Missed(7)])
  const L4 := L2.(gctxs := map[1 := Gctx(7, 2, {}, 0, {0, 1}, false, 0)],
                  pcs := map[0 := GotGctx(1, true), 1 := GotGctx(1, false)])
  const L5 := L2.(gctxs := map[1 := Gctx(7, 2, {}, 0, {0}, false, 1)], pcs := map[0 := GotGctx(1, true), 1 := Idle])
  const L6 := L5.(pcs := map[0 := TryDestroy(1, None), 1 := Idle])
  const L7 := L5.(gctxs := map[1 := Gctx(7, 1, {}, 0, {}, false, 1)], pcs := map[0 := Idle, 1 := Idle])

  lemma Leak0()
    ensures IsStep(Initial, Lookup(LookupMiss(0, 7)), L1)
  {
    assert Initial.pcs[0 := Missed(7)] == L1.pcs;
  }

  lemma Leak1()
    ensures IsStep(L1, Lookup(GlobalNew(0, 1)), L2)
  {
    assert L1.pcs[0 := GotGctx(1, true)] == L2.pcs && L1.table[7 := 1] == L2.table
           && L1.gctxs[1 := L2.gctxs[1]] == L2.gctxs;
  }

  lemma Leak2()
    ensures IsStep(L2, Lookup(LookupMiss(1, 7)), L3)
  {
    assert L2.pcs[1 := Missed(7)] == L3.pcs;
  }

  lemma Leak3()
    ensures IsStep(L3, Lookup(GlobalOld(1)), L4)
  {
    assert L3.pcs[1 := GotGctx(1, false)] == L4.pcs && L3.gctxs[1 := L4.gctxs[1]] == L4.gctxs && {0} + {1} == {0, 1};
  }

  lemma Leak4()
    ensures IsStep(L4, Lookup(AllocFail(1)), L5)
  {
    assert L4.pcs[1 := Idle] == L5.pcs && L4.gctxs[1 := L5.gctxs[1]] == L5.gctxs && {0, 1} - {1} == {0};
  }

  lemma Leak5()
    ensures IsStep(L5, Lookup(AllocFail(0)), L6)
  {
    assert L5.pcs[0 := TryDestroy(1, None)] == L6.pcs;
  }

  lemma Leak6()
    ensures IsStep(L6, Use(TryDestroyGctx(0)), L7)
  {
    assert L6.pcs[0 := Idle] == L7.pcs && L6.gctxs[1 := L7.gctxs[1]] == L7.gctxs && {0} - {0} == {};
  }

  lemma LeakRun2() returns (states: seq<State>, acts: seq<Action>)
    ensures IsRun(states, acts) && CleanUpTo(acts, |acts|) && states[|acts|] == L2
  {
    Leak0();
    states, acts := Extend([Initial], [], Lookup(LookupMiss(0, 7)), L1);
    Leak1();
    states, acts := Extend(states, acts, Lookup(GlobalNew(0, 1)), L2);
  }

  lemma LeakRun4() returns (states: seq<State>, acts: seq<Action>)
    ensures IsRun(states, acts) && CleanUpTo(acts, |acts|) && states[|acts|] == L4
  {
    states, acts := LeakRun2();
    Leak2();
    states, acts := Extend(states, acts, Lookup(LookupMiss(1, 7)), L3);
    Leak3();
    states, acts := Extend(states, acts, Lookup(GlobalOld(1)), L4);
  }

  lemma LeakRun6() returns (states: seq<State>, acts: seq<Action>)
    ensures IsRun(states, acts) && CleanUpTo(acts, |acts|) && states[|acts|] == L6
  {
    states, acts := LeakRun4();
    Leak4();
    states, acts := Extend(states, acts, Lookup(AllocFail(1)), L5);
    Leak5();
    states, acts := Extend(states, acts, Lookup(AllocFail(0)), L6);
  }

  /** Afterwards no thread is doing anything, and the gctx is still there without a context. */
  lemma LeakingRun() returns (states: seq<State>, acts: seq<Action>)
    ensures IsRun(states, acts) && CleanUpTo(acts, |acts|) && states[|acts|] == L7
    ensures L7.dump.NoDump? && 1 in L7.gctxs && L7.gctxs[1].tree == {} && L7.gctxs[1].nlimbo == 1
    ensures forall th :: Pc(L7, th) == Idle
  {
    states, acts := LeakRun6();
    Leak6();
    states, acts := Extend(states, acts, Use(TryDestroyGctx(0)), L7);
  }
}
