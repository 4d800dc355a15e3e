/** What a failed insertion into bt2gctx or bt2tctx leads to when it loses an old item. */
module ProfLost {
  import opened Basics
  import opened Prof
  import opened ProfDump
  import Ckh

  /** When bt2gctx loses an old item, the same thread's next lookup of the same backtrace finds a gctx that is freed. */
  lemma LostGctxIsUnsafe(s: State, th: nat, g: nat, bt: int)
    requires Good(s) && LookupGuard(s, GlobalInsertFail(th, g, Some(bt)))
    ensures var s1 := LookupDo(s, GlobalInsertFail(th, g, Some(bt)));
            && LookupGuard(s1, LookupMiss(th, Pc(s, th).bt))
            && var s2 := LookupDo(s1, LookupMiss(th, Pc(s, th).bt));
               LookupGuard(s2, GlobalOld(th)) && !LookupSafe(s2, GlobalOld(th))
  {
    assert Absent(s, th);
  }

  /** When a thread's bt2tctx loses an old item, the context that is to be freed is in the table. */
  ghost predicate Doomed(s: State, th: nat, t: nat)
  {
    && t in s.tctxs && s.tctxs[t].inTable && s.tctxs[t].tdata == th
    && (Pc(s, th) == FreeTctx(t) || (Pc(s, th).TryDestroy? && Pc(s, th).k == Some(t)))
  }

  lemma LostTctxIsDoomed(s: State, th: nat, u: nat)
    requires Good(s) && LookupGuard(s, InsertFail(th, Some(u))) && LookupSafe(s, InsertFail(th, Some(u)))
    ensures Doomed(LookupDo(s, InsertFail(th, Some(u))), th, Pc(s, th).t)
    ensures TdataFree(LookupDo(s, InsertFail(th, Some(u))), th)
    ensures Pc(s, th).isNew <==> Pc(LookupDo(s, InsertFail(th, Some(u))), th).TryDestroy?
  {
    ThreadFacts(s, th);
  }

  /** Giving up the gctx first does not change that. */
  lemma DoomedOn(s: State, th: nat, t: nat)
    requires Doomed(s, th, t) && Pc(s, th).TryDestroy? && UseGuard(s, TryDestroyGctx(th))
             && UseSafe(s, TryDestroyGctx(th))
    ensures Doomed(UseDo(s, TryDestroyGctx(th)), th, t) && Pc(UseDo(s, TryDestroyGctx(th)), th) == FreeTctx(t)
    ensures TdataFree(s, th) ==> TdataFree(UseDo(s, TryDestroyGctx(th)), th)
  {
  }

  lemma LostTctxGivesUp(s: State, th: nat, u: nat)
    requires Good(s) && LookupGuard(s, InsertFail(th, Some(u))) && LookupSafe(s, InsertFail(th, Some(u)))
    requires Pc(s, th).isNew && BtMtxFree(s)
    ensures UseGuard(LookupDo(s, InsertFail(th, Some(u))), TryDestroyGctx(th))
    ensures UseSafe(LookupDo(s, InsertFail(th, Some(u))), TryDestroyGctx(th))
  {
    ThreadFacts(s, th);
    GctxFacts(s, Pc(s, th).g);
  }

  /** Once it is freed, the same thread's next lookup of its backtrace finds it. */
  lemma DoomedIsUnsafe(s: State, th: nat, t: nat)
    requires Doomed(s, th, t) && Pc(s, th) == FreeTctx(t) && TdataFree(s, th)
    ensures UseGuard(s, FreeIt(th)) && UseSafe(s, FreeIt(th))
    ensures LookupGuard(UseDo(s, FreeIt(th)), StaleHit(th, t)) && !LookupSafe(UseDo(s, FreeIt(th)), StaleHit(th, t))
  {
  }

  // So every failed insertion that loses an old item can be continued to an unsafe action.

  lemma StepOf(s: State, a: Action)
    requires Guard(s, a) && Safe(s, a)
    ensures IsStep(s, a, Do(s, a))
  {
  }

  lemma UnsafeStep(s: State, a: Action)
    requires Guard(s, a) && !Safe(s, a)
    ensures IsStep(s, a, s)
  {
  }

  /** A run that ends with an unsafe action. */
  ghost predicate EndsUnsafe(states: seq<State>, acts: seq<Action>)
  {
    IsRun(states, acts) && |acts| > 0 && !Safe(states[|acts| - 1], acts[|acts| - 1])
  }

  lemma ExtendUnsafe(states: seq<State>, acts: seq<Action>, a: Action) returns (states': seq<State>, acts': seq<Action>)
    requires IsRun(states, acts) && Guard(states[|acts|], a) && !Safe(states[|acts|], a)
    ensures EndsUnsafe(states', acts') && acts' == acts + [a]
  {
    UnsafeStep(states[|acts|], a);
    ExtendRun(states, acts, a, states[|acts|]);
    states', acts' := states + [states[|acts|]], acts + [a];
  }

  lemma ExtendSafe(states: seq<State>, acts: seq<Action>, a: Action) returns (states': seq<State>, acts': seq<Action>)
    requires IsRun(states, acts) && Guard(states[|acts|], a) && Safe(states[|acts|], a)
    ensures IsRun(states', acts') && acts' == acts + [a] && states'[|acts'|] == Do(states[|acts|], a)
  {
    StepOf(states[|acts|], a);
    ExtendRun(states, acts, a, Do(states[|acts|], a));
    states', acts' := states + [Do(states[|acts|], a)], acts + [a];
  }

  lemma LostGctxRun(states: seq<State>, acts: seq<Action>, th: nat, g: nat, bt: int)
    returns (states': seq<State>, acts': seq<Action>)
    requires IsRun(states, acts) && CleanUpTo(acts, |acts|)
    requires LookupGuard(states[|acts|], GlobalInsertFail(th, g, Some(bt)))
    ensures EndsUnsafe(states', acts') && acts + [Lookup(GlobalInsertFail(th, g, Some(bt)))] <= acts'
  {
    RunsAreSafe(states, acts, |acts|);
    LostGctxIsUnsafe(states[|acts|], th, g, bt);
    var key := Pc(states[|acts|], th).bt;
    states', acts' := ExtendSafe(states, acts, Lookup(GlobalInsertFail(th, g, Some(bt))));
    states', acts' := ExtendSafe(states', acts', Lookup(LookupMiss(th, key)));
    states', acts' := ExtendUnsafe(states', acts', Lookup(GlobalOld(th)));
  }

  lemma DoomedRun(states: seq<State>, acts: seq<Action>, th: nat, t: nat)
    returns (states': seq<State>, acts': seq<Action>)
    requires IsRun(states, acts) && Doomed(states[|acts|], th, t)
    requires Pc(states[|acts|], th) == FreeTctx(t) && TdataFree(states[|acts|], th)
    ensures EndsUnsafe(states', acts') && acts <= acts'
  {
    DoomedIsUnsafe(states[|acts|], th, t);
    states', acts' := ExtendSafe(states, acts, Use(FreeIt(th)));
    states', acts' := ExtendUnsafe(states', acts', Lookup(StaleHit(th, t)));
  }

  // In the meantime a dump may hold bt2gctx_mtx.  It leaves it whatever the thread's table holds.

  /** What a dump does until it gives up bt2gctx_mtx, apart from taking up another thread. */
  predicate Onward(a: DumpAction)
  {
    a.PrepOne? || a.PrepDone? || a.MergeOne? || a.UnlockTdata? || a.MergeTDone? || a.MergeGctx? || a.Leave?
  }

  /** A failed insertion that loses `u`, by a thread that then has to give up the gctx it created. */
  ghost predicate Losing(s: State, th: nat, u: nat)
  {
    && LookupGuard(s, InsertFail(th, Some(u))) && LookupSafe(s, InsertFail(th, Some(u))) && Pc(s, th).isNew
  }

  ghost function Lost(s: State, th: nat, u: nat): State
    requires Losing(s, th, u)
  {
    LookupDo(s, InsertFail(th, Some(u)))
  }

  /** It makes no difference whether such a step of the dump comes before the failure or after it. */
  lemma StillLosing(s: State, a: DumpAction, th: nat, u: nat)
    requires Losing(s, th, u) && Onward(a) && DumpGuard(s, a) && DumpSafe(s, a)
    ensures Losing(DumpDo(s, a), th, u) && Pc(DumpDo(s, a), th) == Pc(s, th)
  {
    assert TableOf(DumpDo(s, a), th) == TableOf(s, th);
  }

  lemma StillOnward(s: State, a: DumpAction, th: nat, u: nat)
    requires Losing(s, th, u) && Onward(a) && DumpGuard(s, a) && DumpSafe(s, a)
    ensures DumpGuard(Lost(s, th, u), a) && DumpSafe(Lost(s, th, u), a)
  {
  }

  lemma CapturedAlike(tctxs: map<nat, Tctx>, t: nat, u: nat, x: nat)
    requires t in tctxs && u in tctxs && x in tctxs
    ensures var after := TctxsAfterFail(tctxs, t, Some(u));
            TctxsAfterFail(tctxs[x := tctxs[x].(state := Dumping, dumpCnts := tctxs[x].cnts)], t, Some(u))
            == after[x := after[x].(state := Dumping, dumpCnts := after[x].cnts)]
  {
  }

  lemma SummedAlike(tctxs: map<nat, Tctx>, t: nat, u: nat, tree: set<nat>)
    requires t in tctxs && u in tctxs
    ensures Captures(TctxsAfterFail(tctxs, t, Some(u)), tree) == Captures(tctxs, tree)
  {
    CapturesFrame(TctxsAfterFail(tctxs, t, Some(u)), tree, tctxs, tree);
  }

  lemma MergeOneCommutes(s: State, t: nat, th: nat, u: nat)
    requires Losing(s, th, u) && DumpGuard(s, MergeOne(t)) && DumpSafe(s, MergeOne(t))
    requires Losing(DumpDo(s, MergeOne(t)), th, u)
    requires DumpGuard(Lost(s, th, u), MergeOne(t)) && DumpSafe(Lost(s, th, u), MergeOne(t))
    ensures DumpDo(Lost(s, th, u), MergeOne(t)) == Lost(DumpDo(s, MergeOne(t)), th, u)
  {
    CapturedAlike(s.tctxs, Pc(s, th).t, u, t);
  }

  lemma SummedCommutes(s: State, g: nat, c: int, th: nat, u: nat)
    requires g in s.gctxs && s.dump.MergeG? && Losing(s, th, u) && Losing(Summed(s, g, c), th, u)
    ensures Summed(Lost(s, th, u), g, c) == Lost(Summed(s, g, c), th, u)
  {
  }

  lemma MergeGctxCommutes(s: State, g: nat, th: nat, u: nat)
    requires Losing(s, th, u) && DumpGuard(s, MergeGctx(g)) && DumpSafe(s, MergeGctx(g))
    requires Losing(DumpDo(s, MergeGctx(g)), th, u)
    requires DumpGuard(Lost(s, th, u), MergeGctx(g)) && DumpSafe(Lost(s, th, u), MergeGctx(g))
    ensures DumpDo(Lost(s, th, u), MergeGctx(g)) == Lost(DumpDo(s, MergeGctx(g)), th, u)
  {
    var c := Captures(s.tctxs, s.gctxs[g].tree);
    SummedAlike(s.tctxs, Pc(s, th).t, u, s.gctxs[g].tree);
    SummedIs(s, g, c);
    SummedIs(Lost(s, th, u), g, c);
    SummedCommutes(s, g, c, th, u);
  }

  lemma Commutes(s: State, a: DumpAction, th: nat, u: nat)
    requires Onward(a)
    requires Losing(s, th, u) && DumpGuard(s, a) && DumpSafe(s, a)
    requires Losing(DumpDo(s, a), th, u) && DumpGuard(Lost(s, th, u), a) && DumpSafe(Lost(s, th, u), a)
    ensures DumpDo(Lost(s, th, u), a) == Lost(DumpDo(s, a), th, u)
  {
    if a.MergeGctx? {
      MergeGctxCommutes(s, a.g, th, u);
    } else if a.MergeOne? {
      MergeOneCommutes(s, a.t, th, u);
    }
  }

  /** The dump's next step. */
  ghost function Next(s: State): (a: DumpAction)
    requires !BtMtxFree(s) && (s.dump.MergeT? && s.dump.cur.None? ==> s.dump.visit == {})
    ensures Onward(a) && DumpGuard(s, a)
  {
    match s.dump
    case Prep(todo) => if todo == {} then PrepDone else var g :| g in todo; PrepOne(g)
    case MergeT(cur, visit, _, _) =>
      if visit != {} then var t :| t in visit; MergeOne(t) else if cur.Some? then UnlockTdata else MergeTDone
    case MergeG(todo, _) => if todo == {} then Leave else var g :| g in todo; MergeGctx(g)
  }

  function Phase(d: Dump): nat
  {
    match d
    case Prep(_) => 4
    case MergeT(cur, _, _, _) => if cur.Some? then 3 else 2
    case MergeG(_, _) => 1
    case _ => 0
  }

  function Left(d: Dump): set<nat>
  {
    match d
    case Prep(todo) => todo
    case MergeT(_, visit, _, _) => visit
    case MergeG(todo, _) => todo
    case _ => {}
  }

  lemma NextSmaller(s: State, a: DumpAction)
    requires Onward(a) && DumpGuard(s, a) && DumpSafe(s, a)
    ensures Phase(DumpDo(s, a).dump) < Phase(s.dump)
         || (Phase(DumpDo(s, a).dump) == Phase(s.dump) && |Left(DumpDo(s, a).dump)| < |Left(s.dump)|)
  {
  }

  lemma VisitsOne(s: State)
    requires Inv(s)
    ensures s.dump.MergeT? && s.dump.cur.None? ==> s.dump.visit == {}
  {
    DumpFacts(s);
  }

  lemma OnwardStep(s: State, a: DumpAction, th: nat, u: nat)
    requires Good(s) && Losing(s, th, u) && Onward(a) && DumpGuard(s, a) && DumpSafe(s, a)
    ensures var s' := DumpDo(s, a);
            && Good(s') && Losing(s', th, u) && Pc(s', th) == Pc(s, th)
            && IsStep(Lost(s, th, u), Dumper(a), Lost(s', th, u))
  {
    StillLosing(s, a, th, u);
    StillOnward(s, a, th, u);
    Commutes(s, a, th, u);
    StepGood(s, Dumper(a));
    StepOf(Lost(s, th, u), Dumper(a));
  }

  lemma {:induction false} DumpLeaves(states: seq<State>, acts: seq<Action>, s: State, th: nat, u: nat)
    returns (states': seq<State>, acts': seq<Action>, s': State)
    requires IsRun(states, acts) && Good(s) && Losing(s, th, u) && states[|acts|] == Lost(s, th, u)
    ensures IsRun(states', acts') && acts <= acts' && Good(s') && Losing(s', th, u) && BtMtxFree(s')
    ensures states'[|acts'|] == Lost(s', th, u) && Pc(s', th) == Pc(s, th)
    decreases Phase(s.dump), |Left(s.dump)|
  {
    states', acts', s' := states, acts, s;
    if !BtMtxFree(s) {
      VisitsOne(s);
      var a := Next(s);
      DumpIsSafe(s, a);
      OnwardStep(s, a, th, u);
      NextSmaller(s, a);
      s' := DumpDo(s, a);
      ExtendRun(states, acts, Dumper(a), Lost(s', th, u));
      states', acts' := states + [Lost(s', th, u)], acts + [Dumper(a)];
      states', acts', s' := DumpLeaves(states', acts', s', th, u);
    }
  }

  /** A lookup that created the gctx first gives it up, for which a dump has to leave bt2gctx_mtx. */
  lemma GivingUpRun(states: seq<State>, acts: seq<Action>, s: State, th: nat, u: nat)
    returns (states': seq<State>, acts': seq<Action>)
    requires IsRun(states, acts) && Good(s) && Losing(s, th, u) && states[|acts|] == Lost(s, th, u)
    ensures EndsUnsafe(states', acts') && acts <= acts'
  {
    var s';
    states', acts', s' := DumpLeaves(states, acts, s, th, u);
    LostTctxIsDoomed(s', th, u);
    LostTctxGivesUp(s', th, u);
    DoomedOn(Lost(s', th, u), th, Pc(s', th).t);
    states', acts' := ExtendSafe(states', acts', Use(TryDestroyGctx(th)));
    states', acts' := DoomedRun(states', acts', th, Pc(s', th).t);
  }

  lemma LostTctxRun(states: seq<State>, acts: seq<Action>, th: nat, u: nat)
    returns (states': seq<State>, acts': seq<Action>)
    requires IsRun(states, acts) && CleanUpTo(acts, |acts|) && LookupGuard(states[|acts|], InsertFail(th, Some(u)))
    ensures EndsUnsafe(states', acts') && acts + [Lookup(InsertFail(th, Some(u)))] <= acts'
  {
    var s, fail := states[|acts|], Lookup(InsertFail(th, Some(u)));
    RunsAreSafe(states, acts, |acts|);
    StepIsSafe(s, fail);
    LostTctxIsDoomed(s, th, u);
    states', acts' := ExtendSafe(states, acts, fail);
    if Pc(s, th).isNew {
      states', acts' := GivingUpRun(states', acts', s, th, u);
    } else {
      states', acts' := DoomedRun(states', acts', th, Pc(s, th).t);
    }
  }

  /** So the condition of `RunsAreSafe` is exact: after the first failed insertion that loses an old item, the program
      may use what is freed. */
  lemma FirstLossIsUnsafe(states: seq<State>, acts: seq<Action>, a: Action)
    returns (states': seq<State>, acts': seq<Action>)
    requires IsRun(states, acts) && CleanUpTo(acts, |acts|) && Guard(states[|acts|], a) && !Clean(a)
    ensures EndsUnsafe(states', acts') && acts + [a] <= acts'
  {
    if a.look.InsertFail? {
      states', acts' := LostTctxRun(states, acts, a.look.th, a.look.lost.value);
    } else {
      states', acts' := LostGctxRun(states, acts, a.look.th, a.look.g, a.look.lostBt.value);
    }
  }

  // A run in which this happens: `n` threads create one gctx each, which fill a bucket; the next one's insertion fails.

  function FilledGctxs(n: nat): (m: map<nat, Gctx>)
    ensures forall g: nat :: g in m <==> g < n
  {
    if n == 0 then map[] else FilledGctxs(n - 1)[n - 1 := Gctx(n - 1, 1, {}, 0, {n - 1}, false, 0)]
  }

  function FilledTable(n: nat): (m: map<int, nat>)
    ensures forall bt :: bt in m <==> 0 <= bt < n
    ensures |m| == n
  {
    if n == 0 then map[] else FilledTable(n - 1)[n - 1 := n - 1]
  }

  function FilledPcs(n: nat): map<nat, PC>
  {
    if n == 0 then map[] else FilledPcs(n - 1)[n - 1 := GotGctx(n - 1, true)]
  }

  function Filled(n: nat): State
  {
    State(FilledGctxs(n), map[], FilledTable(n), FilledPcs(n), NoDump, {})
  }

  /** The same, with the next thread looking for its backtrace. */
  function Looking(n: nat): State
  {
    Filled(n).(pcs := FilledPcs(n)[n := Missed(n)])
  }

  lemma {:induction false} FilledIdle(n: nat, th: nat)
    requires n <= th
    ensures th !in FilledPcs(n)
  {
    if n > 0 {
      FilledIdle(n - 1, th);
    }
  }

  lemma FillMiss(n: nat)
    ensures IsStep(Filled(n), Lookup(LookupMiss(n, n)), Looking(n))
  {
    FilledIdle(n, n);
  }

  lemma FillNew(n: nat)
    ensures IsStep(Looking(n), Lookup(GlobalNew(n, n)), Filled(n + 1))
  {
    assert FilledPcs(n)[n := Missed(n)][n := GotGctx(n, true)] == FilledPcs(n + 1);
  }

  lemma {:induction false} FillRun(n: nat) returns (states: seq<State>, acts: seq<Action>)
    ensures IsRun(states, acts) && CleanUpTo(acts, |acts|) && states[|acts|] == Looking(n)
  {
    if n == 0 {
      assert Filled(0) == Initial;
      states, acts := [Initial], [];
    } else {
      states, acts := FillRun(n - 1);
      FillNew(n - 1);
      states, acts := Extend(states, acts, Lookup(GlobalNew(n - 1, n - 1)), Filled(n));
    }
    FillMiss(n);
    states, acts := Extend(states, acts, Lookup(LookupMiss(n, n)), Looking(n));
  }

  /** A run from the start that uses a gctx which is freed. */
  lemma UnsafeRun(n: nat) returns (states: seq<State>, acts: seq<Action>)
    requires n >= Ckh.BUCKET_CELLS
    ensures EndsUnsafe(states, acts)
  {
    states, acts := FillRun(n);
    states, acts := LostGctxRun(states, acts, n, n, 0);
  }
}
