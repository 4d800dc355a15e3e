/** Small-object bins (arena.c): a bin has a current run, a heap of other runs with free regions, and drops its lock
    while a run is being allocated or given back.

    Each action is one critical section under the bin lock, or under the arena lock while the bin lock is dropped.
    Runs are numbered in the order in which the heap prefers them.  `owner` is auxiliary: the thread that holds
    a run while it is in neither the heap nor the bin.
 */
module Bins {
  import opened Basics

  datatype Run = Run(live: set<nat>, nfree: int, owner: Option<nat>)

  datatype PC =
    | Idle
    | Wants                  // arena_bin_nonfull_run_get has dropped the bin lock
    | HasRun(r: nat)         // a new run was allocated
    | NoRun                  // no run could be allocated
    | Freeing(r: nat)        // arena_dalloc_bin_run has dropped the bin lock

  datatype State = State(
    nregs: nat,
    runs: map<nat, Run>,
    runcur: Option<nat>,
    heap: set<nat>,
    pcs: map<nat, PC>)

  function Pc(s: State, th: nat): PC
  {
    if th in s.pcs then s.pcs[th] else Idle
  }

  function Held(pc: PC): Option<nat>
  {
    match pc
    case HasRun(r) => Some(r)
    case Freeing(r) => Some(r)
    case _ => None
  }

  // ---------------------------------------------------------------- the invariant

  /** nfree counts the free regions. */
  ghost predicate Counted(nregs: nat, x: Run)
  {
    && 0 <= x.nfree <= nregs && (x.nfree == nregs <==> x.live == {})
    && (forall key {:trigger Open(key)} :: Open(key) ==> x.nfree == nregs - |x.live| && forall g :: g in x.live ==>
        g < nregs)
  }

  lemma CountedTake(nregs: nat, x: Run, reg: nat, owner: Option<nat>)
    requires Counted(nregs, x) && x.nfree > 0 && reg < nregs && reg !in x.live
    ensures Counted(nregs, x.(live := x.live + {reg}, nfree := x.nfree - 1, owner := owner))
  {
    assert Open(0);
    assert |x.live + {reg}| == |x.live| + 1;
  }

  lemma CountedDrop(nregs: nat, x: Run, reg: nat)
    requires Counted(nregs, x) && reg in x.live
    ensures Counted(nregs, x.(live := x.live - {reg}, nfree := x.nfree + 1))
  {
    assert Open(0);
    assert |x.live - {reg}| == |x.live| - 1;
  }

  lemma CountedNew(nregs: nat, owner: Option<nat>)
    ensures Counted(nregs, Run({}, nregs, owner))
  {
  }

  /** A run with both free and live regions is in the heap unless it is the current
      run; an empty run is in some thread's hands. */
  ghost predicate RunInv(s: State, r: nat)
    requires r in s.runs
  {
    var x := s.runs[r];
    && Counted(s.nregs, x)
    && (x.live == {} <==> x.owner.Some?)
    && (x.owner.Some? ==> Held(Pc(s, x.owner.value)) == Some(r))
    && (s.runcur == Some(r) ==> x.live != {})
    && (r in s.heap <==> x.live != {} && x.nfree > 0 && s.runcur != Some(r))
  }

  ghost predicate ThreadInv(s: State, th: nat)
  {
    Held(Pc(s, th)).Some? ==> Held(Pc(s, th)).value in s.runs && s.runs[Held(Pc(s, th)).value].owner == Some(th)
  }

  ghost predicate AllInv(s: State)
  {
    && s.nregs >= 1
    && (forall r {:trigger RunInv(s, r)} :: r in s.runs ==> RunInv(s, r))
    && (forall th {:trigger ThreadInv(s, th)} :: ThreadInv(s, th))
    && s.heap <= s.runs.Keys
    && (s.runcur.Some? ==> s.runcur.value in s.runs)
  }

  /** A mark that lets a proof look inside `Inv`; elsewhere it is kept as one fact. */
  ghost predicate Within(key: int)
  {
    true
  }

  /** What every step keeps. */
  ghost predicate Inv(s: State)
  {
    forall key {:trigger Within(key)} :: Within(key) ==> AllInv(s)
  }

  // ---------------------------------------------------------------- the steps

  /** What arena_bin_malloc_hard and arena_malloc_small test: the current run can serve a region. */
  predicate CurrentServes(s: State)
  {
    s.runcur.Some? && s.runcur.value in s.runs && s.runs[s.runcur.value].nfree > 0
  }

  /** bitmap_sfu: the lowest free region. */
  predicate FirstFree(x: Run, reg: nat)
  {
    reg !in x.live && forall g :: 0 <= g < reg ==> g in x.live
  }

  /** arena_run_heap_remove_first. */
  ghost predicate FirstOf(heap: set<nat>, r: nat)
  {
    r in heap && forall x :: x in heap ==> r <= x
  }

  function To(s: State, th: nat, pc: PC): State
  {
    s.(pcs := s.pcs[th := pc])
  }

  /** arena_run_reg_alloc. */
  function TakeRegion(s: State, r: nat, reg: nat): State
    requires r in s.runs
  {
    var x := s.runs[r];
    s.(runs := s.runs[r := x.(live := x.live + {reg}, nfree := x.nfree - 1, owner := None)])
  }

  /** arena_bin_lower_run. */
  function LowerRun(s: State, r: nat): State
    requires s.runcur.Some? ==> s.runcur.value in s.runs
  {
    if s.runcur.Some? && s.runcur.value > r then
      s.(heap := if s.runs[s.runcur.value].nfree > 0 then s.heap + {s.runcur.value} else s.heap, runcur := Some(r))
    else
      s.(heap := s.heap + {r})
  }

  /** arena_run_reg_dalloc. */
  function DropRegion(s: State, r: nat, reg: nat): State
    requires r in s.runs
  {
    var x := s.runs[r];
    s.(runs := s.runs[r := x.(live := x.live - {reg}, nfree := x.nfree + 1)])
  }

  /** arena_dissociate_bin_run. */
  function Dissociate(s: State, r: nat, th: nat): State
    requires r in s.runs
  {
    var t := s.(runs := s.runs[r := s.runs[r].(owner := Some(th))]);
    if s.runcur == Some(r) then t.(runcur := None)
    else if s.nregs != 1 then t.(heap := s.heap - {r})
    else t
  }

  datatype Action =
    | MallocCur(th: nat, reg: nat)                  // the current run serves it
    | MallocHeap(th: nat, r: nat, reg: nat)         // the first run of the heap becomes current
    | MallocDrop(th: nat)                           // the heap is empty: drop the lock
    | NewRun(th: nat, r: nat)
    | NewFail(th: nat)
    | BackUse(th: nat, reg: nat)                    // back with a run, but the current run serves it now
    | BackInstall(th: nat, reg: nat)                // back with a run, which becomes current
    | BackFirst(th: nat, r: nat, reg: nat)          // back without one: the first run of the heap becomes current
    | BackLower(th: nat, r: nat, reg: nat)          // likewise, but the current run serves it now
    | BackCur(th: nat, reg: nat)                    // back without one: the current run serves it now
    | BackNone(th: nat)                             // back without one: out of memory
    | GiveBack(th: nat)                             // arena_run_dalloc
    | Dalloc(th: nat, r: nat, reg: nat)             // arena_dalloc_bin_locked_impl

  ghost predicate Guard(s: State, a: Action)
  {
    match a
    case MallocCur(th, reg) => Pc(s, th) == Idle && CurrentServes(s) && FirstFree(s.runs[s.runcur.value], reg)
    case MallocHeap(th, r, reg) =>
      Pc(s, th) == Idle && !CurrentServes(s) && FirstOf(s.heap, r) && (r in s.runs ==> FirstFree(s.runs[r], reg))
    case MallocDrop(th) => Pc(s, th) == Idle && !CurrentServes(s) && s.heap == {}
    case NewRun(th, r) => Pc(s, th) == Wants && r !in s.runs
    case NewFail(th) => Pc(s, th) == Wants
    case BackUse(th, reg) => Pc(s, th).HasRun? && CurrentServes(s) && FirstFree(s.runs[s.runcur.value], reg)
    case BackInstall(th, reg) => Pc(s, th).HasRun? && !CurrentServes(s) && reg == 0
    case BackFirst(th, r, reg) =>
      Pc(s, th) == NoRun && !CurrentServes(s) && FirstOf(s.heap, r) && (r in s.runs ==> FirstFree(s.runs[r], reg))
    case BackLower(th, r, reg) =>
      Pc(s, th) == NoRun && CurrentServes(s) && FirstOf(s.heap, r) && FirstFree(s.runs[s.runcur.value], reg)
    case BackCur(th, reg) => Pc(s, th) == NoRun && CurrentServes(s) && s.heap == {}
      && FirstFree(s.runs[s.runcur.value], reg)
    case BackNone(th) => Pc(s, th) == NoRun && !CurrentServes(s) && s.heap == {}
    case GiveBack(th) => Pc(s, th).Freeing?
    case Dalloc(th, r, reg) => Pc(s, th) == Idle && r in s.runs && reg in s.runs[r].live
  }

  /** Region `reg` of run `r` can be handed out: it exists and nobody has it. */
  ghost predicate CanTake(s: State, r: nat, reg: nat)
  {
    r in s.runs && s.runs[r].nfree > 0 && reg < s.nregs && reg !in s.runs[r].live
  }

  /** The runs the action touches are allocated, and the assertions of the source hold. */
  ghost predicate Safe(s: State, a: Action)
  {
    match a
    case MallocCur(th, reg) => s.runcur.Some? && CanTake(s, s.runcur.value, reg)
    case MallocHeap(th, r, reg) => CanTake(s, r, reg)
    case BackUse(th, reg) =>
      && s.runcur.Some? && CanTake(s, s.runcur.value, reg)
      && Pc(s, th).HasRun? && Pc(s, th).r in s.runs && s.runs[Pc(s, th).r].nfree == s.nregs
         && s.runcur != Some(Pc(s, th).r)
    case BackInstall(th, reg) => Pc(s, th).HasRun? && CanTake(s, Pc(s, th).r, reg)
    case BackFirst(th, r, reg) => CanTake(s, r, reg)
    case BackLower(th, r, reg) =>
      s.runcur.Some? && CanTake(s, s.runcur.value, reg) && r in s.runs && s.runs[r].nfree != s.nregs
        && s.runcur != Some(r)
    case BackCur(th, reg) => s.runcur.Some? && CanTake(s, s.runcur.value, reg)
    case GiveBack(th) => Pc(s, th).Freeing? && Pc(s, th).r in s.runs && s.runs[Pc(s, th).r].live == {}
      && s.runcur != Some(Pc(s, th).r)
    case Dalloc(th, r, reg) =>
      && r in s.runs && reg in s.runs[r].live && s.runs[r].nfree < s.nregs
      && (s.runcur.Some? ==> s.runcur.value in s.runs)
      && (s.runs[r].live == {reg} && s.runcur != Some(r) && s.nregs != 1 ==> r in s.heap)
      && (s.runs[r].nfree == 0 && s.runcur != Some(r) ==> r !in s.heap)
    case _ => true
  }

  ghost function Do(s: State, a: Action): State
    requires Guard(s, a) && Safe(s, a)
  {
    match a
    case MallocCur(th, reg) => TakeRegion(s, s.runcur.value, reg)
    case MallocHeap(th, r, reg) => TakeRegion(s.(runcur := Some(r), heap := s.heap - {r}), r, reg)
    case MallocDrop(th) => To(s.(runcur := None), th, Wants)
    case NewRun(th, r) => To(s.(runs := s.runs[r := Run({}, s.nregs, Some(th))]), th, HasRun(r))
    case NewFail(th) => To(s, th, NoRun)
    case BackUse(th, reg) => To(TakeRegion(s, s.runcur.value, reg), th, Freeing(Pc(s, th).r))
    case BackInstall(th, reg) => To(TakeRegion(s.(runcur := Some(Pc(s, th).r)), Pc(s, th).r, reg), th, Idle)
    case BackFirst(th, r, reg) => To(TakeRegion(s.(runcur := Some(r), heap := s.heap - {r}), r, reg), th, Idle)
    case BackLower(th, r, reg) => To(LowerRun(TakeRegion(s.(heap := s.heap - {r}), s.runcur.value, reg), r), th, Idle)
    case BackCur(th, reg) => To(TakeRegion(s, s.runcur.value, reg), th, Idle)
    case BackNone(th) => To(s, th, Idle)
    case GiveBack(th) => To(s.(runs := s.runs - {Pc(s, th).r}), th, Idle)
    case Dalloc(th, r, reg) =>
      var t := DropRegion(s, r, reg);
      if t.runs[r].nfree == s.nregs then To(Dissociate(t, r, th), th, Freeing(r))
      else if t.runs[r].nfree == 1 && s.runcur != Some(r) then LowerRun(t, r)
      else t
  }

  // ---------------------------------------------------------------- no step is unsafe

  lemma Missing(live: set<nat>, n: nat, reg: nat)
    requires forall g :: g in live ==> g < n
    requires |live| < n && reg !in live && forall g :: 0 <= g < reg ==> g in live
    ensures reg < n
  {
    if reg >= n {
      AllBelow(live, n);
    }
  }

  /** A set that holds all numbers below `n` has at least `n` elements. */
  lemma {:induction false} AllBelow(live: set<nat>, n: nat)
    requires forall g :: 0 <= g < n ==> g in live
    ensures |live| >= n
  {
    if n > 0 {
      AllBelow(live - {n - 1}, n - 1);
    }
  }

  lemma StepIsSafe(s: State, a: Action)
    requires Inv(s) && Guard(s, a)
    ensures Safe(s, a)
  {
    assert Within(0);
    assert Open(0);
    match a
    case MallocCur(th, reg) => assert RunInv(s, s.runcur.value); Missing(s.runs[s.runcur.value].live, s.nregs, reg);
    case MallocHeap(th, r, reg) => assert RunInv(s, r); Missing(s.runs[r].live, s.nregs, reg);
    case BackUse(th, reg) =>
      assert RunInv(s, s.runcur.value) && ThreadInv(s, th) && RunInv(s, Pc(s, th).r);
      Missing(s.runs[s.runcur.value].live, s.nregs, reg);
    case BackInstall(th, reg) => assert ThreadInv(s, th) && RunInv(s, Pc(s, th).r);
    case BackFirst(th, r, reg) => assert RunInv(s, r); Missing(s.runs[r].live, s.nregs, reg);
    case BackLower(th, r, reg) =>
      assert RunInv(s, r) && RunInv(s, s.runcur.value);
      Missing(s.runs[s.runcur.value].live, s.nregs, reg);
    case BackCur(th, reg) => assert RunInv(s, s.runcur.value); Missing(s.runs[s.runcur.value].live, s.nregs, reg);
    case GiveBack(th) => assert ThreadInv(s, th) && RunInv(s, Pc(s, th).r);
    case Dalloc(th, r, reg) =>
      assert RunInv(s, r);
      if s.runs[r].live == {reg} { assert |s.runs[r].live| == 1; }
    case _ =>
  }

  // ---------------------------------------------------------------- no thread is stuck

  /** A run that is in no thread's hands has a free region. */
  ghost predicate SomeFree(s: State)
  {
    exists r :: r in s.runs && s.runs[r].owner.None? && s.runs[r].nfree > 0
  }

  /** The current run or the heap can serve a request exactly if some run has a free region. */
  lemma ServesIff(s: State)
    requires Inv(s)
    ensures SomeFree(s) <==> CurrentServes(s) || s.heap != {}
  {
    assert Within(0);
    if r :| r in s.runs && s.runs[r].owner.None? && s.runs[r].nfree > 0 {
      assert RunInv(s, r);
    }
    if CurrentServes(s) {
      assert RunInv(s, s.runcur.value);
    } else if r :| r in s.heap {
      assert RunInv(s, r);
    }
  }

  /** An allocation gives up, or goes to look for a new run, only if no run has a free region. */
  lemma GivesUpIff(s: State, th: nat)
    requires Inv(s)
    ensures Guard(s, BackNone(th)) <==> Pc(s, th) == NoRun && !SomeFree(s)
    ensures Guard(s, MallocDrop(th)) <==> Pc(s, th) == Idle && !SomeFree(s)
  {
    ServesIff(s);
  }

  lemma {:induction false} LeastFree(live: set<nat>, from: nat, n: nat) returns (reg: nat)
    requires from <= n && (forall g :: 0 <= g < from ==> g in live) && exists g :: from <= g < n && g !in live
    ensures reg !in live && forall g :: 0 <= g < reg ==> g in live
    decreases n - from
  {
    reg := from;
    if from in live {
      reg := LeastFree(live, from + 1, n);
    }
  }

  lemma FreeRegion(s: State, r: nat) returns (reg: nat)
    requires Inv(s) && r in s.runs && s.runs[r].nfree > 0
    ensures FirstFree(s.runs[r], reg)
  {
    assert Within(0);
    assert Open(0);
    assert RunInv(s, r);
    var live := s.runs[r].live;
    if forall g :: 0 <= g < s.nregs ==> g in live {
      AllBelow(live, s.nregs);
    }
    reg := LeastFree(live, 0, s.nregs);
  }

  lemma {:induction false} LeastRun(heap: set<nat>) returns (r: nat)
    requires heap != {}
    ensures FirstOf(heap, r)
  {
    r :| r in heap;
    var rest := heap - {r};
    assert heap == rest + {r};
    if rest != {} {
      var x := LeastRun(rest);
      assert x in heap;
      r := if x < r then x else r;
    }
  }

  lemma FirstRun(s: State) returns (r: nat, reg: nat)
    requires Inv(s) && s.heap != {}
    ensures FirstOf(s.heap, r) && r in s.runs && FirstFree(s.runs[r], reg)
  {
    r := LeastRun(s.heap);
    assert r in s.runs && s.runs[r].nfree > 0 by {
      assert Within(0);
      assert RunInv(s, r);
    }
    reg := FreeRegion(s, r);
  }

  /** Every thread always has a step to take: none waits for another between critical sections. */
  lemma NeverStuck(s: State, th: nat) returns (a: Action)
    requires Inv(s)
    ensures Guard(s, a) && a.th == th && !a.Dalloc?
    ensures Pc(s, th) == Idle && SomeFree(s) ==> a.MallocCur? || a.MallocHeap?
    ensures Pc(s, th) == NoRun && SomeFree(s) ==> a.BackFirst? || a.BackLower? || a.BackCur?
  {
    ServesIff(s);
    var reg, first := 0, 0;
    if CurrentServes(s) {
      reg := FreeRegion(s, s.runcur.value);
    }
    if s.heap != {} {
      var reg0;
      first, reg0 := FirstRun(s);
      reg := if CurrentServes(s) then reg else reg0;
    }
    a := match Pc(s, th)
      case Idle =>
        if CurrentServes(s) then MallocCur(th, reg)
        else if s.heap == {} then MallocDrop(th)
        else MallocHeap(th, first, reg)
      case Wants => NewFail(th)
      case HasRun(_) => if CurrentServes(s) then BackUse(th, reg) else BackInstall(th, 0)
      case NoRun =>
        if CurrentServes(s) then if s.heap == {} then BackCur(th, reg) else BackLower(th, first, reg)
        else if s.heap == {} then BackNone(th)
        else BackFirst(th, first, reg)
      case Freeing(_) => GiveBack(th);
  }

  // ---------------------------------------------------------------- every step keeps the invariant

  lemma MallocCurKeeps(s: State, th: nat, reg: nat)
    requires Inv(s) && Guard(s, MallocCur(th, reg)) && Safe(s, MallocCur(th, reg))
    ensures Inv(Do(s, MallocCur(th, reg)))
  {
    assert Within(0);
    var s', r := Do(s, MallocCur(th, reg)), s.runcur.value;
    assert RunInv(s, r);
    CountedTake(s.nregs, s.runs[r], reg, None);
    forall x | x in s'.runs ensures RunInv(s', x) { if x in s.runs { assert RunInv(s, x); } }
    forall x ensures ThreadInv(s', x) { assert ThreadInv(s, x); }
  }

  lemma MallocHeapKeeps(s: State, th: nat, r: nat, reg: nat)
    requires Inv(s) && Guard(s, MallocHeap(th, r, reg)) && Safe(s, MallocHeap(th, r, reg))
    ensures Inv(Do(s, MallocHeap(th, r, reg)))
  {
    assert Within(0);
    assert RunInv(s, r);
    CountedTake(s.nregs, s.runs[r], reg, None);
    var s' := Do(s, MallocHeap(th, r, reg));
    forall x | x in s'.runs ensures RunInv(s', x) { if x in s.runs { assert RunInv(s, x); } }
    forall x ensures ThreadInv(s', x) { assert ThreadInv(s, x); }
  }

  lemma MallocDropKeeps(s: State, th: nat)
    requires Inv(s) && Guard(s, MallocDrop(th)) && Safe(s, MallocDrop(th))
    ensures Inv(Do(s, MallocDrop(th)))
  {
    assert Within(0);
    var s' := Do(s, MallocDrop(th));
    forall x | x in s'.runs ensures RunInv(s', x) { if x in s.runs { assert RunInv(s, x); } }
    forall x ensures ThreadInv(s', x) { assert ThreadInv(s, x); }
  }

  lemma NewRunKeeps(s: State, th: nat, r: nat)
    requires Inv(s) && Guard(s, NewRun(th, r)) && Safe(s, NewRun(th, r))
    ensures Inv(Do(s, NewRun(th, r)))
  {
    assert Within(0);
    CountedNew(s.nregs, Some(th));
    var s' := Do(s, NewRun(th, r));
    forall x | x in s'.runs ensures RunInv(s', x) { if x in s.runs { assert RunInv(s, x); } }
    forall x ensures ThreadInv(s', x) { assert ThreadInv(s, x); }
  }

  lemma NewFailKeeps(s: State, th: nat)
    requires Inv(s) && Guard(s, NewFail(th)) && Safe(s, NewFail(th))
    ensures Inv(Do(s, NewFail(th)))
  {
    assert Within(0);
    var s' := Do(s, NewFail(th));
    forall x | x in s'.runs ensures RunInv(s', x) { if x in s.runs { assert RunInv(s, x); } }
    forall x ensures ThreadInv(s', x) { assert ThreadInv(s, x); }
  }

  lemma BackUseKeeps(s: State, th: nat, reg: nat)
    requires Inv(s) && Guard(s, BackUse(th, reg)) && Safe(s, BackUse(th, reg))
    ensures Inv(Do(s, BackUse(th, reg)))
  {
    assert Within(0);
    assert RunInv(s, s.runcur.value) && ThreadInv(s, th);
    CountedTake(s.nregs, s.runs[s.runcur.value], reg, None);
    var s' := Do(s, BackUse(th, reg));
    forall x | x in s'.runs ensures RunInv(s', x) { if x in s.runs { assert RunInv(s, x); } }
    forall x ensures ThreadInv(s', x) { assert ThreadInv(s, x); }
  }

  lemma BackInstallKeeps(s: State, th: nat, reg: nat)
    requires Inv(s) && Guard(s, BackInstall(th, reg)) && Safe(s, BackInstall(th, reg))
    ensures Inv(Do(s, BackInstall(th, reg)))
  {
    assert Within(0);
    assert ThreadInv(s, th) && RunInv(s, Pc(s, th).r);
    CountedTake(s.nregs, s.runs[Pc(s, th).r], reg, None);
    var s' := Do(s, BackInstall(th, reg));
    forall x | x in s'.runs ensures RunInv(s', x) { if x in s.runs { assert RunInv(s, x); } }
    forall x ensures ThreadInv(s', x) { assert ThreadInv(s, x); }
  }

  lemma BackFirstKeeps(s: State, th: nat, r: nat, reg: nat)
    requires Inv(s) && Guard(s, BackFirst(th, r, reg)) && Safe(s, BackFirst(th, r, reg))
    ensures Inv(Do(s, BackFirst(th, r, reg)))
  {
    assert Within(0);
    assert RunInv(s, r);
    CountedTake(s.nregs, s.runs[r], reg, None);
    var s' := Do(s, BackFirst(th, r, reg));
    forall x | x in s'.runs ensures RunInv(s', x) { if x in s.runs { assert RunInv(s, x); } }
    forall x ensures ThreadInv(s', x) { assert ThreadInv(s, x); }
  }

  lemma BackLowerKeeps(s: State, th: nat, r: nat, reg: nat)
    requires Inv(s) && Guard(s, BackLower(th, r, reg)) && Safe(s, BackLower(th, r, reg))
    ensures Inv(Do(s, BackLower(th, r, reg)))
  {
    assert Within(0);
    assert RunInv(s, r) && RunInv(s, s.runcur.value);
    CountedTake(s.nregs, s.runs[s.runcur.value], reg, None);
    var s' := Do(s, BackLower(th, r, reg));
    forall x | x in s'.runs ensures RunInv(s', x) { if x in s.runs { assert RunInv(s, x); } }
    forall x ensures ThreadInv(s', x) { assert ThreadInv(s, x); }
  }

  lemma BackCurKeeps(s: State, th: nat, reg: nat)
    requires Inv(s) && Guard(s, BackCur(th, reg)) && Safe(s, BackCur(th, reg))
    ensures Inv(Do(s, BackCur(th, reg)))
  {
    assert Within(0);
    assert RunInv(s, s.runcur.value);
    CountedTake(s.nregs, s.runs[s.runcur.value], reg, None);
    var s' := Do(s, BackCur(th, reg));
    forall x | x in s'.runs ensures RunInv(s', x) { if x in s.runs { assert RunInv(s, x); } }
    forall x ensures ThreadInv(s', x) { assert ThreadInv(s, x); }
  }

  lemma BackNoneKeeps(s: State, th: nat)
    requires Inv(s) && Guard(s, BackNone(th)) && Safe(s, BackNone(th))
    ensures Inv(Do(s, BackNone(th)))
  {
    assert Within(0);
    var s' := Do(s, BackNone(th));
    forall x | x in s'.runs ensures RunInv(s', x) { if x in s.runs { assert RunInv(s, x); } }
    forall x ensures ThreadInv(s', x) { assert ThreadInv(s, x); }
  }

  lemma GiveBackKeeps(s: State, th: nat)
    requires Inv(s) && Guard(s, GiveBack(th)) && Safe(s, GiveBack(th))
    ensures Inv(Do(s, GiveBack(th)))
  {
    assert Within(0);
    assert ThreadInv(s, th) && RunInv(s, Pc(s, th).r);
    var s' := Do(s, GiveBack(th));
    forall x | x in s'.runs ensures RunInv(s', x) { if x in s.runs { assert RunInv(s, x); } }
    forall x ensures ThreadInv(s', x) { assert ThreadInv(s, x); }
  }

  // Freeing a region: the run may become empty, or gain its first free region.

  /** Run `r`, now empty, leaves the bin and is in the hands of `th`. */
  ghost predicate Emptied(s: State, s': State, th: nat, r: nat)
  {
    && s'.nregs == s.nregs && s'.pcs == s.pcs[th := Freeing(r)] && s'.runs == s.runs[r := Run({}, s.nregs, Some(th))]
    && s'.heap == s.heap - {r} && s'.runcur == if s.runcur == Some(r) then None else s.runcur
  }

  lemma EmptiedRun(s: State, s': State, th: nat, r: nat, x: nat)
    requires Emptied(s, s', th, r) && x in s.runs && RunInv(s, x) && Pc(s, th) == Idle
    ensures RunInv(s', x)
  {
    if x == r {
      CountedNew(s.nregs, Some(th));
    }
  }

  lemma EmptiedThread(s: State, s': State, th: nat, r: nat, x: nat)
    requires Emptied(s, s', th, r) && ThreadInv(s, x) && r in s.runs && s.runs[r].owner.None?
    ensures ThreadInv(s', x)
  {
  }

  lemma EmptiedKeeps(s: State, s': State, th: nat, r: nat)
    requires AllInv(s) && Emptied(s, s', th, r) && Pc(s, th) == Idle && r in s.runs && s.runs[r].live != {}
    ensures AllInv(s')
  {
    assert RunInv(s, r);
    forall x | x in s'.runs ensures RunInv(s', x) { EmptiedRun(s, s', th, r, x); }
    forall x ensures ThreadInv(s', x) { EmptiedThread(s, s', th, r, x); }
  }

  lemma DallocLastKeeps(s: State, th: nat, r: nat, reg: nat)
    requires Inv(s) && Guard(s, Dalloc(th, r, reg)) && Safe(s, Dalloc(th, r, reg))
    requires s.runs[r].nfree + 1 == s.nregs
    ensures Inv(Do(s, Dalloc(th, r, reg)))
  {
    assert Within(0);
    assert RunInv(s, r);
    CountedDrop(s.nregs, s.runs[r], reg);
    assert s.runs[r].live - {reg} == {};
    EmptiedKeeps(s, Do(s, Dalloc(th, r, reg)), th, r);
  }

  lemma DallocFirstKeeps(s: State, th: nat, r: nat, reg: nat)
    requires Inv(s) && Guard(s, Dalloc(th, r, reg)) && Safe(s, Dalloc(th, r, reg))
    requires s.runs[r].nfree + 1 < s.nregs && s.runs[r].nfree == 0 && s.runcur != Some(r)
    ensures Inv(Do(s, Dalloc(th, r, reg)))
  {
    assert Within(0);
    var s' := Do(s, Dalloc(th, r, reg));
    assert RunInv(s, r);
    CountedDrop(s.nregs, s.runs[r], reg);
    forall x | x in s'.runs ensures RunInv(s', x) { if x in s.runs { assert RunInv(s, x); } }
    forall x ensures ThreadInv(s', x) { assert ThreadInv(s, x); }
  }

  lemma DallocOtherKeeps(s: State, th: nat, r: nat, reg: nat)
    requires Inv(s) && Guard(s, Dalloc(th, r, reg)) && Safe(s, Dalloc(th, r, reg))
    requires s.runs[r].nfree + 1 < s.nregs && (s.runs[r].nfree != 0 || s.runcur == Some(r))
    ensures Inv(Do(s, Dalloc(th, r, reg)))
  {
    assert Within(0);
    var s' := Do(s, Dalloc(th, r, reg));
    assert RunInv(s, r);
    CountedDrop(s.nregs, s.runs[r], reg);
    forall x | x in s'.runs ensures RunInv(s', x) { if x in s.runs { assert RunInv(s, x); } }
    forall x ensures ThreadInv(s', x) { assert ThreadInv(s, x); }
  }

  lemma DallocKeeps(s: State, th: nat, r: nat, reg: nat)
    requires Inv(s) && Guard(s, Dalloc(th, r, reg)) && Safe(s, Dalloc(th, r, reg))
    ensures Inv(Do(s, Dalloc(th, r, reg)))
  {
    assert Within(0);
    assert RunInv(s, r);
    if s.runs[r].nfree + 1 == s.nregs {
      DallocLastKeeps(s, th, r, reg);
    } else if s.runs[r].nfree == 0 && s.runcur != Some(r) {
      DallocFirstKeeps(s, th, r, reg);
    } else {
      DallocOtherKeeps(s, th, r, reg);
    }
  }

  lemma StepKeeps(s: State, a: Action)
    requires Inv(s) && Guard(s, a)
    ensures Safe(s, a) && Inv(Do(s, a))
  {
    StepIsSafe(s, a);
    match a
    case MallocCur(th, reg) => MallocCurKeeps(s, th, reg);
    case MallocHeap(th, r, reg) => MallocHeapKeeps(s, th, r, reg);
    case MallocDrop(th) => MallocDropKeeps(s, th);
    case NewRun(th, r) => NewRunKeeps(s, th, r);
    case NewFail(th) => NewFailKeeps(s, th);
    case BackUse(th, reg) => BackUseKeeps(s, th, reg);
    case BackInstall(th, reg) => BackInstallKeeps(s, th, reg);
    case BackFirst(th, r, reg) => BackFirstKeeps(s, th, r, reg);
    case BackLower(th, r, reg) => BackLowerKeeps(s, th, r, reg);
    case BackCur(th, reg) => BackCurKeeps(s, th, reg);
    case BackNone(th) => BackNoneKeeps(s, th);
    case GiveBack(th) => GiveBackKeeps(s, th);
    case Dalloc(th, r, reg) => DallocKeeps(s, th, r, reg);
  }

  // ---------------------------------------------------------------- whole runs of the program

  function Initial(nregs: nat): State
  {
    State(nregs, map[], None, {}, map[])
  }

  /** A step of a run; an unsafe one could lead anywhere. */
  ghost predicate IsStep(s: State, a: Action, s': State)
  {
    Guard(s, a) && (Safe(s, a) ==> s' == Do(s, a))
  }

  /** Any interleaving of steps. */
  ghost predicate IsRun(nregs: nat, states: seq<State>, acts: seq<Action>)
  {
    && |states| == |acts| + 1 && states[0] == Initial(nregs)
    && forall i {:trigger acts[i]} :: 0 <= i < |acts| ==> IsStep(states[i], acts[i], states[i + 1])
  }

  lemma {:induction false} RunsAreSafe(nregs: nat, states: seq<State>, acts: seq<Action>, i: nat)
    requires nregs >= 1 && IsRun(nregs, states, acts) && i < |states|
    ensures Inv(states[i])
    ensures i < |acts| ==> Safe(states[i], acts[i])
    decreases i
  {
    if i > 0 {
      RunsAreSafe(nregs, states, acts, i - 1);
      assert Guard(states[i - 1], acts[i - 1]);
      StepKeeps(states[i - 1], acts[i - 1]);
    } else {
      assert forall th :: Pc(states[0], th) == Idle;
    }
    if i < |acts| {
      assert Guard(states[i], acts[i]);
      StepIsSafe(states[i], acts[i]);
    }
  }

  // ---------------------------------------------------------------- what the steps hand out and take back

  /** The regions that are in use. */
  ghost function Live(s: State): iset<(nat, nat)>
  {
    iset r, g | r in s.runs && g in s.runs[r].live :: (r, g)
  }

  /** The region that an action hands out, if any. */
  ghost function HandedOut(s: State, a: Action): Option<(nat, nat)>
  {
    match a
    case MallocCur(_, reg) => if s.runcur.Some? then Some((s.runcur.value, reg)) else None
    case MallocHeap(_, r, reg) => Some((r, reg))
    case BackUse(_, reg) => if s.runcur.Some? then Some((s.runcur.value, reg)) else None
    case BackInstall(th, reg) => if Pc(s, th).HasRun? then Some((Pc(s, th).r, reg)) else None
    case BackFirst(_, r, reg) => Some((r, reg))
    case BackLower(_, r, reg) => if s.runcur.Some? then Some((s.runcur.value, reg)) else None
    case BackCur(_, reg) => if s.runcur.Some? then Some((s.runcur.value, reg)) else None
    case _ => None
  }

  /** An allocation hands out a region that nobody has; a free takes back exactly its region; nothing else changes
      which regions are in use. */
  lemma RegionsConserved(s: State, a: Action)
    requires Inv(s) && Guard(s, a) && Safe(s, a)
    ensures HandedOut(s, a).Some? ==> HandedOut(s, a).value !in Live(s)
    ensures Live(Do(s, a)) == if a.Dalloc? then Live(s) - iset{(a.r, a.reg)}
                              else if HandedOut(s, a).Some? then Live(s) + iset{HandedOut(s, a).value}
                              else Live(s)
  {
    assert Within(0);
    if a.GiveBack? {
      assert ThreadInv(s, a.th);
    }
  }

  /** When no thread is in between, every run of the bin has a region in use, and one with a free region as well
      can be found: it is the current run or in the heap. */
  lemma NothingStranded(s: State, r: nat)
    requires Inv(s) && r in s.runs && forall th :: Pc(s, th) == Idle
    ensures s.runs[r].live != {}
    ensures s.runs[r].nfree > 0 <==> r in s.heap || (s.runcur == Some(r) && CurrentServes(s))
  {
    assert Within(0);
    assert RunInv(s, r);
  }

  // ---------------------------------------------------------------- the current run is the preferred one

  /** No run in the heap would be preferred to the current run. */
  ghost predicate CurrentFirst(s: State)
  {
    s.runcur.Some? ==> forall x :: x in s.heap ==> s.runcur.value <= x
  }

  /** Every step keeps this, except that a thread may install the run it allocated while it did not hold the lock:
      that keeps it exactly if no run that was put into the heap in the meantime is preferred. */
  lemma CurrentFirstIff(s: State, a: Action)
    requires Inv(s) && CurrentFirst(s) && Guard(s, a) && Safe(s, a)
    ensures CurrentFirst(Do(s, a)) <==> (a.BackInstall? ==> forall x :: x in s.heap ==> Pc(s, a.th).r <= x)
  {
    assert Within(0);
    if a.BackInstall? {
      assert ThreadInv(s, a.th);
    }
  }

  /** A thread that takes the first run of the heap leaves the preferred run current, whatever it was before. */
  lemma HeapRestoresFirst(s: State, a: Action)
    requires Inv(s) && Guard(s, a) && Safe(s, a) && (a.MallocHeap? || a.BackFirst? || a.BackLower?)
    ensures Do(s, a).runcur.Some? && CurrentFirst(Do(s, a))
  {
    assert Within(0);
  }

  /** Only a free, and a thread that swaps the current run for a preferred one, put a run into the heap. */
  lemma EntersHeap(s: State, a: Action, x: nat)
    requires Guard(s, a) && Safe(s, a) && x !in s.heap && x in Do(s, a).heap
    ensures a.Dalloc? || a.BackLower?
  {
  }

  /** A thread goes for a new run only when the heap is empty.  So a run in the heap that is preferred to the one it
      comes back with was put there meanwhile, and is there since. */
  lemma {:induction false} CameMeanwhile(nregs: nat, states: seq<State>, acts: seq<Action>, i: nat, j: nat, x: nat)
    returns (k: nat)
    requires nregs >= 1 && IsRun(nregs, states, acts) && i < j < |states| && acts[i].MallocDrop? && x in states[j].heap
    ensures i < k < j && Enters(states, acts, k, x) && Stays(states, k + 1, j, x)
    decreases j
  {
    RunsAreSafe(nregs, states, acts, j - 1);
    assert IsStep(states[j - 1], acts[j - 1], states[j]) && IsStep(states[i], acts[i], states[i + 1]);
    if x in states[j - 1].heap {
      k := CameMeanwhile(nregs, states, acts, i, j - 1, x);
    } else {
      EntersHeap(states[j - 1], acts[j - 1], x);
      k := j - 1;
    }
  }

  /** Step `k` puts run `x` into the heap. */
  ghost predicate Enters(states: seq<State>, acts: seq<Action>, k: nat, x: nat)
    requires k < |acts| == |states| - 1
  {
    x !in states[k].heap && x in states[k + 1].heap && (acts[k].Dalloc? || acts[k].BackLower?)
  }

  ghost predicate Stays(states: seq<State>, i: nat, j: nat, x: nat)
    requires i <= j < |states|
  {
    forall m :: i <= m <= j ==> x in states[m].heap
  }

  /** The thread has not had the lock since it dropped it in step `i`, except to hear whether there is a new run. */
  ghost predicate AwaySince(states: seq<State>, acts: seq<Action>, i: nat, j: nat, th: nat)
    requires i < j < |states| == |acts| + 1
  {
    acts[i] == MallocDrop(th) && forall m :: i < m <= j ==> Pc(states[m], th).Wants? || Pc(states[m], th).HasRun?
  }

  /** A thread that has a run dropped the lock for it. */
  lemma {:induction false} DroppedBefore(nregs: nat, states: seq<State>, acts: seq<Action>, j: nat, th: nat)
    returns (i: nat)
    requires nregs >= 1 && IsRun(nregs, states, acts) && j < |states|
    requires Pc(states[j], th).Wants? || Pc(states[j], th).HasRun?
    ensures i < j && AwaySince(states, acts, i, j, th)
    decreases j
  {
    RunsAreSafe(nregs, states, acts, j - 1);
    assert IsStep(states[j - 1], acts[j - 1], states[j]);
    if Pc(states[j - 1], th).Wants? || Pc(states[j - 1], th).HasRun? {
      i := DroppedBefore(nregs, states, acts, j - 1, th);
    } else {
      WentAway(states[j - 1], acts[j - 1], th);
      i := j - 1;
    }
  }

  lemma WentAway(s: State, a: Action, th: nat)
    requires Guard(s, a) && Safe(s, a) && !(Pc(s, th).Wants? || Pc(s, th).HasRun?)
    requires Pc(Do(s, a), th).Wants? || Pc(Do(s, a), th).HasRun?
    ensures a == MallocDrop(th)
  {
  }

  /** In step `j` a thread installs the run it fetched, and run `x`, which is preferred, came into the heap by step `k`
      while the thread had dropped the lock. */
  ghost predicate OvertakenBy(states: seq<State>, acts: seq<Action>, i: nat, k: nat, j: nat, x: nat)
    requires i < k < j < |acts| == |states| - 1
  {
    && acts[j].BackInstall? && AwaySince(states, acts, i, j, acts[j].th)
    && Enters(states, acts, k, x) && Stays(states, k + 1, j, x)
    && Pc(states[j], acts[j].th).HasRun? && x < Pc(states[j], acts[j].th).r
  }

  ghost predicate Overtaken(states: seq<State>, acts: seq<Action>, j: nat)
    requires j < |acts| == |states| - 1
  {
    exists i: nat, k: nat, x: nat :: i < k < j && OvertakenBy(states, acts, i, k, j, x)
  }

  /** One step of a run keeps the current run preferred if and only if it is not such a step. */
  lemma StepKeepsFirstIff(nregs: nat, states: seq<State>, acts: seq<Action>, j: nat)
    requires nregs >= 1 && IsRun(nregs, states, acts) && j < |acts| && CurrentFirst(states[j])
    ensures CurrentFirst(states[j + 1]) <==> !Overtaken(states, acts, j)
  {
    RunsAreSafe(nregs, states, acts, j);
    assert IsStep(states[j], acts[j], states[j + 1]);
    CurrentFirstIff(states[j], acts[j]);
    if !CurrentFirst(states[j + 1]) {
      var x :| x in states[j].heap && x < Pc(states[j], acts[j].th).r;
      var i := DroppedBefore(nregs, states, acts, j, acts[j].th);
      var k := CameMeanwhile(nregs, states, acts, i, j, x);
      assert OvertakenBy(states, acts, i, k, j, x);
    }
  }

  /** So the current run is preferred in all of a run's states if and only if no thread that comes back with a run was
      overtaken: while it had dropped the lock, no preferred run came into the heap that is still there. */
  lemma {:induction false} AlwaysFirstIff(nregs: nat, states: seq<State>, acts: seq<Action>, n: nat)
    requires nregs >= 1 && IsRun(nregs, states, acts) && n <= |acts|
    ensures (forall j :: 0 <= j <= n ==> CurrentFirst(states[j])) <==>
            (forall j {:trigger Overtaken(states, acts, j)} :: 0 <= j < n ==> !Overtaken(states, acts, j))
    decreases n
  {
    if n > 0 {
      AlwaysFirstIff(nregs, states, acts, n - 1);
      if CurrentFirst(states[n - 1]) {
        StepKeepsFirstIff(nregs, states, acts, n - 1);
      }
    }
  }

  // An interleaving: thread 0 fills run 1, thread 1 goes for a new run, thread 0 frees a region of run 1,
  // and thread 1 comes back with run 5.

  const E0 := Initial(2)
  const E1 := State(2, map[], None, {}, map[0 := Wants])
  const E2 := State(2, map[1 := Run({}, 2, Some(0))], None, {}, map[0 := HasRun(1)])
  const E3 := State(2, map[1 := Run({0}, 1, None)], Some(1), {}, map[0 := Idle])
  const E4 := State(2, map[1 := Run({0, 1}, 0, None)], Some(1), {}, map[0 := Idle])
  const E5 := State(2, map[1 := Run({0, 1}, 0, None)], None, {}, map[0 := Idle, 1 := Wants])
  const E6 := State(2, map[1 := Run({0, 1}, 0, None), 5 := Run({}, 2, Some(1))], None, {},
                    map[0 := Idle, 1 := HasRun(5)])
  const E7 := State(2, map[1 := Run({1}, 1, None), 5 := Run({}, 2, Some(1))], None, {1}, map[0 := Idle, 1 := HasRun(5)])
  const E8 := State(2, map[1 := Run({1}, 1, None), 5 := Run({0}, 1, None)], Some(5), {1}, map[0 := Idle, 1 := Idle])

  lemma Example0()
    ensures IsStep(E0, MallocDrop(0), E1)
  {
    var s, s' := E0, E1;
    assert s'.pcs == s.pcs[0 := Wants];
  }

  lemma Example1()
    ensures IsStep(E1, NewRun(0, 1), E2)
  {
    var s, s' := E1, E2;
    assert s'.runs == s.runs[1 := Run({}, 2, Some(0))] && s'.pcs == s.pcs[0 := HasRun(1)];
  }

  lemma Example2()
    ensures IsStep(E2, BackInstall(0, 0), E3)
  {
    var s, s' := E2, E3;
    assert s'.runs == s.runs[1 := Run({0}, 1, None)] && s'.pcs == s.pcs[0 := Idle] && {} + {0} == {0};
  }

  lemma Example3()
    ensures IsStep(E3, MallocCur(0, 1), E4)
  {
    var s, s' := E3, E4;
    assert s'.runs == s.runs[1 := Run({0, 1}, 0, None)] && {0} + {1} == {0, 1};
  }

  lemma Example4()
    ensures IsStep(E4, MallocDrop(1), E5)
  {
    var s, s' := E4, E5;
    assert s'.pcs == s.pcs[1 := Wants];
  }

  lemma Example5()
    ensures IsStep(E5, NewRun(1, 5), E6)
  {
    var s, s' := E5, E6;
    assert s'.runs == s.runs[5 := Run({}, 2, Some(1))] && s'.pcs == s.pcs[1 := HasRun(5)];
  }

  lemma Example6()
    ensures IsStep(E6, Dalloc(0, 1, 0), E7)
  {
    var s, s' := E6, E7;
    assert s'.runs == s.runs[1 := Run({1}, 1, None)] && {0, 1} - {0} == {1} && {} + {1} == {1};
  }

  lemma Example7()
    ensures IsStep(E7, BackInstall(1, 0), E8)
  {
    var s, s' := E7, E8;
    assert s'.runs == s.runs[5 := Run({0}, 1, None)] && s'.pcs == s.pcs[1 := Idle] && {} + {0} == {0};
  }

  lemma Extend(states: seq<State>, acts: seq<Action>, a: Action, s': State)
    returns (states': seq<State>, acts': seq<Action>)
    requires IsRun(2, states, acts) && IsStep(states[|acts|], a, s')
    ensures IsRun(2, states', acts') && states'[|acts'|] == s'
  {
    states', acts' := states + [s'], acts + [a];
    forall i | 0 <= i < |acts'|
      ensures IsStep(states'[i], acts'[i], states'[i + 1])
    {
      if i < |acts| {
        assert acts'[i] == acts[i];
      }
    }
  }

  lemma ExampleTo4() returns (states: seq<State>, acts: seq<Action>)
    ensures IsRun(2, states, acts) && states[|acts|] == E4
  {
    Example0();
    states, acts := Extend([E0], [], MallocDrop(0), E1);
    Example1();
    states, acts := Extend(states, acts, NewRun(0, 1), E2);
    Example2();
    states, acts := Extend(states, acts, BackInstall(0, 0), E3);
    Example3();
    states, acts := Extend(states, acts, MallocCur(0, 1), E4);
  }

  /** It ends with a run in the heap that is preferred to the current one. */
  lemma CurrentNotFirst() returns (states: seq<State>, acts: seq<Action>)
    ensures IsRun(2, states, acts) && !CurrentFirst(states[|states| - 1])
  {
    states, acts := ExampleTo4();
    Example4();
    states, acts := Extend(states, acts, MallocDrop(1), E5);
    Example5();
    states, acts := Extend(states, acts, NewRun(1, 5), E6);
    Example6();
    states, acts := Extend(states, acts, Dalloc(0, 1, 0), E7);
    Example7();
    states, acts := Extend(states, acts, BackInstall(1, 0), E8);
    assert 1 in E8.heap;
  }
}
