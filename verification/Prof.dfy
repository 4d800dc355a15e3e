/** The heap-profile context protocol of prof.c.

    Threads look up and destroy per-thread contexts (tctx) that hang off shared contexts (gctx); one dump at a time
    walks them.  Each action below is one critical section, so a run of the program is a sequence of actions in any
    interleaving.  Freed objects leave their map, so a reference to a freed object is a reference outside the map.

    The fields marked auxiliary only record who is doing what; no action's guard or effect on the other fields
    depends on them.

    When ckh_insert fails, the table has lost one item.  `Ckh.Table.Insert` says which: the new item, or one of the
    old ones, and then the new one is in the table; it is always an old one if the first attempt to grow fails.  The
    actions GlobalInsertFail and InsertFail carry the old item that was lost, if it was an old one.  The callers
    free the new object either way.

    The counters model one of the four that are summed alike.  Accumulation (opt_prof_accum) is off: it is the mode
    in which contexts are destroyed. */
module Prof {
  import opened Basics
  import Ckh

  datatype Gctx = Gctx(
    bt: int,
    nlimbo: int,
    tree: set<nat>,        // tctxs
    summed: int,           // cnt_summed
    holders: set<nat>,     // auxiliary: threads that rely on nlimbo
    dumpHolds: bool,       // auxiliary: the dump relies on nlimbo
    leaked: nat)           // auxiliary: lookups that failed without giving nlimbo back

  datatype TState = Initializing | Nominal | Dumping | Purgatory

  datatype Tctx = Tctx(
    gctx: nat,
    tdata: nat,
    state: TState,
    cnts: nat,
    dumpCnts: nat,
    prepared: bool,
    inTable: bool,         // linked in its thread's bt2tctx
    owner: Option<nat>)    // auxiliary: the thread that alone may still touch it

  /** Where a thread is between critical sections. */
  datatype PC =
    | Idle
    | Missed(bt: int)                          // prof_lookup: not in this thread's table
    | GotGctx(g: nat, isNew: bool)             // prof_lookup_global returned
    | GotTctx(g: nat, t: nat, isNew: bool)     // tctx allocated, not yet in bt2tctx
    | Inserted(g: nat, t: nat)                 // in bt2tctx, not yet in the gctx's tree
    | Prepared(t: nat)                         // prof_lookup returned t
    | Destroying(t: nat)                       // prof_tctx_destroy dropped the tdata lock
    | TryDestroy(g: nat, k: Option<nat>)       // about to enter prof_gctx_try_destroy, then free k
    | FreeTctx(t: nat)

  /** Where the dump is.  bt2gctx_mtx is held from Prep to MergeG. */
  datatype Dump =
    | NoDump
    | Prep(todo: set<nat>)
    | MergeT(cur: Option<nat>, visit: set<nat>, done: set<nat>, total: int)
    | MergeG(todo: set<nat>, total: int)
    | Finish(todo: set<nat>)
    | FinishTry(g: nat, todo: set<nat>)

  datatype State = State(
    gctxs: map<nat, Gctx>,
    tctxs: map<nat, Tctx>,
    table: map<int, nat>,    // bt2gctx
    pcs: map<nat, PC>,
    dump: Dump,
    stale: set<(nat, nat)>)  // entries of the threads' bt2tctx tables, (thread, tctx), whose tctx is freed

  // ---------------------------------------------------------------- reading the state

  function Pc(s: State, th: nat): PC
  {
    if th in s.pcs then s.pcs[th] else Idle
  }

  /** The gctx whose nlimbo a thread relies on. */
  function HoldG(pc: PC): Option<nat>
  {
    match pc
    case GotGctx(g, _) => Some(g)
    case GotTctx(g, _, _) => Some(g)
    case Inserted(g, _) => Some(g)
    case TryDestroy(g, _) => Some(g)
    case _ => None
  }

  /** The tctx only this thread may still touch. */
  function OwnT(pc: PC): Option<nat>
  {
    match pc
    case GotTctx(_, t, _) => Some(t)
    case Inserted(_, t) => Some(t)
    case Destroying(t) => Some(t)
    case TryDestroy(_, k) => k
    case FreeTctx(t) => Some(t)
    case _ => None
  }

  predicate BtMtxFree(s: State)
  {
    !(s.dump.Prep? || s.dump.MergeT? || s.dump.MergeG?)
  }

  predicate TdataFree(s: State, d: nat)
  {
    !(s.dump.MergeT? && s.dump.cur == Some(d))
  }

  /** The contexts in a thread's bt2tctx. */
  ghost function TableOf(s: State, d: nat): set<nat>
  {
    set t | t in s.tctxs && s.tctxs[t].inTable && s.tctxs[t].tdata == d
  }

  /** Linked in the tree of its (allocated) gctx. */
  ghost predicate InTree(s: State, t: nat)
  {
    t in s.tctxs && s.tctxs[t].gctx in s.gctxs && t in s.gctxs[s.tctxs[t].gctx].tree
  }

  /** Which gctxs the dump has put in limbo and not yet released. */
  predicate DumpHolds(d: Dump, g: nat)
  {
    match d
    case NoDump => false
    case Prep(todo) => g !in todo
    case MergeT(_, _, _, _) => true
    case MergeG(_, _) => true
    case Finish(todo) => g in todo
    case FinishTry(g', todo) => g == g' || g in todo
  }

  // ---------------------------------------------------------------- the invariant, one object at a time

  ghost predicate GInv(s: State, g: nat)
    requires g in s.gctxs
  {
    var x := s.gctxs[g];
    && x.bt in s.table && s.table[x.bt] == g
    && x.nlimbo == |x.holders| + (if x.dumpHolds then 1 else 0) + x.leaked
    && (forall th :: th in x.holders ==> HoldG(Pc(s, th)) == Some(g))
    && (forall t :: t in x.tree ==>
          && t in s.tctxs && s.tctxs[t].gctx == g && s.tctxs[t].state != Initializing
          && (s.tctxs[t].owner.Some? ==> Pc(s, s.tctxs[t].owner.value) == Destroying(t)))
    && x.dumpHolds == DumpHolds(s.dump, g)
    && (x.tree == {} ==> x.nlimbo >= 1)
  }

  ghost predicate TInv(s: State, t: nat)
    requires t in s.tctxs
  {
    var x := s.tctxs[t];
    && (x.owner.Some? ==> OwnT(Pc(s, x.owner.value)) == Some(t))
    && (x.owner.None? ==> InTree(s, t) && (x.inTable <==> x.state != Purgatory))
    && (x.inTable && x.owner.Some? ==> Pc(s, x.owner.value) == Inserted(x.gctx, t))
    && (x.state == Initializing ==> x.owner.Some? && !InTree(s, t))
    && (x.state == Purgatory ==> x.owner.None?)
    && (x.cnts > 0 ==> x.owner.None? && x.inTable)
    && (x.owner.None? && x.inTable ==> x.cnts > 0 || x.prepared)
    && (x.owner.None? && x.prepared ==> Pc(s, x.tdata) == Prepared(t))
    && (x.state == Dumping || x.state == Purgatory ==> InTree(s, t) && Captured(s.dump, x.tdata, x.gctx, t))
  }

  /** A tctx may be in a dump state only after the dump visited it and before the dump finished its gctx. */
  predicate Captured(d: Dump, tdata: nat, g: nat, t: nat)
  {
    match d
    case NoDump => false
    case Prep(_) => false
    case MergeT(cur, visit, done, _) => tdata in done || (cur == Some(tdata) && t !in visit)
    case MergeG(_, _) => true
    case Finish(todo) => g in todo
    case FinishTry(_, todo) => g in todo
  }

  /** What a thread refers to is allocated and recorded as its own. */
  ghost predicate Refers(s: State, th: nat)
  {
    var pc := Pc(s, th);
    && (HoldG(pc).Some? ==> HoldG(pc).value in s.gctxs && th in s.gctxs[HoldG(pc).value].holders)
    && (OwnT(pc).Some? ==> OwnT(pc).value in s.tctxs && s.tctxs[OwnT(pc).value].owner == Some(th))
  }

  /** The stage of its work a thread's context is in. */
  ghost predicate Stage(s: State, th: nat)
    requires Refers(s, th)
  {
    match Pc(s, th)
    case GotTctx(g, t, _) =>
      var x := s.tctxs[t]; x.gctx == g && x.tdata == th && x.state == Initializing && x.prepared && !x.inTable
    case Inserted(g, t) =>
      var x := s.tctxs[t]; x.gctx == g && x.tdata == th && x.state == Initializing && x.prepared && x.inTable
    case Prepared(t) =>
      t in s.tctxs && s.tctxs[t].prepared && s.tctxs[t].owner == None && s.tctxs[t].inTable && s.tctxs[t].tdata == th
    case Destroying(t) =>
      var x := s.tctxs[t];
      InTree(s, t) && (x.state == Nominal || x.state == Dumping) && !x.inTable && x.cnts == 0 && !x.prepared
    case TryDestroy(_, Some(t)) => !InTree(s, t)
    case FreeTctx(t) => !InTree(s, t)
    case _ => true
  }

  ghost predicate PInv(s: State, th: nat)
  {
    Refers(s, th) && Stage(s, th)
  }

  ghost predicate TableInv(s: State)
  {
    forall bt :: bt in s.table ==> s.table[bt] in s.gctxs && s.gctxs[s.table[bt]].bt == bt
  }

  ghost predicate DumpInv(s: State)
  {
    match s.dump
    case Prep(todo) => todo <= s.gctxs.Keys
    case MergeT(cur, visit, done, _) =>
      && (forall t :: t in visit ==>
            && t in s.tctxs && s.tctxs[t].inTable && cur == Some(s.tctxs[t].tdata)
            && (s.tctxs[t].state == Initializing || s.tctxs[t].state == Nominal))
      && (cur.Some? ==> cur.value !in done)
    case MergeG(todo, _) => todo <= s.gctxs.Keys
    case Finish(todo) => todo <= s.gctxs.Keys
    case FinishTry(g, todo) => g in s.gctxs && todo <= s.gctxs.Keys && g !in todo
    case NoDump => true
  }

  ghost predicate AllInv(s: State)
  {
    && (forall g {:trigger GInv(s, g)} :: g in s.gctxs ==> GInv(s, g))
    && (forall t {:trigger TInv(s, t)} :: t in s.tctxs ==> TInv(s, t))
    && (forall th {:trigger PInv(s, th)} :: PInv(s, th))
    && TableInv(s)
    && DumpInv(s)
    && s.stale == {}
  }

  /** What every action keeps. */
  ghost predicate Inv(s: State)
  {
    forall key {:trigger Open(key)} :: Open(key) ==> AllInv(s)
  }

  // ---------------------------------------------------------------- the actions

  function To(s: State, th: nat, pc: PC): State
  {
    s.(pcs := s.pcs[th := pc])
  }

  function PutG(s: State, g: nat, x: Gctx): State
  {
    s.(gctxs := s.gctxs[g := x])
  }

  function PutT(s: State, t: nat, x: Tctx): State
  {
    s.(tctxs := s.tctxs[t := x])
  }

  /** nlimbo goes up, on behalf of a thread. */
  function Hold(x: Gctx, th: nat): Gctx
  {
    x.(nlimbo := x.nlimbo + 1, holders := x.holders + {th})
  }

  /** nlimbo goes down, on behalf of a thread. */
  function Release(x: Gctx, th: nat): Gctx
  {
    x.(nlimbo := x.nlimbo - 1, holders := x.holders - {th})
  }

  /** A thread stops relying on nlimbo without taking it down. */
  function Leak(x: Gctx, th: nat): Gctx
  {
    x.(holders := x.holders - {th}, leaked := x.leaked + 1)
  }

  predicate ShouldDestroyGctx(x: Gctx)
  {
    x.tree == {} && x.nlimbo == 0
  }

  predicate ShouldDestroyTctx(x: Tctx)
  {
    x.cnts == 0 && !x.prepared
  }

  /** What a thread does in prof_lookup. */
  datatype LookupAction =
    | LookupHit(th: nat, t: nat)
    | LookupMiss(th: nat, bt: int)
    | GlobalFail(th: nat)                                      // no memory for a gctx
    | GlobalInsertFail(th: nat, g: nat, lostBt: Option<int>)   // bt2gctx lost this backtrace, or the new one
    | GlobalNew(th: nat, g: nat)
    | GlobalOld(th: nat)
    | AllocTctx(th: nat, t: nat)
    | AllocFail(th: nat)
    | Insert(th: nat)
    | InsertFail(th: nat, lost: Option<nat>)                   // bt2tctx lost this context, or the new one
    | Link(th: nat)
    | StaleHit(th: nat, t: nat)                                // a lookup finds a context that is freed

  /** What a thread does with a context it has: sampling, rolling back, freeing and what follows from that. */
  datatype UseAction =
    | Sample(th: nat)
    | Rollback(th: nat)
    | FreeObject(th: nat, t: nat)
    | Unlink(th: nat)
    | TryDestroyGctx(th: nat)
    | FreeIt(th: nat)

  /** What the dump does. */
  datatype DumpAction =
    | DumpStart
    | PrepOne(g: nat)
    | PrepDone
    | LockTdata(d: nat)
    | MergeOne(t: nat)
    | UnlockTdata
    | MergeTDone
    | MergeGctx(g: nat)
    | Leave
    | FinishOne(g: nat)
    | FinishDestroy
    | DumpEnd

  datatype Action = Lookup(look: LookupAction) | Use(use: UseAction) | Dumper(step: DumpAction)

  /** A failed insertion, if there is one, left the new item over and the table as it was. */
  predicate Clean(a: Action)
  {
    a.Lookup? ==> CleanLookup(a.look)
  }

  predicate CleanLookup(a: LookupAction)
  {
    (a.GlobalInsertFail? ==> a.lostBt == None) && (a.InsertFail? ==> a.lost == None)
  }

  /** When a thread or the dump may take an action: control flow, locks and what the environment decides. */
  ghost predicate Guard(s: State, a: Action)
  {
    match a
    case Lookup(look) => LookupGuard(s, look)
    case Use(use) => UseGuard(s, use)
    case Dumper(step) => DumpGuard(s, step)
  }

  ghost predicate LookupGuard(s: State, a: LookupAction)
  {
    match a
    case LookupHit(th, t) =>
      && Pc(s, th) == Idle && TdataFree(s, th)
      && t in s.tctxs && s.tctxs[t].inTable && s.tctxs[t].tdata == th
    case LookupMiss(th, bt) =>
      && Pc(s, th) == Idle && TdataFree(s, th)
      && (forall t :: t in s.tctxs && s.tctxs[t].inTable && s.tctxs[t].tdata == th && s.tctxs[t].gctx in s.gctxs ==>
            s.gctxs[s.tctxs[t].gctx].bt != bt)
    case GlobalFail(th) => Pc(s, th).Missed? && BtMtxFree(s) && Pc(s, th).bt !in s.table
    case GlobalInsertFail(th, g, out) =>
      && Pc(s, th).Missed? && BtMtxFree(s) && Pc(s, th).bt !in s.table && g !in s.gctxs
      && |s.table| >= Ckh.BUCKET_CELLS && (out.Some? ==> out.value in s.table)
    case GlobalNew(th, g) => Pc(s, th).Missed? && BtMtxFree(s) && Pc(s, th).bt !in s.table && g !in s.gctxs
    case GlobalOld(th) => Pc(s, th).Missed? && BtMtxFree(s) && Pc(s, th).bt in s.table
    case AllocTctx(th, t) => Pc(s, th).GotGctx? && t !in s.tctxs
    case AllocFail(th) => Pc(s, th).GotGctx?
    case Insert(th) => Pc(s, th).GotTctx? && TdataFree(s, th)
    case InsertFail(th, out) =>
      && Pc(s, th).GotTctx? && TdataFree(s, th)
      && |TableOf(s, th)| >= Ckh.BUCKET_CELLS && (out.Some? ==> out.value in TableOf(s, th) - {Pc(s, th).t})
    case Link(th) => Pc(s, th).Inserted?
    case StaleHit(th, t) => Pc(s, th) == Idle && TdataFree(s, th) && (th, t) in s.stale
  }

  ghost predicate UseGuard(s: State, a: UseAction)
  {
    match a
    case Sample(th) => Pc(s, th).Prepared? && TdataFree(s, th)
    case Rollback(th) => Pc(s, th).Prepared? && TdataFree(s, th)
    case FreeObject(th, t) =>
      Pc(s, th) == Idle && t in s.tctxs && s.tctxs[t].cnts > 0 && TdataFree(s, s.tctxs[t].tdata)
    case Unlink(th) => Pc(s, th).Destroying?
    case TryDestroyGctx(th) => Pc(s, th).TryDestroy? && BtMtxFree(s)
    case FreeIt(th) => Pc(s, th).FreeTctx?
  }

  ghost predicate DumpGuard(s: State, a: DumpAction)
  {
    match a
    case DumpStart => s.dump.NoDump?
    case PrepOne(g) => s.dump.Prep? && g in s.dump.todo
    case PrepDone => s.dump.Prep? && s.dump.todo == {}
    case LockTdata(d) => s.dump.MergeT? && s.dump.cur.None? && d !in s.dump.done
    case MergeOne(t) => s.dump.MergeT? && t in s.dump.visit
    case UnlockTdata => s.dump.MergeT? && s.dump.cur.Some? && s.dump.visit == {}
    case MergeTDone => s.dump.MergeT? && s.dump.cur.None?
    case MergeGctx(g) => s.dump.MergeG? && g in s.dump.todo
    case Leave => s.dump.MergeG? && s.dump.todo == {}
    case FinishOne(g) => s.dump.Finish? && g in s.dump.todo
    case FinishDestroy => s.dump.FinishTry?
    case DumpEnd => s.dump.Finish? && s.dump.todo == {}
  }

  /** gctx `g` may be handed to prof_gctx_try_destroy: it is allocated, in limbo, and found in bt2gctx. */
  ghost predicate CanTryDestroy(s: State, g: nat)
  {
    g in s.gctxs && s.gctxs[g].nlimbo != 0 && s.gctxs[g].bt in s.table && s.table[s.gctxs[g].bt] == g
  }

  /** Every tctx in the tree is allocated and none is still being set up. */
  ghost predicate TreeReadable(s: State, g: nat)
  {
    && g in s.gctxs
    && (forall t :: t in s.gctxs[g].tree ==> t in s.tctxs && s.tctxs[t].state != Initializing)
  }

  /** The action touches only allocated objects and runs into no assertion and no unreachable case. */
  ghost predicate Safe(s: State, a: Action)
  {
    match a
    case Lookup(look) => LookupSafe(s, look)
    case Use(use) => UseSafe(s, use)
    case Dumper(step) => DumpSafe(s, step)
  }

  ghost predicate LookupSafe(s: State, a: LookupAction)
  {
    match a
    case GlobalOld(th) => Pc(s, th).Missed? && Pc(s, th).bt in s.table && s.table[Pc(s, th).bt] in s.gctxs
    case AllocFail(th) => Pc(s, th).GotGctx? && Pc(s, th).g in s.gctxs
    case Insert(th) => Pc(s, th).GotTctx? && Pc(s, th).t in s.tctxs && Pc(s, th).g in s.gctxs
    case InsertFail(th, _) => Pc(s, th).GotTctx? && Pc(s, th).t in s.tctxs && Pc(s, th).g in s.gctxs
    case Link(th) => Pc(s, th).Inserted? && Pc(s, th).t in s.tctxs && Pc(s, th).g in s.gctxs
    case StaleHit(_, _) => false
    case _ => true
  }

  ghost predicate UseSafe(s: State, a: UseAction)
  {
    match a
    case Sample(th) => Pc(s, th).Prepared? && Pc(s, th).t in s.tctxs && s.tctxs[Pc(s, th).t].prepared
    case Rollback(th) =>
      && Pc(s, th).Prepared? && Pc(s, th).t in s.tctxs && s.tctxs[Pc(s, th).t].prepared
      && s.tctxs[Pc(s, th).t].gctx in s.gctxs
    case FreeObject(th, t) => t in s.tctxs && s.tctxs[t].cnts > 0 && s.tctxs[t].gctx in s.gctxs
    case Unlink(th) =>
      && Pc(s, th).Destroying? && InTree(s, Pc(s, th).t)
      && (s.tctxs[Pc(s, th).t].state == Nominal || s.tctxs[Pc(s, th).t].state == Dumping)
    case TryDestroyGctx(th) => Pc(s, th).TryDestroy? && CanTryDestroy(s, Pc(s, th).g)
    case FreeIt(th) => Pc(s, th).FreeTctx? && Pc(s, th).t in s.tctxs
  }

  ghost predicate DumpSafe(s: State, a: DumpAction)
  {
    match a
    case PrepOne(g) => g in s.gctxs
    case LockTdata(d) => forall e :: e in s.stale ==> e.0 != d
    case MergeOne(t) =>
      && t in s.tctxs && s.tctxs[t].gctx in s.gctxs
      && (s.tctxs[t].state == Initializing || s.tctxs[t].state == Nominal)
    case MergeGctx(g) => TreeReadable(s, g)
    case FinishOne(g) => TreeReadable(s, g) && s.gctxs[g].nlimbo != 0
    case FinishDestroy => s.dump.FinishTry? && CanTryDestroy(s, s.dump.g)
    case _ => true
  }

  /** What a captured context adds to the dump's counters. */
  function Weight(tctxs: map<nat, Tctx>, t: nat): int
  {
    if t in tctxs && (tctxs[t].state == Dumping || tctxs[t].state == Purgatory) then tctxs[t].dumpCnts else 0
  }

  ghost function Captures(tctxs: map<nat, Tctx>, ts: set<nat>): int
  {
    if ts == {} then 0 else
      var t :| t in ts;
      Weight(tctxs, t) + Captures(tctxs, ts - {t})
  }

  /** The first part of prof_tctx_destroy, still under the tdata lock. */
  function Expel(s: State, th: nat, t: nat, x: Tctx): State
  {
    To(PutT(s, t, x.(inTable := false, owner := Some(th))), th, Destroying(t))
  }

  /** prof_gctx_try_destroy, on behalf of a thread. */
  function TryDestroyStep(s: State, g: nat, released: Gctx): State
    requires g in s.gctxs
  {
    if s.gctxs[g].tree == {} && s.gctxs[g].nlimbo == 1 then
      s.(gctxs := s.gctxs - {g}, table := s.table - {s.gctxs[g].bt})
    else
      PutG(s, g, released)
  }

  function AfterTry(k: Option<nat>): PC
  {
    if k.Some? then FreeTctx(k.value) else Idle
  }

  /** What ckh_insert leaves of bt2gctx when it fails. */
  function TableAfterFail(table: map<int, nat>, bt: int, g: nat, out: Option<int>): map<int, nat>
  {
    if out.Some? then (table - {out.value})[bt := g] else table
  }

  /** What ckh_insert leaves of a thread's bt2tctx when it fails. */
  function TctxsAfterFail(tctxs: map<nat, Tctx>, t: nat, out: Option<nat>): map<nat, Tctx>
    requires t in tctxs && (out.Some? ==> out.value in tctxs)
  {
    if out.Some? then
      tctxs[out.value := tctxs[out.value].(inTable := false)][t := tctxs[t].(inTable := true)]
    else tctxs
  }

  /** What prof_tctx_finish_iter makes of a context that it keeps. */
  function AfterDump(x: Tctx, tree: set<nat>, t: nat): Tctx
  {
    if t in tree && x.state == Dumping then x.(state := Nominal) else x
  }

  /** What prof_tctx_finish_iter leaves of the contexts: captured ones are nominal again, those in purgatory are
      freed. */
  function Finished(tctxs: map<nat, Tctx>, tree: set<nat>): map<nat, Tctx>
  {
    map t | t in tctxs && !(t in tree && tctxs[t].state == Purgatory) ::
      AfterDump(tctxs[t], tree, t)
  }

  /** The effect of an action. */
  ghost function Do(s: State, a: Action): State
    requires Guard(s, a) && Safe(s, a)
  {
    match a
    case Lookup(look) => LookupDo(s, look)
    case Use(use) => UseDo(s, use)
    case Dumper(step) => DumpDo(s, step)
  }

  ghost function LookupDo(s: State, a: LookupAction): State
    requires LookupGuard(s, a) && LookupSafe(s, a)
  {
    match a
    case LookupHit(th, t) => To(PutT(s, t, s.tctxs[t].(prepared := true)), th, Prepared(t))
    case LookupMiss(th, bt) => To(s, th, Missed(bt))
    case GlobalFail(th) => To(s, th, Idle)
    case GlobalInsertFail(th, g, out) =>
      To(s.(table := TableAfterFail(s.table, Pc(s, th).bt, g, out)), th, Idle)
    case GlobalNew(th, g) =>
      var bt := Pc(s, th).bt;
      To(PutG(s, g, Gctx(bt, 1, {}, 0, {th}, false, 0)).(table := s.table[bt := g]), th, GotGctx(g, true))
    case GlobalOld(th) =>
      var g := s.table[Pc(s, th).bt];
      To(PutG(s, g, Hold(s.gctxs[g], th)), th, GotGctx(g, false))
    case AllocTctx(th, t) =>
      var g := Pc(s, th).g;
      To(PutT(s, t, Tctx(g, th, Initializing, 0, 0, true, false, Some(th))), th, GotTctx(g, t, Pc(s, th).isNew))
    case AllocFail(th) =>
      var g := Pc(s, th).g;
      if Pc(s, th).isNew then To(s, th, TryDestroy(g, None)) else To(PutG(s, g, Leak(s.gctxs[g], th)), th, Idle)
    case Insert(th) =>
      var t := Pc(s, th).t;
      To(PutT(s, t, s.tctxs[t].(inTable := true)), th, Inserted(Pc(s, th).g, t))
    case InsertFail(th, out) =>
      var g, t := Pc(s, th).g, Pc(s, th).t;
      var s1 := s.(tctxs := TctxsAfterFail(s.tctxs, t, out));
      if Pc(s, th).isNew then To(s1, th, TryDestroy(g, Some(t)))
        else To(PutG(s1, g, Leak(s.gctxs[g], th)), th, FreeTctx(t))
    case Link(th) =>
      var g, t := Pc(s, th).g, Pc(s, th).t;
      To(PutG(PutT(s, t, s.tctxs[t].(state := Nominal, owner := None)), g,
              Release(s.gctxs[g].(tree := s.gctxs[g].tree + {t}), th)), th, Prepared(t))
    case StaleHit(_, _) => s
  }

  ghost function UseDo(s: State, a: UseAction): State
    requires UseGuard(s, a) && UseSafe(s, a)
  {
    match a
    case Sample(th) =>
      var t := Pc(s, th).t;
      To(PutT(s, t, s.tctxs[t].(cnts := s.tctxs[t].cnts + 1, prepared := false)), th, Idle)
    case Rollback(th) =>
      var t := Pc(s, th).t;
      var x := s.tctxs[t].(prepared := false);
      if ShouldDestroyTctx(x) then Expel(s, th, t, x) else To(PutT(s, t, x), th, Idle)
    case FreeObject(th, t) =>
      var x := s.tctxs[t].(cnts := s.tctxs[t].cnts - 1);
      if ShouldDestroyTctx(x) then Expel(s, th, t, x) else PutT(s, t, x)
    case Unlink(th) =>
      var t := Pc(s, th).t;
      var g := s.tctxs[t].gctx;
      if s.tctxs[t].state == Nominal then
        var x := s.gctxs[g].(tree := s.gctxs[g].tree - {t});
        if ShouldDestroyGctx(x) then To(PutG(s, g, Hold(x, th)), th, TryDestroy(g, Some(t)))
        else To(PutG(s, g, x), th, FreeTctx(t))
      else
        To(PutT(s, t, s.tctxs[t].(state := Purgatory, owner := None)), th, Idle)
    case TryDestroyGctx(th) =>
      var g := Pc(s, th).g;
      To(TryDestroyStep(s, g, Release(s.gctxs[g], th)), th, AfterTry(Pc(s, th).k))
    case FreeIt(th) =>
      var t := Pc(s, th).t;
      To(s.(tctxs := s.tctxs - {t}, stale := s.stale + if s.tctxs[t].inTable then {(s.tctxs[t].tdata, t)} else {}),
         th, Idle)
  }

  ghost function DumpDo(s: State, a: DumpAction): State
    requires DumpGuard(s, a) && DumpSafe(s, a)
  {
    match a
    case DumpStart => s.(dump := Prep(s.gctxs.Keys))
    case PrepOne(g) =>
      var x := s.gctxs[g];
      PutG(s, g, x.(nlimbo := x.nlimbo + 1, dumpHolds := true, summed := 0)).(dump := Prep(s.dump.todo - {g}))
    case PrepDone => s.(dump := MergeT(None, {}, {}, 0))
    case LockTdata(d) =>
      s.(dump := MergeT(Some(d), TableOf(s, d), s.dump.done, s.dump.total))
    case MergeOne(t) =>
      var MergeT(cur, visit, done, total) := s.dump;
      if s.tctxs[t].state == Initializing then s.(dump := MergeT(cur, visit - {t}, done, total))
      else
        PutT(s, t, s.tctxs[t].(state := Dumping, dumpCnts := s.tctxs[t].cnts))
        .(dump := MergeT(cur, visit - {t}, done, total + s.tctxs[t].cnts))
    case UnlockTdata => s.(dump := MergeT(None, {}, s.dump.done + {s.dump.cur.value}, s.dump.total))
    case MergeTDone => s.(dump := MergeG(s.gctxs.Keys, s.dump.total))
    case MergeGctx(g) =>
      var x := s.gctxs[g];
      PutG(s, g, x.(summed := x.summed + Captures(s.tctxs, x.tree))).(dump := MergeG(s.dump.todo - {g}, s.dump.total))
    case Leave => s.(dump := Finish(s.gctxs.Keys))
    case FinishOne(g) =>
      var x := s.gctxs[g];
      var tctxs := Finished(s.tctxs, x.tree);
      var y := x.(tree := x.tree * tctxs.Keys, nlimbo := x.nlimbo - 1);
      if ShouldDestroyGctx(y) then
        PutG(s.(tctxs := tctxs), g, y.(nlimbo := y.nlimbo + 1)).(dump := FinishTry(g, s.dump.todo - {g}))
      else
        PutG(s.(tctxs := tctxs), g, y.(dumpHolds := false)).(dump := Finish(s.dump.todo - {g}))
    case FinishDestroy =>
      var g := s.dump.g;
      TryDestroyStep(s, g, s.gctxs[g].(nlimbo := s.gctxs[g].nlimbo - 1,
                                       dumpHolds := false)).(dump := Finish(s.dump.todo))
    case DumpEnd => s.(dump := NoDump)
  }

  // ---------------------------------------------------------------- no step is unsafe

  lemma LookupIsSafe(s: State, a: LookupAction)
    requires Inv(s) && LookupGuard(s, a)
    ensures LookupSafe(s, a)
  {
    assert Open(0);
    match a
    case AllocFail(th) => assert PInv(s, th);
    case Insert(th) => assert PInv(s, th);
    case InsertFail(th, _) => assert PInv(s, th);
    case Link(th) => assert PInv(s, th);
    case _ =>
  }

  lemma UseIsSafe(s: State, a: UseAction)
    requires Inv(s) && UseGuard(s, a)
    ensures UseSafe(s, a)
  {
    assert Open(0);
    match a
    case Unlink(th) => assert PInv(s, th);
    case TryDestroyGctx(th) => assert PInv(s, th) && GInv(s, Pc(s, th).g);
    case Rollback(th) => assert PInv(s, th) && TInv(s, Pc(s, th).t);
    case FreeObject(th, t) => assert TInv(s, t);
    case Sample(th) => assert PInv(s, th);
    case FreeIt(th) => assert PInv(s, th);
  }

  lemma DumpIsSafe(s: State, a: DumpAction)
    requires Inv(s) && DumpGuard(s, a)
    ensures DumpSafe(s, a)
  {
    assert Open(0);
    match a
    case MergeOne(t) =>
      assert TInv(s, t);
      if s.tctxs[t].owner.Some? { assert PInv(s, s.tctxs[t].owner.value); }
    case MergeGctx(g) => assert GInv(s, g);
    case FinishOne(g) => assert GInv(s, g);
    case FinishDestroy => assert GInv(s, s.dump.g);
    case _ =>
  }

  // ---------------------------------------------------------------- what a thread's action leaves alone

  /** Everything but thread `th`, at most one gctx and at most one tctx is as before. */
  ghost predicate Local(s: State, s': State, th: nat, go: Option<nat>, to: Option<nat>)
  {
    && s'.dump == s.dump && s'.stale == s.stale
    && (forall x {:trigger Pc(s', x)} :: x != th ==> Pc(s', x) == Pc(s, x))
    && (forall x {:trigger x in s.gctxs} {:trigger x in s'.gctxs} :: go != Some(x) ==>
          (x in s'.gctxs <==> x in s.gctxs) && (x in s.gctxs ==> s'.gctxs[x] == s.gctxs[x]))
    && (forall x {:trigger x in s.tctxs} {:trigger x in s'.tctxs} :: to != Some(x) ==>
          (x in s'.tctxs <==> x in s.tctxs) && (x in s.tctxs ==> s'.tctxs[x] == s.tctxs[x]))
    && (forall bt {:trigger bt in s.table} {:trigger bt in s'.table} ::
          bt in s.table && go != Some(s.table[bt]) ==> bt in s'.table && s'.table[bt] == s.table[bt])
  }

  /** The gctx that a thread's action changes: only this thread's hold on it and the one tctx in its tree. */
  ghost predicate GctxDelta(s: State, s': State, th: nat, go: Option<nat>, to: Option<nat>)
  {
    go.Some? ==>
      var g := go.value;
      && (g in s.gctxs && g in s'.gctxs ==>
            && (forall x {:trigger x in s.gctxs[g].holders} {:trigger x in s'.gctxs[g].holders} ::
                  x != th ==> (x in s'.gctxs[g].holders <==> x in s.gctxs[g].holders))
            && (forall x {:trigger x in s.gctxs[g].tree} {:trigger x in s'.gctxs[g].tree} ::
                  to != Some(x) ==> (x in s'.gctxs[g].tree <==> x in s.gctxs[g].tree)))
      && (g in s.gctxs && g !in s'.gctxs ==> s.gctxs[g].holders <= {th} && s.gctxs[g].tree == {})
      && (g !in s.gctxs && g in s'.gctxs ==> s'.gctxs[g].tree == {})
  }

  /** The tctx that a thread's action changes is not one that another thread owns. */
  ghost predicate TctxDelta(s: State, s': State, th: nat, to: Option<nat>)
  {
    && (OwnT(Pc(s, th)).Some? ==> to == OwnT(Pc(s, th)))
    && (Pc(s, th).Prepared? ==> to == Some(Pc(s, th).t))
    && (to.Some? && to.value in s.tctxs ==> s.tctxs[to.value].owner == None || s.tctxs[to.value].owner == Some(th))
  }

  lemma GctxFrame(s: State, s': State, th: nat, go: Option<nat>, to: Option<nat>, x: nat)
    requires Local(s, s', th, go, to) && TctxDelta(s, s', th, to)
    requires x in s.gctxs && GInv(s, x) && go != Some(x)
    requires HoldG(Pc(s, th)).Some? ==> Some(x) != HoldG(Pc(s, th)) || HoldG(Pc(s', th)) == Some(x)
    requires to.Some? && to.value in s.gctxs[x].tree ==>
               && to.value in s'.tctxs && s'.tctxs[to.value].gctx == x && s'.tctxs[to.value].state != Initializing
               && (s'.tctxs[to.value].owner.Some? ==> Pc(s', s'.tctxs[to.value].owner.value) == Destroying(to.value))
    ensures x in s'.gctxs && GInv(s', x)
  {
  }

  lemma TctxFrame(s: State, s': State, th: nat, go: Option<nat>, to: Option<nat>, x: nat)
    requires Local(s, s', th, go, to) && GctxDelta(s, s', th, go, to) && TctxDelta(s, s', th, to)
    requires x in s.tctxs && TInv(s, x) && to != Some(x)
    ensures x in s'.tctxs && TInv(s', x)
  {
  }

  lemma InTreeFrame(s: State, s': State, th: nat, go: Option<nat>, to: Option<nat>, t: nat)
    requires Local(s, s', th, go, to) && GctxDelta(s, s', th, go, to) && to != Some(t)
    ensures InTree(s', t) == InTree(s, t)
  {
  }

  lemma RefersFrame(s: State, s': State, th: nat, go: Option<nat>, to: Option<nat>, x: nat)
    requires Local(s, s', th, go, to) && GctxDelta(s, s', th, go, to) && TctxDelta(s, s', th, to)
    requires x != th && Refers(s, x)
    ensures Refers(s', x)
  {
  }

  lemma ThreadFrame(s: State, s': State, th: nat, go: Option<nat>, to: Option<nat>, x: nat)
    requires Local(s, s', th, go, to) && GctxDelta(s, s', th, go, to) && TctxDelta(s, s', th, to)
    requires x != th && PInv(s, x)
    requires to.Some? && Pc(s, x) == Prepared(to.value) ==>
               && to.value in s'.tctxs && s'.tctxs[to.value].prepared && s'.tctxs[to.value].owner == None
               && s'.tctxs[to.value].inTable && s'.tctxs[to.value].tdata == x
    ensures PInv(s', x)
  {
    RefersFrame(s, s', th, go, to, x);
    if OwnT(Pc(s, x)).Some? {
      InTreeFrame(s, s', th, go, to, OwnT(Pc(s, x)).value);
    }
  }

  /** The gctxs, tctxs and threads that are not this action's own keep their invariants. */
  lemma LocalKeeps(s: State, s': State, th: nat, go: Option<nat>, to: Option<nat>)
    requires Inv(s) && Local(s, s', th, go, to) && GctxDelta(s, s', th, go, to) && TctxDelta(s, s', th, to)
    requires HoldG(Pc(s, th)).Some? ==> go == HoldG(Pc(s, th)) || HoldG(Pc(s', th)) == HoldG(Pc(s, th))
    requires to.Some? && InTree(s, to.value) && go != Some(s.tctxs[to.value].gctx) ==>
               && to.value in s'.tctxs && s'.tctxs[to.value].gctx == s.tctxs[to.value].gctx
               && s'.tctxs[to.value].state != Initializing
               && (s'.tctxs[to.value].owner.Some? ==> Pc(s', s'.tctxs[to.value].owner.value) == Destroying(to.value))
    requires to.Some? && to.value in s.tctxs && s.tctxs[to.value].tdata != th
             && Pc(s, s.tctxs[to.value].tdata) == Prepared(to.value) ==>
               && to.value in s'.tctxs && s'.tctxs[to.value].prepared && s'.tctxs[to.value].owner == None
               && s'.tctxs[to.value].inTable && s'.tctxs[to.value].tdata == s.tctxs[to.value].tdata
    requires go.Some? && go.value in s'.gctxs ==> GInv(s', go.value)
    requires to.Some? && to.value in s'.tctxs ==> TInv(s', to.value)
    requires PInv(s', th) && TableInv(s') && DumpInv(s')
    ensures Inv(s')
  {
    assert Open(0);
    forall x | x in s'.gctxs ensures GInv(s', x) {
      if go != Some(x) {
        assert GInv(s, x);
        GctxFrame(s, s', th, go, to, x);
      }
    }
    forall x | x in s'.tctxs ensures TInv(s', x) {
      if to != Some(x) {
        assert TInv(s, x);
        TctxFrame(s, s', th, go, to, x);
      }
    }
    forall x ensures PInv(s', x) {
      if x != th {
        assert PInv(s, x);
        ThreadFrame(s, s', th, go, to, x);
      }
    }
  }

  // ---------------------------------------------------------------- every action keeps the invariant

  lemma ThreadFacts(s: State, th: nat)
    requires Inv(s)
    ensures PInv(s, th) && TableInv(s) && DumpInv(s) && s.stale == {}
  {
    assert Open(0);
  }

  lemma GctxFacts(s: State, g: nat)
    requires Inv(s) && g in s.gctxs
    ensures GInv(s, g)
  {
    assert Open(0);
  }

  lemma TctxFacts(s: State, t: nat)
    requires Inv(s) && t in s.tctxs
    ensures TInv(s, t)
  {
    assert Open(0);
  }

  lemma LookupHitKeeps(s: State, th: nat, t: nat)
    requires Inv(s) && LookupGuard(s, LookupHit(th, t)) && LookupSafe(s, LookupHit(th, t))
    ensures Inv(LookupDo(s, LookupHit(th, t)))
  {
    ThreadFacts(s, th);
    TctxFacts(s, t);
    ThreadFacts(s, if s.tctxs[t].owner.Some? then s.tctxs[t].owner.value else th);
    LocalKeeps(s, LookupDo(s, LookupHit(th, t)), th, None, Some(t));
  }

  lemma LookupMissKeeps(s: State, th: nat, bt: int)
    requires Inv(s) && LookupGuard(s, LookupMiss(th, bt)) && LookupSafe(s, LookupMiss(th, bt))
    ensures Inv(LookupDo(s, LookupMiss(th, bt)))
  {
    ThreadFacts(s, th);
    LocalKeeps(s, LookupDo(s, LookupMiss(th, bt)), th, None, None);
  }

  lemma GlobalFailKeeps(s: State, th: nat)
    requires Inv(s) && LookupGuard(s, GlobalFail(th)) && LookupSafe(s, GlobalFail(th))
    ensures Inv(LookupDo(s, GlobalFail(th)))
  {
    ThreadFacts(s, th);
    LocalKeeps(s, LookupDo(s, GlobalFail(th)), th, None, None);
  }

  lemma GlobalInsertFailKeeps(s: State, th: nat, g: nat)
    requires Inv(s) && LookupGuard(s, GlobalInsertFail(th, g, None)) && LookupSafe(s, GlobalInsertFail(th, g, None))
    ensures Inv(LookupDo(s, GlobalInsertFail(th, g, None)))
  {
    ThreadFacts(s, th);
    LocalKeeps(s, LookupDo(s, GlobalInsertFail(th, g, None)), th, None, None);
  }

  lemma GlobalNewKeeps(s: State, th: nat, g: nat)
    requires Inv(s) && LookupGuard(s, GlobalNew(th, g)) && LookupSafe(s, GlobalNew(th, g))
    ensures Inv(LookupDo(s, GlobalNew(th, g)))
  {
    ThreadFacts(s, th);
    LocalKeeps(s, LookupDo(s, GlobalNew(th, g)), th, Some(g), None);
  }

  lemma GlobalOldKeeps(s: State, th: nat)
    requires Inv(s) && LookupGuard(s, GlobalOld(th)) && LookupSafe(s, GlobalOld(th))
    ensures Inv(LookupDo(s, GlobalOld(th)))
  {
    ThreadFacts(s, th);
    GctxFacts(s, s.table[Pc(s, th).bt]);
    LocalKeeps(s, LookupDo(s, GlobalOld(th)), th, Some(s.table[Pc(s, th).bt]), None);
  }

  lemma AllocTctxKeeps(s: State, th: nat, t: nat)
    requires Inv(s) && LookupGuard(s, AllocTctx(th, t)) && LookupSafe(s, AllocTctx(th, t))
    ensures Inv(LookupDo(s, AllocTctx(th, t)))
  {
    ThreadFacts(s, th);
    GctxFacts(s, Pc(s, th).g);
    LocalKeeps(s, LookupDo(s, AllocTctx(th, t)), th, None, Some(t));
  }

  lemma AllocFailNewKeeps(s: State, th: nat)
    requires Inv(s) && LookupGuard(s, AllocFail(th)) && LookupSafe(s, AllocFail(th)) && Pc(s, th).isNew
    ensures Inv(LookupDo(s, AllocFail(th)))
  {
    ThreadFacts(s, th);
    GctxFacts(s, Pc(s, th).g);
    LocalKeeps(s, LookupDo(s, AllocFail(th)), th, Some(Pc(s, th).g), None);
  }

  /** What a failed lookup makes of the gctx it found. */
  lemma LeakedGctx(s: State, s': State, th: nat, g: nat)
    requires g in s.gctxs && GInv(s, g) && th in s.gctxs[g].holders
    requires g in s'.gctxs && s'.gctxs[g] == Leak(s.gctxs[g], th) && s'.table == s.table && s'.dump == s.dump
    requires s'.tctxs == s.tctxs && forall x :: x != th ==> Pc(s', x) == Pc(s, x)
    requires HoldG(Pc(s, th)) == Some(g)
    ensures GInv(s', g)
  {
  }

  lemma AllocFailOldKeeps(s: State, th: nat)
    requires Inv(s) && LookupGuard(s, AllocFail(th)) && LookupSafe(s, AllocFail(th)) && !Pc(s, th).isNew
    ensures Inv(LookupDo(s, AllocFail(th)))
  {
    ThreadFacts(s, th);
    var g, s' := Pc(s, th).g, LookupDo(s, AllocFail(th));
    GctxFacts(s, g);
    LeakedGctx(s, s', th, g);
    LocalKeeps(s, s', th, Some(g), None);
  }

  lemma InsertKeeps(s: State, th: nat)
    requires Inv(s) && LookupGuard(s, Insert(th)) && LookupSafe(s, Insert(th))
    ensures Inv(LookupDo(s, Insert(th)))
  {
    ThreadFacts(s, th);
    TctxFacts(s, Pc(s, th).t);
    LocalKeeps(s, LookupDo(s, Insert(th)), th, None, Some(Pc(s, th).t));
  }

  lemma InsertFailNewKeeps(s: State, th: nat)
    requires Inv(s) && LookupGuard(s, InsertFail(th, None)) && LookupSafe(s, InsertFail(th, None))
    requires Pc(s, th).isNew
    ensures Inv(LookupDo(s, InsertFail(th, None)))
  {
    ThreadFacts(s, th);
    TctxFacts(s, Pc(s, th).t);
    GctxFacts(s, Pc(s, th).g);
    LocalKeeps(s, LookupDo(s, InsertFail(th, None)), th, Some(Pc(s, th).g), Some(Pc(s, th).t));
  }

  lemma InsertFailOldKeeps(s: State, th: nat)
    requires Inv(s) && LookupGuard(s, InsertFail(th, None)) && LookupSafe(s, InsertFail(th, None))
    requires !Pc(s, th).isNew
    ensures Inv(LookupDo(s, InsertFail(th, None)))
  {
    ThreadFacts(s, th);
    TctxFacts(s, Pc(s, th).t);
    GctxFacts(s, Pc(s, th).g);
    LocalKeeps(s, LookupDo(s, InsertFail(th, None)), th, Some(Pc(s, th).g), Some(Pc(s, th).t));
  }

  lemma LinkedGctx(s: State, s': State, th: nat, g: nat, t: nat)
    requires g in s.gctxs && GInv(s, g) && th in s.gctxs[g].holders && HoldG(Pc(s, th)) == Some(g)
    requires s'.table == s.table && s'.dump == s.dump && forall x :: x != th ==> Pc(s', x) == Pc(s, x)
    requires t in s.tctxs && s.tctxs[t].gctx == g
             && s'.tctxs == s.tctxs[t := s.tctxs[t].(state := Nominal, owner := None)]
    requires g in s'.gctxs && s'.gctxs[g] == Release(s.gctxs[g].(tree := s.gctxs[g].tree + {t}), th)
    requires Pc(s', th) == Prepared(t) && Pc(s, th) == Inserted(g, t)
    ensures GInv(s', g)
  {
  }

  lemma LinkKeeps(s: State, th: nat)
    requires Inv(s) && LookupGuard(s, Link(th)) && LookupSafe(s, Link(th))
    ensures Inv(LookupDo(s, Link(th)))
  {
    ThreadFacts(s, th);
    var g, t, s' := Pc(s, th).g, Pc(s, th).t, LookupDo(s, Link(th));
    TctxFacts(s, t);
    GctxFacts(s, g);
    LinkedGctx(s, s', th, g, t);
    LocalKeeps(s, s', th, Some(g), Some(t));
  }

  lemma SampleKeeps(s: State, th: nat)
    requires Inv(s) && UseGuard(s, Sample(th)) && UseSafe(s, Sample(th))
    ensures Inv(UseDo(s, Sample(th)))
  {
    ThreadFacts(s, th);
    TctxFacts(s, Pc(s, th).t);
    LocalKeeps(s, UseDo(s, Sample(th)), th, None, Some(Pc(s, th).t));
  }

  lemma RollbackKeeps(s: State, th: nat)
    requires Inv(s) && UseGuard(s, Rollback(th)) && UseSafe(s, Rollback(th))
    ensures Inv(UseDo(s, Rollback(th)))
  {
    ThreadFacts(s, th);
    TctxFacts(s, Pc(s, th).t);
    LocalKeeps(s, UseDo(s, Rollback(th)), th, None, Some(Pc(s, th).t));
  }

  lemma FreeObjectKeeps(s: State, th: nat, t: nat)
    requires Inv(s) && UseGuard(s, FreeObject(th, t)) && UseSafe(s, FreeObject(th, t))
    ensures Inv(UseDo(s, FreeObject(th, t)))
  {
    ThreadFacts(s, th);
    TctxFacts(s, t);
    ThreadFacts(s, s.tctxs[t].tdata);
    LocalKeeps(s, UseDo(s, FreeObject(th, t)), th, None, Some(t));
  }

  lemma UnlinkAndTryKeeps(s: State, th: nat)
    requires Inv(s) && UseGuard(s, Unlink(th)) && UseSafe(s, Unlink(th))
    requires var t := Pc(s, th).t;
             && s.tctxs[t].state == Nominal
             && s.gctxs[s.tctxs[t].gctx].tree == {t} && s.gctxs[s.tctxs[t].gctx].nlimbo == 0
    ensures Inv(UseDo(s, Unlink(th)))
  {
    ThreadFacts(s, th);
    TctxFacts(s, Pc(s, th).t);
    GctxFacts(s, s.tctxs[Pc(s, th).t].gctx);
    ThreadFacts(s, s.tctxs[Pc(s, th).t].tdata);
    LocalKeeps(s, UseDo(s, Unlink(th)), th, Some(s.tctxs[Pc(s, th).t].gctx), Some(Pc(s, th).t));
  }

  lemma UnlinkedGctx(s: State, s': State, th: nat, g: nat, t: nat)
    requires g in s.gctxs && GInv(s, g) && t in s.gctxs[g].tree && Pc(s, th) == Destroying(t)
             && s.tctxs[t].owner == Some(th)
    requires !(s.gctxs[g].tree == {t} && s.gctxs[g].nlimbo == 0)
    requires s'.table == s.table && s'.dump == s.dump && s'.tctxs == s.tctxs
    requires forall x :: x != th ==> Pc(s', x) == Pc(s, x)
    requires g in s'.gctxs && s'.gctxs[g] == s.gctxs[g].(tree := s.gctxs[g].tree - {t}) && Pc(s', th) == FreeTctx(t)
    ensures GInv(s', g)
  {
    if s.gctxs[g].tree - {t} == {} {
      assert s.gctxs[g].tree == {t};
    }
  }

  lemma UnlinkOnlyKeeps(s: State, th: nat)
    requires Inv(s) && UseGuard(s, Unlink(th)) && UseSafe(s, Unlink(th))
    requires var t := Pc(s, th).t;
             && s.tctxs[t].state == Nominal
             && !(s.gctxs[s.tctxs[t].gctx].tree == {t} && s.gctxs[s.tctxs[t].gctx].nlimbo == 0)
    ensures Inv(UseDo(s, Unlink(th)))
  {
    ThreadFacts(s, th);
    var t, s' := Pc(s, th).t, UseDo(s, Unlink(th));
    var g := s.tctxs[t].gctx;
    TctxFacts(s, t);
    GctxFacts(s, g);
    ThreadFacts(s, s.tctxs[t].tdata);
    if s.gctxs[g].tree - {t} == {} {
      assert s.gctxs[g].tree == {t};
    }
    UnlinkedGctx(s, s', th, g, t);
    LocalKeeps(s, s', th, Some(g), Some(t));
  }

  lemma ToPurgatoryKeeps(s: State, th: nat)
    requires Inv(s) && UseGuard(s, Unlink(th)) && UseSafe(s, Unlink(th))
    requires s.tctxs[Pc(s, th).t].state == Dumping
    ensures Inv(UseDo(s, Unlink(th)))
  {
    ThreadFacts(s, th);
    TctxFacts(s, Pc(s, th).t);
    GctxFacts(s, s.tctxs[Pc(s, th).t].gctx);
    ThreadFacts(s, s.tctxs[Pc(s, th).t].tdata);
    LocalKeeps(s, UseDo(s, Unlink(th)), th, Some(s.tctxs[Pc(s, th).t].gctx), Some(Pc(s, th).t));
  }

  lemma OnlyHolder(holders: set<nat>, th: nat)
    requires th in holders && |holders| <= 1
    ensures holders == {th}
  {
    assert |holders - {th}| == |holders| - 1;
  }

  lemma DestroyGctxKeeps(s: State, th: nat)
    requires Inv(s) && UseGuard(s, TryDestroyGctx(th)) && UseSafe(s, TryDestroyGctx(th))
    requires s.gctxs[Pc(s, th).g].tree == {} && s.gctxs[Pc(s, th).g].nlimbo == 1
    ensures Inv(UseDo(s, TryDestroyGctx(th)))
  {
    ThreadFacts(s, th);
    GctxFacts(s, Pc(s, th).g);
    OnlyHolder(s.gctxs[Pc(s, th).g].holders, th);
    if Pc(s, th).k.Some? {
      TctxFacts(s, Pc(s, th).k.value);
      ThreadFacts(s, s.tctxs[Pc(s, th).k.value].tdata);
    }
    LocalKeeps(s, UseDo(s, TryDestroyGctx(th)), th, Some(Pc(s, th).g), OwnT(Pc(s, th)));
  }

  lemma SpareBareGctxKeeps(s: State, th: nat)
    requires Inv(s) && UseGuard(s, TryDestroyGctx(th)) && UseSafe(s, TryDestroyGctx(th)) && Pc(s, th).k == None
    requires !(s.gctxs[Pc(s, th).g].tree == {} && s.gctxs[Pc(s, th).g].nlimbo == 1)
    ensures Inv(UseDo(s, TryDestroyGctx(th)))
  {
    ThreadFacts(s, th);
    GctxFacts(s, Pc(s, th).g);
    LocalKeeps(s, UseDo(s, TryDestroyGctx(th)), th, Some(Pc(s, th).g), None);
  }

  lemma SpareGctxKeeps(s: State, th: nat)
    requires Inv(s) && UseGuard(s, TryDestroyGctx(th)) && UseSafe(s, TryDestroyGctx(th)) && Pc(s, th).k.Some?
    requires !(s.gctxs[Pc(s, th).g].tree == {} && s.gctxs[Pc(s, th).g].nlimbo == 1)
    ensures Inv(UseDo(s, TryDestroyGctx(th)))
  {
    ThreadFacts(s, th);
    GctxFacts(s, Pc(s, th).g);
    TctxFacts(s, Pc(s, th).k.value);
    ThreadFacts(s, s.tctxs[Pc(s, th).k.value].tdata);
    LocalKeeps(s, UseDo(s, TryDestroyGctx(th)), th, Some(Pc(s, th).g), OwnT(Pc(s, th)));
  }

  lemma FreeItKeeps(s: State, th: nat)
    requires Inv(s) && UseGuard(s, FreeIt(th)) && UseSafe(s, FreeIt(th))
    ensures Inv(UseDo(s, FreeIt(th)))
  {
    ThreadFacts(s, th);
    TctxFacts(s, Pc(s, th).t);
    ThreadFacts(s, s.tctxs[Pc(s, th).t].tdata);
    LocalKeeps(s, UseDo(s, FreeIt(th)), th, None, Some(Pc(s, th).t));
  }

  // ---------------------------------------------------------------- the dump's actions

  /** The threads, the tctxs, and the trees and holders of the gctxs are as before. */
  ghost predicate DumpLocal(s: State, s': State)
  {
    && s'.pcs == s.pcs && s'.tctxs == s.tctxs && s'.stale == s.stale
    && (forall g {:trigger g in s.gctxs} {:trigger g in s'.gctxs} :: g in s'.gctxs ==>
          && g in s.gctxs && s'.gctxs[g].bt == s.gctxs[g].bt
          && s'.gctxs[g].tree == s.gctxs[g].tree && s'.gctxs[g].holders == s.gctxs[g].holders)
    && (forall g {:trigger g in s.gctxs} :: g in s.gctxs && g !in s'.gctxs ==>
          s.gctxs[g].tree == {} && s.gctxs[g].holders == {})
  }

  lemma DumpLocalTctx(s: State, s': State, t: nat)
    requires DumpLocal(s, s') && t in s.tctxs && TInv(s, t)
    requires s.tctxs[t].state == Dumping || s.tctxs[t].state == Purgatory ==>
               Captured(s.dump, s.tctxs[t].tdata, s.tctxs[t].gctx, t) ==>
                 Captured(s'.dump, s.tctxs[t].tdata, s.tctxs[t].gctx, t)
    ensures TInv(s', t)
  {
  }

  lemma DumpLocalThread(s: State, s': State, th: nat)
    requires DumpLocal(s, s') && PInv(s, th)
    ensures PInv(s', th)
  {
  }

  lemma DumpLocalKeeps(s: State, s': State)
    requires Inv(s) && DumpLocal(s, s') && TableInv(s') && DumpInv(s')
    requires forall t {:trigger t in s.tctxs} ::
               t in s.tctxs && (s.tctxs[t].state == Dumping || s.tctxs[t].state == Purgatory) ==>
               Captured(s.dump, s.tctxs[t].tdata, s.tctxs[t].gctx, t) ==>
                 Captured(s'.dump, s.tctxs[t].tdata, s.tctxs[t].gctx, t)
    requires forall g {:trigger GInv(s', g)} :: g in s'.gctxs ==> GInv(s', g)
    ensures Inv(s')
  {
    assert Open(0);
    forall t | t in s'.tctxs ensures TInv(s', t) {
      assert TInv(s, t);
      DumpLocalTctx(s, s', t);
    }
    forall th ensures PInv(s', th) {
      assert PInv(s, th);
      DumpLocalThread(s, s', th);
    }
  }

  lemma DumpFacts(s: State)
    requires Inv(s)
    ensures TableInv(s) && DumpInv(s) && s.stale == {}
  {
    assert Open(0);
  }

  lemma DumpStartKeeps(s: State)
    requires Inv(s) && DumpGuard(s, DumpStart) && DumpSafe(s, DumpStart)
    ensures Inv(DumpDo(s, DumpStart))
  {
    DumpFacts(s);
    var s' := DumpDo(s, DumpStart);
    forall x | x in s'.gctxs ensures GInv(s', x) { GctxFacts(s, x); }
    DumpLocalKeeps(s, s');
  }

  lemma PrepOneKeeps(s: State, g: nat)
    requires Inv(s) && DumpGuard(s, PrepOne(g)) && DumpSafe(s, PrepOne(g))
    ensures Inv(DumpDo(s, PrepOne(g)))
  {
    DumpFacts(s);
    GctxFacts(s, g);
    var s' := DumpDo(s, PrepOne(g));
    forall x | x in s'.gctxs ensures GInv(s', x) { GctxFacts(s, x); }
    DumpLocalKeeps(s, s');
  }

  lemma PrepDoneKeeps(s: State)
    requires Inv(s) && DumpGuard(s, PrepDone) && DumpSafe(s, PrepDone)
    ensures Inv(DumpDo(s, PrepDone))
  {
    DumpFacts(s);
    var s' := DumpDo(s, PrepDone);
    forall x | x in s'.gctxs ensures GInv(s', x) { GctxFacts(s, x); }
    DumpLocalKeeps(s, s');
  }

  lemma LockTdataKeeps(s: State, d: nat)
    requires Inv(s) && DumpGuard(s, LockTdata(d)) && DumpSafe(s, LockTdata(d))
    ensures Inv(DumpDo(s, LockTdata(d)))
  {
    DumpFacts(s);
    var s' := DumpDo(s, LockTdata(d));
    forall x | x in s'.gctxs ensures GInv(s', x) { GctxFacts(s, x); }
    forall t | t in s'.dump.visit ensures TInv(s, t) { TctxFacts(s, t); }
    DumpLocalKeeps(s, s');
  }

  lemma UnlockTdataKeeps(s: State)
    requires Inv(s) && DumpGuard(s, UnlockTdata) && DumpSafe(s, UnlockTdata)
    ensures Inv(DumpDo(s, UnlockTdata))
  {
    DumpFacts(s);
    var s' := DumpDo(s, UnlockTdata);
    forall x | x in s'.gctxs ensures GInv(s', x) { GctxFacts(s, x); }
    DumpLocalKeeps(s, s');
  }

  lemma MergeTDoneKeeps(s: State)
    requires Inv(s) && DumpGuard(s, MergeTDone) && DumpSafe(s, MergeTDone)
    ensures Inv(DumpDo(s, MergeTDone))
  {
    DumpFacts(s);
    var s' := DumpDo(s, MergeTDone);
    forall x | x in s'.gctxs ensures GInv(s', x) { GctxFacts(s, x); }
    DumpLocalKeeps(s, s');
  }

  /** The gctx with `c` added to its sum. */
  ghost function Summed(s: State, g: nat, c: int): State
    requires g in s.gctxs && s.dump.MergeG?
  {
    PutG(s, g, s.gctxs[g].(summed := s.gctxs[g].summed + c)).(dump := MergeG(s.dump.todo - {g}, s.dump.total))
  }

  lemma SummedIs(s: State, g: nat, c: int)
    requires DumpGuard(s, MergeGctx(g)) && DumpSafe(s, MergeGctx(g)) && c == Captures(s.tctxs, s.gctxs[g].tree)
    ensures DumpDo(s, MergeGctx(g)) == Summed(s, g, c)
  {
  }

  lemma SummedKeeps(s: State, g: nat, c: int)
    requires Inv(s) && s.dump.MergeG? && g in s.gctxs
    ensures Inv(Summed(s, g, c))
  {
    DumpFacts(s);
    GctxFacts(s, g);
    var s' := Summed(s, g, c);
    forall x | x in s'.gctxs ensures GInv(s', x) { GctxFacts(s, x); }
    DumpLocalKeeps(s, s');
  }

  lemma MergeGctxKeeps(s: State, g: nat)
    requires Inv(s) && DumpGuard(s, MergeGctx(g)) && DumpSafe(s, MergeGctx(g))
    ensures Inv(DumpDo(s, MergeGctx(g)))
  {
    var c := Captures(s.tctxs, s.gctxs[g].tree);
    SummedKeeps(s, g, c);
    SummedIs(s, g, c);
  }

  lemma LeaveKeeps(s: State)
    requires Inv(s) && DumpGuard(s, Leave) && DumpSafe(s, Leave)
    ensures Inv(DumpDo(s, Leave))
  {
    DumpFacts(s);
    var s' := DumpDo(s, Leave);
    forall x | x in s'.gctxs ensures GInv(s', x) { GctxFacts(s, x); }
    forall t | t in s.tctxs ensures TInv(s, t) { TctxFacts(s, t); }
    DumpLocalKeeps(s, s');
  }

  lemma FinishDestroyedKeeps(s: State)
    requires Inv(s) && DumpGuard(s, FinishDestroy) && DumpSafe(s, FinishDestroy)
    requires s.gctxs[s.dump.g].tree == {} && s.gctxs[s.dump.g].nlimbo == 1
    ensures Inv(DumpDo(s, FinishDestroy))
  {
    DumpFacts(s);
    GctxFacts(s, s.dump.g);
    var s' := DumpDo(s, FinishDestroy);
    forall x | x in s'.gctxs ensures GInv(s', x) { GctxFacts(s, x); }
    DumpLocalKeeps(s, s');
  }

  lemma FinishSparedKeeps(s: State)
    requires Inv(s) && DumpGuard(s, FinishDestroy) && DumpSafe(s, FinishDestroy)
    requires !(s.gctxs[s.dump.g].tree == {} && s.gctxs[s.dump.g].nlimbo == 1)
    ensures Inv(DumpDo(s, FinishDestroy))
  {
    DumpFacts(s);
    GctxFacts(s, s.dump.g);
    var s' := DumpDo(s, FinishDestroy);
    forall x | x in s'.gctxs ensures GInv(s', x) { GctxFacts(s, x); }
    DumpLocalKeeps(s, s');
  }

  lemma DumpEndKeeps(s: State)
    requires Inv(s) && DumpGuard(s, DumpEnd) && DumpSafe(s, DumpEnd)
    ensures Inv(DumpDo(s, DumpEnd))
  {
    DumpFacts(s);
    var s' := DumpDo(s, DumpEnd);
    forall x | x in s'.gctxs ensures GInv(s', x) { GctxFacts(s, x); }
    DumpLocalKeeps(s, s');
  }

  /** Context `t` is captured; everything else but the dump's own bookkeeping is as before. */
  ghost predicate CaptureDelta(s: State, s': State, t: nat)
  {
    && s'.pcs == s.pcs && s'.gctxs == s.gctxs && s'.table == s.table && s'.stale == s.stale
    && s.dump.MergeT? && s'.dump.MergeT? && s'.dump.cur == s.dump.cur && s'.dump.done == s.dump.done
    && t in s.tctxs && s'.dump.visit == s.dump.visit - {t}
    && s'.tctxs == s.tctxs[t := s.tctxs[t].(state := Dumping, dumpCnts := s.tctxs[t].cnts)]
  }

  lemma CaptureGctx(s: State, s': State, t: nat, x: nat)
    requires CaptureDelta(s, s', t) && x in s.gctxs && GInv(s, x)
    ensures GInv(s', x)
  {
  }

  lemma CaptureTctx(s: State, s': State, t: nat, x: nat)
    requires CaptureDelta(s, s', t) && x in s.tctxs && TInv(s, x) && s.tctxs[t].state == Nominal
    requires s.tctxs[t].owner == None && s.dump.cur == Some(s.tctxs[t].tdata)
    ensures TInv(s', x)
  {
  }

  lemma CaptureThread(s: State, s': State, t: nat, x: nat)
    requires CaptureDelta(s, s', t) && PInv(s, x) && s.tctxs[t].owner == None
    ensures PInv(s', x)
  {
  }

  lemma CaptureKeeps(s: State, s': State, t: nat)
    requires Inv(s) && CaptureDelta(s, s', t) && DumpInv(s') && s.tctxs[t].state == Nominal
    requires s.tctxs[t].owner == None && s.dump.cur == Some(s.tctxs[t].tdata)
    ensures Inv(s')
  {
    DumpFacts(s);
    forall x | x in s'.gctxs ensures GInv(s', x) { GctxFacts(s, x); CaptureGctx(s, s', t, x); }
    forall x | x in s'.tctxs ensures TInv(s', x) { TctxFacts(s, x); CaptureTctx(s, s', t, x); }
    forall x ensures PInv(s', x) { ThreadFacts(s, x); CaptureThread(s, s', t, x); }
  }

  lemma SkipKeeps(s: State, t: nat)
    requires Inv(s) && DumpGuard(s, MergeOne(t)) && DumpSafe(s, MergeOne(t)) && s.tctxs[t].state == Initializing
    ensures Inv(DumpDo(s, MergeOne(t)))
  {
    DumpFacts(s);
    var s' := DumpDo(s, MergeOne(t));
    forall x | x in s'.gctxs ensures GInv(s', x) { GctxFacts(s, x); }
    DumpLocalKeeps(s, s');
  }

  lemma MergeOneKeeps(s: State, t: nat)
    requires Inv(s) && DumpGuard(s, MergeOne(t)) && DumpSafe(s, MergeOne(t))
    ensures Inv(DumpDo(s, MergeOne(t)))
  {
    if s.tctxs[t].state == Initializing {
      SkipKeeps(s, t);
    } else {
      DumpFacts(s);
      TctxFacts(s, t);
      ThreadFacts(s, if s.tctxs[t].owner.Some? then s.tctxs[t].owner.value else 0);
      CaptureKeeps(s, DumpDo(s, MergeOne(t)), t);
    }
  }

  /** The dump is done with gctx `g`: captured contexts are nominal again, those in purgatory are gone. */
  ghost predicate FinishDelta(s: State, s': State, g: nat)
  {
    && s'.pcs == s.pcs && s'.table == s.table && s'.stale == s.stale
    && g in s.gctxs && g in s'.gctxs && s.dump.Finish? && g in s.dump.todo
    && (s'.dump == Finish(s.dump.todo - {g}) || s'.dump == FinishTry(g, s.dump.todo - {g}))
    && (forall x {:trigger x in s.gctxs} {:trigger x in s'.gctxs} :: x != g ==>
          (x in s'.gctxs <==> x in s.gctxs) && (x in s.gctxs ==> s'.gctxs[x] == s.gctxs[x]))
    && (forall t {:trigger t in s.tctxs} {:trigger t in s'.tctxs} ::
          && (t in s'.tctxs <==> t in s.tctxs && !(t in s.gctxs[g].tree && s.tctxs[t].state == Purgatory))
          && (t in s'.tctxs ==> s'.tctxs[t] == AfterDump(s.tctxs[t], s.gctxs[g].tree, t)))
    && (forall t {:trigger t in s.gctxs[g].tree} {:trigger t in s'.gctxs[g].tree} ::
          t in s'.gctxs[g].tree <==> t in s.gctxs[g].tree && t in s'.tctxs)
    && var x, y := s.gctxs[g], s'.gctxs[g];
       && y.bt == x.bt && y.holders == x.holders && y.leaked == x.leaked && y.dumpHolds == s'.dump.FinishTry?
       && y.nlimbo == x.nlimbo - (if y.dumpHolds then 0 else 1)
       && (y.tree == {} ==> y.nlimbo != 0)
  }

  lemma FinishIsDelta(s: State, g: nat)
    requires DumpGuard(s, FinishOne(g)) && DumpSafe(s, FinishOne(g)) && GInv(s, g)
    ensures FinishDelta(s, DumpDo(s, FinishOne(g)), g)
  {
  }

  lemma FinishTctx(s: State, s': State, g: nat, t: nat)
    requires FinishDelta(s, s', g) && t in s'.tctxs && TInv(s, t)
    ensures TInv(s', t)
  {
    assert InTree(s', t) <==> InTree(s, t);
  }

  lemma FinishThread(s: State, s': State, g: nat, th: nat)
    requires FinishDelta(s, s', g) && PInv(s, th)
    requires OwnT(Pc(s, th)).Some? ==> TInv(s, OwnT(Pc(s, th)).value)
    requires Pc(s, th).Prepared? ==> TInv(s, Pc(s, th).t)
    ensures PInv(s', th)
  {
    if OwnT(Pc(s, th)).Some? {
      assert InTree(s', OwnT(Pc(s, th)).value) <==> InTree(s, OwnT(Pc(s, th)).value);
    }
  }

  lemma FinishGctx(s: State, s': State, g: nat, x: nat)
    requires FinishDelta(s, s', g) && x in s.gctxs && GInv(s, x) && GInv(s, g)
    ensures x in s'.gctxs && GInv(s', x)
  {
  }

  lemma FinishGctxs(s: State, s': State, g: nat)
    requires Inv(s) && FinishDelta(s, s', g)
    ensures forall x {:trigger GInv(s', x)} :: x in s'.gctxs ==> GInv(s', x)
  {
    GctxFacts(s, g);
    forall x | x in s'.gctxs ensures GInv(s', x) {
      GctxFacts(s, x);
      FinishGctx(s, s', g, x);
    }
  }

  lemma FinishThreads(s: State, s': State, g: nat)
    requires Inv(s) && FinishDelta(s, s', g)
    ensures forall x {:trigger PInv(s', x)} :: PInv(s', x)
  {
    forall x ensures PInv(s', x) {
      ThreadFacts(s, x);
      forall t | t in s.tctxs ensures TInv(s, t) { TctxFacts(s, t); }
      FinishThread(s, s', g, x);
    }
  }

  lemma FinishKeeps(s: State, s': State, g: nat)
    requires Inv(s) && FinishDelta(s, s', g)
    ensures Inv(s')
  {
    FinishGctxs(s, s', g);
    FinishThreads(s, s', g);
    DumpFacts(s);
    forall x | x in s'.tctxs ensures TInv(s', x) { TctxFacts(s, x); FinishTctx(s, s', g, x); }
  }

  lemma FinishOneKeeps(s: State, g: nat)
    requires Inv(s) && DumpGuard(s, FinishOne(g)) && DumpSafe(s, FinishOne(g))
    ensures Inv(DumpDo(s, FinishOne(g)))
  {
    assert GInv(s, g) by { assert Open(0); }
    FinishIsDelta(s, g);
    FinishKeeps(s, DumpDo(s, FinishOne(g)), g);
  }

  lemma UnlinkKeeps(s: State, th: nat)
    requires Inv(s) && UseGuard(s, Unlink(th)) && UseSafe(s, Unlink(th))
    ensures Inv(UseDo(s, Unlink(th)))
  {
    var t := Pc(s, th).t;
    if s.tctxs[t].state == Dumping {
      ToPurgatoryKeeps(s, th);
    } else if s.gctxs[s.tctxs[t].gctx].tree == {t} && s.gctxs[s.tctxs[t].gctx].nlimbo == 0 {
      UnlinkAndTryKeeps(s, th);
    } else {
      UnlinkOnlyKeeps(s, th);
    }
  }

  lemma TryDestroyKeeps(s: State, th: nat)
    requires Inv(s) && UseGuard(s, TryDestroyGctx(th)) && UseSafe(s, TryDestroyGctx(th))
    ensures Inv(UseDo(s, TryDestroyGctx(th)))
  {
    if s.gctxs[Pc(s, th).g].tree == {} && s.gctxs[Pc(s, th).g].nlimbo == 1 {
      DestroyGctxKeeps(s, th);
    } else if Pc(s, th).k.Some? {
      SpareGctxKeeps(s, th);
    } else {
      SpareBareGctxKeeps(s, th);
    }
  }

  lemma FinishDestroyKeeps(s: State)
    requires Inv(s) && DumpGuard(s, FinishDestroy) && DumpSafe(s, FinishDestroy)
    ensures Inv(DumpDo(s, FinishDestroy))
  {
    if s.gctxs[s.dump.g].tree == {} && s.gctxs[s.dump.g].nlimbo == 1 {
      FinishDestroyedKeeps(s);
    } else {
      FinishSparedKeeps(s);
    }
  }

  lemma LookupKeeps(s: State, a: LookupAction)
    requires Inv(s) && LookupGuard(s, a) && LookupSafe(s, a) && CleanLookup(a)
    ensures Inv(LookupDo(s, a))
  {
    match a
    case LookupHit(th, t) => LookupHitKeeps(s, th, t);
    case LookupMiss(th, bt) => LookupMissKeeps(s, th, bt);
    case GlobalFail(th) => GlobalFailKeeps(s, th);
    case GlobalNew(th, g) => GlobalNewKeeps(s, th, g);
    case GlobalOld(th) => GlobalOldKeeps(s, th);
    case AllocTctx(th, t) => AllocTctxKeeps(s, th, t);
    case AllocFail(th) => if Pc(s, th).isNew { AllocFailNewKeeps(s, th); } else { AllocFailOldKeeps(s, th); }
    case Insert(th) => InsertKeeps(s, th);
    case GlobalInsertFail(th, g, _) => GlobalInsertFailKeeps(s, th, g);
    case InsertFail(th, _) => if Pc(s, th).isNew { InsertFailNewKeeps(s, th); } else { InsertFailOldKeeps(s, th); }
    case Link(th) => LinkKeeps(s, th);
  }

  lemma UseKeeps(s: State, a: UseAction)
    requires Inv(s) && UseGuard(s, a) && UseSafe(s, a)
    ensures Inv(UseDo(s, a))
  {
    match a
    case Sample(th) => SampleKeeps(s, th);
    case Rollback(th) => RollbackKeeps(s, th);
    case FreeObject(th, t) => FreeObjectKeeps(s, th, t);
    case Unlink(th) => UnlinkKeeps(s, th);
    case TryDestroyGctx(th) => TryDestroyKeeps(s, th);
    case FreeIt(th) => FreeItKeeps(s, th);
  }

  lemma DumpKeeps(s: State, a: DumpAction)
    requires Inv(s) && DumpGuard(s, a) && DumpSafe(s, a)
    ensures Inv(DumpDo(s, a))
  {
    match a
    case DumpStart => DumpStartKeeps(s);
    case PrepOne(g) => PrepOneKeeps(s, g);
    case PrepDone => PrepDoneKeeps(s);
    case LockTdata(d) => LockTdataKeeps(s, d);
    case MergeOne(t) => MergeOneKeeps(s, t);
    case UnlockTdata => UnlockTdataKeeps(s);
    case MergeTDone => MergeTDoneKeeps(s);
    case MergeGctx(g) => MergeGctxKeeps(s, g);
    case Leave => LeaveKeeps(s);
    case FinishOne(g) => FinishOneKeeps(s, g);
    case FinishDestroy => FinishDestroyKeeps(s);
    case DumpEnd => DumpEndKeeps(s);
  }

  // ---------------------------------------------------------------- the dump's counters

  lemma CapturesSplit(tctxs: map<nat, Tctx>, ts: set<nat>, t: nat)
    requires t in ts
    ensures Captures(tctxs, ts) == Weight(tctxs, t) + Captures(tctxs, ts - {t})
    decreases ts
  {
    var u :| u in ts && Captures(tctxs, ts) == Weight(tctxs, u) + Captures(tctxs, ts - {u});
    if u != t {
      CapturesSplit(tctxs, ts - {u}, t);
      CapturesSplit(tctxs, ts - {t}, u);
      assert ts - {u} - {t} == ts - {t} - {u};
    }
  }

  /** Contexts that weigh the same add up to the same. */
  lemma {:induction false} CapturesFrame(m: map<nat, Tctx>, ts: set<nat>, m': map<nat, Tctx>, ts': set<nat>)
    requires forall t {:trigger Weight(m, t)} {:trigger Weight(m', t)} ::
               (if t in ts then Weight(m, t) else 0) == (if t in ts' then Weight(m', t) else 0)
    ensures Captures(m, ts) == Captures(m', ts')
    decreases ts, ts'
  {
    if t :| t in ts {
      CapturesSplit(m, ts, t);
      CapturesFrame(m, ts - {t}, m', ts' - {t});
      if t in ts' {
        CapturesSplit(m', ts', t);
      } else {
        assert ts' - {t} == ts';
      }
    } else if t :| t in ts' {
      CapturesSplit(m', ts', t);
      CapturesFrame(m, ts, m', ts' - {t});
    }
  }
}
