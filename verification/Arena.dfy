/** The arena as an object: every public operation keeps it consistent, whatever the order of calls. */
module ArenaObject {
  import opened Basics
  import opened ArenaState
  import opened ArenaPages
  import opened ArenaZero
  import opened ArenaRuns
  import opened ArenaAlloc
  import opened ArenaOps
  import opened ArenaPurge

  class Arena {
    const cfg: Config
    var fields: Fields
    var sn: map<nat, nat>              // chunk serial numbers
    ghost var runs: map<PageId, Run>

    ghost predicate Valid()
      reads this
    {
      Consistent(cfg, fields, runs)
    }

    /** The runs clients hold. */
    ghost function Held(): map<PageId, Run>
      reads this
    {
      Live(runs)
    }

    constructor (config: Config)
      requires ValidConfig(config)
      ensures cfg == config && Valid() && Held() == map[]
    {
      cfg := config;
      fields := EmptyFields(config);
      sn := map[];
      runs := map[];
      new;
      EmptyConsistent(cfg);
    }

    /** The chunk layer's answers, when no other thread intervenes while arena->lock is dropped. */
    ghost predicate Alone(env: Answers)
      reads this
    {
      env.sn == sn && env.later == fields && CanOffer(fields, env.source)
    }

    /** Exactly when a run of `size` pages cannot be had. */
    ghost predicate Exhausted(size: nat, env: Answers)
      requires Valid() && 1 <= size <= MaxRun(cfg)
      reads this
    {
      Refused(cfg, sn, fields, runs, size, env, runs)
    }

    /** A chunk that the arena takes over brings its serial number. */
    method Register(env: Answers, dropped: bool)
      modifies this`sn
      ensures sn == if dropped && env.source.NewChunk? then old(sn)[env.source.addr := env.source.sn] else old(sn)
    {
      if dropped && env.source.NewChunk? {
        sn := sn[env.source.addr := env.source.sn];
      }
    }

    /** The runs that an allocation chooses from: those of the arena, with the new chunk if one is needed and had. */
    ghost function Pool(size: nat, env: Answers): map<PageId, Run>
      requires Valid() && 1 <= size <= MaxRun(cfg)
      reads this
    {
      Base(cfg, runs, env, runs, fields.spare.None? && NoFit(cfg, sn, fields, runs, size, env.firstFails))
    }

    /** The pages that a new chunk, if one is needed and had, brings as zero. */
    ghost function NewZero(size: nat, env: Answers): set<PageId>
      requires Valid() && 1 <= size <= MaxRun(cfg)
      reads this
    {
      if fields.spare.None? && NoFit(cfg, sn, fields, runs, size, env.firstFails) then SourceZero(cfg, env.source)
      else {}
    }

    /** arena_malloc_large: `size` pages, padding included. */
    method MallocLarge(size: nat, zero: bool, env: Answers) returns (r: Option<PageId>, cleared: set<PageId>)
      requires Valid() && 1 <= size <= MaxRun(cfg) && Alone(env)
      modifies this`fields, this`runs, this`sn
      ensures Valid() && HandedOut(old(Held()), Held(), size, LargeRun(zero), r)
      ensures fields.nactive == old(fields.nactive) + Handed(size, r)
      ensures r.None? <==> old(Exhausted(size, env))
      ensures ChunksAfter(cfg, old(sn), old(fields), old(runs), size, env, fields)
      ensures if r.None? then runs == old(Pool(size, env))
              else Took(old(Pool(size, env)), runs, fields.maps.Keys, size, LargeRun(zero), r.value)
      ensures r.Some? ==> ChosenFrom(cfg, old(sn), old(fields), old(runs), size, env, r.value)
      ensures ZeroKept(old(fields.maps), old(runs), fields.maps, runs, old(NewZero(size, env)))
      ensures ZeroServed(old(fields.maps), old(runs), old(NewZero(size, env)), size, LargeRun(zero), r, cleared)
    {
      var b, dropped;
      ghost var after;
      b, after, r, dropped, cleared := AllocRun(cfg, sn, fields, runs, size, LargeRun(zero), env, runs);
      Register(env, dropped);
      fields, runs := b, after;
    }

    /** arena_bin_nonfull_run_get: a run of `size` pages for bin `binind`. */
    method AllocSmallRun(size: nat, binind: nat, env: Answers) returns (r: Option<PageId>)
      requires Valid() && 1 <= size <= MaxRun(cfg) && Alone(env)
      modifies this`fields, this`runs, this`sn
      ensures Valid() && HandedOut(old(Held()), Held(), size, SmallRun(binind), r)
      ensures fields.nactive == old(fields.nactive) + Handed(size, r)
      ensures r.None? <==> old(Exhausted(size, env))
      ensures ChunksAfter(cfg, old(sn), old(fields), old(runs), size, env, fields)
      ensures if r.None? then runs == old(Pool(size, env))
              else Took(old(Pool(size, env)), runs, fields.maps.Keys, size, SmallRun(binind), r.value)
      ensures r.Some? ==> ChosenFrom(cfg, old(sn), old(fields), old(runs), size, env, r.value)
      ensures ZeroKept(old(fields.maps), old(runs), fields.maps, runs, old(NewZero(size, env)))
    {
      var b, dropped, cleared;
      ghost var after;
      b, after, r, dropped, cleared := AllocRun(cfg, sn, fields, runs, size, SmallRun(binind), env, runs);
      Register(env, dropped);
      fields, runs := b, after;
    }

    /** arena_palloc_large. */
    method AlignedAlloc(usize: nat, alignment: nat, zero: bool, env: Answers, leadRecorded: bool, trailRecorded: bool)
      returns (r: Option<PageId>, cleared: set<PageId>, ghost fit: PageId, ghost whole: map<PageId, Run>)
      requires Valid() && Alone(env)
      requires 1 <= usize && 1 <= alignment && AllocSize(cfg, usize, alignment) <= MaxRun(cfg)
      modifies this`fields, this`runs, this`sn
      ensures Valid() && HandedOut(old(Held()), Held(), usize + cfg.pad, LargeRun(zero), r)
      ensures r.Some? ==> PageAddress(cfg, r.value) % alignment == 0
      ensures fields.nactive == old(fields.nactive) + Handed(usize + cfg.pad, r)
      ensures r.None? <==> old(Exhausted(AllocSize(cfg, usize, alignment), env))
      ensures ChunksAfter(cfg, old(sn), old(fields), old(runs), AllocSize(cfg, usize, alignment), env, fields)
      ensures r.None? ==> runs == old(Pool(AllocSize(cfg, usize, alignment), env))
      ensures r.Some? ==> ChosenFrom(cfg, old(sn), old(fields), old(runs), AllocSize(cfg, usize, alignment), env, fit)
      ensures r.Some? ==> CutOut(old(Pool(AllocSize(cfg, usize, alignment), env)), whole, runs, fields.maps.Keys, fit,
                                 AllocSize(cfg, usize, alignment), r.value, usize + cfg.pad)
      ensures var extra := old(NewZero(AllocSize(cfg, usize, alignment), env));
              && ZeroKept(old(fields.maps), old(runs), fields.maps, runs, extra)
              && ZeroServed(old(fields.maps), old(runs), extra, usize + cfg.pad, LargeRun(zero), r, cleared)
    {
      var b, dropped;
      ghost var after;
      b, after, r, dropped, cleared, fit, whole := PallocLarge(cfg, sn, fields, runs, usize, alignment, zero, env, runs,
                                                               leadRecorded, trailRecorded);
      Register(env, dropped);
      fields, runs := b, after;
    }

    /** arena_dalloc_large and arena_dalloc_bin_run: the run is returned dirty. */
    method Free(id: PageId, smallPages: nat, recorded: bool)
      requires Valid() && id in Held()
      requires Held()[id].kind.Small? ==> smallPages == Held()[id].n
      requires Held()[id].kind.Large? ==> !Held()[id].kind.decommitted
      modifies this`fields, this`runs
      ensures Valid() && Held() == old(Held()) - {id}
      ensures fields.nactive == old(fields.nactive) - old(Held())[id].n
      ensures id in old(runs) && Freed(cfg, old(fields), old(runs), fields, runs, id, true, false, recorded)
      ensures forall x :: x in Interval(id, old(runs)[id].n) ==> LiesIn(fields, runs, x, ArenaState.Free(true, false))
      ensures ZeroKept(old(fields.maps), old(runs), fields.maps, runs, {})
    {
      LiveEntry(runs, id);
      var b;
      ghost var after;
      b, after := FreeRun(cfg, fields, runs, id, smallPages, true, false, false, recorded);
      fields, runs := b, after;
    }

    /** arena_ralloc_large_shrink. */
    method Shrink(id: PageId, size: nat, less: nat, recorded: bool)
      requires Valid() && id in Held() && Held()[id].kind.Large? && !Held()[id].kind.decommitted
      requires 1 <= size && 1 <= less && Held()[id].n == (size + cfg.pad) + less
      modifies this`fields, this`runs
      ensures Valid() && Held() == old(Held())[id := Run(size + cfg.pad, old(Held())[id].kind)]
      ensures fields.nactive == old(fields.nactive) - less
      ensures Shrunk(cfg, old(fields), old(runs), fields, runs, id, size, less)
      ensures ZeroKept(old(fields.maps), old(runs), fields.maps, runs, {})
    {
      LiveEntry(runs, id);
      assert Held()[id].kind == runs[id].kind;
      var b;
      ghost var after;
      b, after := RallocLargeShrink(cfg, fields, runs, id, size, less, recorded);
      fields, runs := b, after;
    }

    /** arena_ralloc_large_grow. */
    method Grow(classes: seq<nat>, id: PageId, oldsize: nat, usizeMin: nat, maxInd: nat, commitFails: bool, zero: bool)
      returns (err: bool, usize: nat, cleared: set<PageId>)
      requires Valid() && id in Held() && Held()[id].kind.Large? && !Held()[id].kind.decommitted
      requires Held()[id].n == oldsize + cfg.pad
      requires Increasing(classes) && maxInd < |classes| && oldsize in classes && oldsize <= classes[maxInd]
      requires usizeMin in classes && usizeMin <= classes[maxInd]
      modifies this`fields, this`runs
      ensures Valid()
      ensures err <==> old(CannotGrow(classes, id, oldsize, usizeMin, maxInd, commitFails))
      ensures err ==> Held() == old(Held())
      ensures !err ==> LargestWithin(classes, maxInd, oldsize + old(Room(runs, id, oldsize + cfg.pad)), usize)
      ensures !err ==> id in Held() && Held()[id].n == usize + cfg.pad && Held() == old(Held())[id := Held()[id]]
      ensures !err ==> oldsize < usize && fields.nactive == old(fields.nactive) + (usize - oldsize)
      ensures !err ==> Grown(old(fields), old(runs), fields, runs, id, oldsize + cfg.pad, usize - oldsize)
      ensures ZeroKept(old(fields.maps), old(runs), fields.maps, runs, {})
      ensures if zero && !err then ZeroMet(old(fields.maps), old(runs), {}, NewPages(cfg, id, oldsize, usize), cleared)
              else cleared == {}
    {
      LiveEntry(runs, id);
      ghost var before := Live(runs);
      fields, runs, err, usize, cleared := RallocLargeGrow(cfg, fields, runs, classes, id, oldsize, usizeMin, maxInd,
                                                           commitFails, zero);
      LiveEntry(runs, id);
    }

    /** The free run after the allocation is too short, gains no size class, or cannot be committed. */
    ghost predicate CannotGrow(classes: seq<nat>, id: PageId, oldsize: nat, usizeMin: nat, maxInd: nat,
                               commitFails: bool)
      requires maxInd < |classes|
      reads this
    {
      var room := Room(runs, id, oldsize + cfg.pad);
      || oldsize + room < usizeMin
      || NothingGained(classes, maxInd, oldsize + room, oldsize)
      || CommitRefused(runs, Page(id.chunk, id.ind + oldsize + cfg.pad), commitFails)
    }

    /** arena_purge_to_limit, when no other thread intervenes: no allocation is disturbed. */
    method Purge(elems: seq<Dirty>, limit: nat, mode: Mode, hooks: Hooks) returns (k: nat)
      requires Valid() && Queued(fields.ring, fields.cache, elems)
      modifies this`fields, this`runs
      ensures Valid() && Held() == old(Held()) && fields.nactive == old(fields.nactive)
      ensures StopsAt(mode, old(fields.ndirty), Sizes(cfg, old(runs), elems), limit, k)
      ensures Purged(old(fields), old(runs), fields, runs, elems, hooks, k)
      ensures forall j :: 0 <= j < k && elems[j].DirtyRun? ==> elems[j].id !in fields.ring
      ensures fields.ndirty == old(fields.ndirty) - Prefix(Sizes(cfg, old(runs), elems), k)
                               + PurgeShare(cfg, old(fields), old(runs), fields, elems, k)
      ensures ZeroKept(old(fields.maps), old(runs), fields.maps, runs, ZeroedOf(old(runs), elems, hooks, k))
    {
      var b;
      ghost var after;
      b, after, k := PurgeToLimit(cfg, fields, runs, elems, limit, mode, hooks);
      fields, runs := b, after;
    }

    /** Its first part, up to where arena->lock is dropped: what is stashed looks allocated to all others. */
    method Stash(elems: seq<Dirty>, limit: nat, mode: Mode) returns (stashed: seq<Dirty>, npurge: nat)
      requires Valid() && Queued(fields.ring, fields.cache, elems)
      modifies this`fields, this`runs
      ensures Valid() && stashed <= elems
      ensures StopsAt(mode, old(fields.ndirty), Sizes(cfg, old(runs), elems), limit, |stashed|)
      ensures fields.ndirty == old(fields.ndirty) - npurge && npurge == Prefix(Sizes(cfg, old(runs), elems), |stashed|)
      ensures Taken(stashed) && npurge == Sum(Sizes(cfg, runs, stashed)) && Held() - Ids(stashed) == old(Held())
      ensures StashedPages(old(fields), old(runs), fields, runs, elems, |stashed|)
    {
      ghost var before, runs0 := fields, runs;
      var k;
      fields, runs, k, npurge := StashDirty(cfg, fields, runs, elems, limit, mode);
      StashedReady(cfg, before, runs0, fields, runs, elems, k);
      stashed := elems[..k];
    }

    /** The stashed runs are allocated, and nobody else's. */
    ghost predicate Taken(stashed: seq<Dirty>)
      reads this
    {
      && Distinct(stashed)
      && forall j :: 0 <= j < |stashed| && stashed[j].DirtyRun? ==>
           stashed[j].id in runs && runs[stashed[j].id].kind == Large(true, false)
    }

    /** Its second part, after any operations of other threads on their own runs. */
    method Unstash(stashed: seq<Dirty>, npurge: nat, hooks: Hooks)
      requires Valid() && Taken(stashed) && npurge == Sum(Sizes(cfg, runs, stashed))
      modifies this`fields, this`runs
      ensures Valid() && Held() == old(Held()) - Ids(stashed)
      ensures GivenPages(old(fields), old(runs), fields, runs, stashed, hooks, |stashed|)
      ensures fields.ndirty == old(fields.ndirty) + LeftShare(cfg, old(fields), old(runs), fields)
    {
      fields, runs := FinishPurge(cfg, fields, runs, stashed, npurge, hooks);
    }
  }
}
