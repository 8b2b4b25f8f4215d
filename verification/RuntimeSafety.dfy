/** What holds in every state and at every step of every run of the runtime manager. */
module RuntimeSafety {
  import opened Options
  import opened Sets
  import opened RuntimeState
  import opened RuntimeCapacity
  import opened RuntimeRuns

  // ----- one step -----

  lemma SyncKeeps(cfg: Config, s: State, generation: nat, p: Phase)
    requires TableOk(cfg, s) && PhaseOk(s.bindings, p)
    ensures TableOk(cfg, Sync(s, generation)) && PhaseOk(Sync(s, generation).bindings, p)
  {
    SyncOnlyReleases(s, generation);
    OnlyReleasesKeepsTable(cfg, s, Sync(s, generation), p);
  }

  lemma SyncOnlyReleases(s: State, generation: nat)
    ensures OnlyReleases(s, Sync(s, generation))
  {
    assert Sync(s, generation).released[|s.released|..] == [];
  }

  lemma CollectKeeps(cfg: Config, s: State, w: Sweep, suppress: bool, c: Collection)
    requires TableOk(cfg, s) && SweepFits(s, w) && CollectionFits(cfg, SweepUnbound(s, w).0, c)
    ensures TableOk(cfg, Collect(s, w, suppress, c).0) && Collect(s, w, suppress, c).0.active == s.active
  {
    CollectShrinks(cfg, s, w, suppress, c);
    ShrinksKeepsTable(cfg, s, Collect(s, w, suppress, c).0);
  }

  lemma CloseKeepsActive(s: State, runtime: nat, release: bool, unfinished: bool, a: Answer, now: int, saveOk: bool)
    ensures Close(s, runtime, release, unfinished, a, now, saveOk).0.active == s.active
  {
  }

  lemma SameIdentitiesReflexive(a: map<nat, Binding>)
    ensures SameIdentities(a, a)
  {
  }

  /** Only the request counts change. */
  lemma ActiveChange(cfg: Config, s: State, t: State, p: Phase)
    requires TableOk(cfg, s) && PhaseOk(s.bindings, p) && ActiveInTable(t)
    requires t.bindings == s.bindings && t.durable == s.durable
    ensures TableOk(cfg, t) && PhaseOk(t.bindings, p)
  {
  }

  lemma StartKeeps(cfg: Config, s: State, slots: map<nat, Option<nat>>, p: Phase, holder: nat, runtime: nat,
          thread: nat, running: bool)
    requires TableOk(cfg, s) && PhaseOk(s.bindings, p) && SlotsOk(cfg, slots, s.active)
    requires holder in slots && slots[holder] == None
    ensures var t := RegisterRequest(s, runtime, thread, running);
      && TableOk(cfg, t.0) && PhaseOk(t.0.bindings, p)
      && SlotsOk(cfg, if t.1 then slots[holder := Some(runtime)] else slots, t.0.active)
  {
    RegisterOutcome(s, runtime, thread, running);
    var t := RegisterRequest(s, runtime, thread, running);
    if t.1 {
      RegistrationKeepsSlots(cfg, slots, holder, s.active, t.0.active, runtime);
      ActiveChange(cfg, s, t.0, p);
    } else {
      LookupKeepsTable(cfg, s, runtime, running, p);
    }
  }

  lemma RegisterOutcome(s: State, runtime: nat, thread: nat, running: bool)
    ensures var t := RegisterRequest(s, runtime, thread, running);
      if t.1 then
        && t.0.bindings == s.bindings && t.0.durable == s.durable && runtime in s.bindings
        && t.0.active == s.active[runtime := ActiveOf(s.active, runtime) + 1]
      else t.0 == ActiveBinding(s, runtime, running).0
  {
  }

  lemma FinishCounts(s: State, runtime: nat, now: int, saveOk: bool)
    requires runtime in s.active && s.active[runtime] > 0
    ensures var t := FinishRequest(s, runtime, now, saveOk);
      && ActiveOf(t.active, runtime) == ActiveOf(s.active, runtime) - 1
      && (forall r :: r != runtime ==> ActiveOf(t.active, r) == ActiveOf(s.active, r))
      && (forall r :: r in t.active ==> r in s.active && (r != runtime ==> t.active[r] == s.active[r]))
      && (runtime in t.active ==> t.active[runtime] > 0)
  {
  }

  lemma EndKeeps(cfg: Config, s: State, slots: map<nat, Option<nat>>, p: Phase, holder: nat, now: int, saveOk: bool)
    requires TableOk(cfg, s) && PhaseOk(s.bindings, p) && SlotsOk(cfg, slots, s.active)
    requires holder in slots && slots[holder].Some?
    ensures var t := FinishRequest(s, slots[holder].value, now, saveOk);
      TableOk(cfg, t) && PhaseOk(t.bindings, p) && SlotsOk(cfg, slots[holder := None], t.active)
  {
    var r := slots[holder].value;
    RegisteredIsActive(cfg, slots, s.active, holder);
    TouchKeepsTable(cfg, s, r, now, None, saveOk, p);
    FinishCounts(s, r, now, saveOk);
    var t, u := Touch(s, r, now, None, saveOk), FinishRequest(s, r, now, saveOk);
    FinishKeepsSlots(cfg, slots, holder, s.active, u.active, r);
    FinishIsTouch(s, r, now, saveOk);
    ActiveChange(cfg, t, u, p);
  }

  lemma FinishIsTouch(s: State, runtime: nat, now: int, saveOk: bool)
    ensures var t, u := Touch(s, runtime, now, None, saveOk), FinishRequest(s, runtime, now, saveOk);
      u.bindings == t.bindings && u.durable == t.durable
  {
  }

  lemma SectionKeepsInv(cfg: Config, y: System, e: Section)
    requires Inv(cfg, y) && MayServe(cfg, y, e)
    ensures TableOk(cfg, SectionState(y.state, y.slots, e)) && PhaseOk(SectionState(y.state, y.slots, e).bindings, y.phase)
    ensures SlotsOk(cfg, SectionSlots(y.state, y.slots, e), SectionState(y.state, y.slots, e).active)
  {
    match e
    case SyncConnection(generation) => SyncKeeps(cfg, y.state, generation, y.phase);
    case CollectIdle(w, suppress, c) => CollectKeeps(cfg, y.state, w, suppress, c);
    case CloseRuntime(runtime, release, unfinished, a, now, saveOk) =>
      CloseKeepsTable(cfg, y.state, runtime, release, unfinished, a, now, saveOk);
      CloseKeepsActive(y.state, runtime, release, unfinished, a, now, saveOk);
    case LookUp(runtime, running) => LookupKeepsTable(cfg, y.state, runtime, running, y.phase);
    case TakeSlot(holder) => FreeSlotsChange(cfg, y.slots, y.state.active, holder);
    case StartRequest(holder, runtime, thread, running) =>
      StartKeeps(cfg, y.state, y.slots, y.phase, holder, runtime, thread, running);
    case EndRequest(holder, now, saveOk) => EndKeeps(cfg, y.state, y.slots, y.phase, holder, now, saveOk);
    case GiveSlot(holder) => FreeSlotsChange(cfg, y.slots, y.state.active, holder);
    case TouchRuntime(runtime, now, servers, saveOk) => TouchKeepsTable(cfg, y.state, runtime, now, servers, saveOk, y.phase);
    case ShutDown => ShutdownKeepsTable(cfg, y.state);
  }

  lemma MakeRoomKeeps(cfg: Config, s: State, p: Phase, c: Collection, v: Eviction)
    requires TableOk(cfg, s) && p.ToOpen? && RequestOk(s.bindings, p.request) && CapacityFits(cfg, s, c, v)
    ensures var t := EnsureCapacity(cfg, s, 1, c, v).0;
      TableOk(cfg, t) && RequestOk(t.bindings, p.request) && t.active == s.active
  {
    var t := EnsureCapacity(cfg, s, 1, c, v).0;
    EnsureCapacityShrinks(cfg, s, 1, c, v);
    ShrinksKeepsTable(cfg, s, t);
    ShrinksKeepsRequest(s, t, p.request);
  }

  lemma InsertKeepsAll(cfg: Config, s: State, runtime: nat, b: Binding, c: Collection, v: Eviction, saveOk: bool)
    requires TableOk(cfg, s) && CapacityFits(cfg, s, c, v)
    requires runtime !in s.bindings && b.thread !in Bound(s.bindings)
    ensures var t := Insert(cfg, s, runtime, b, c, v, saveOk).0; TableOk(cfg, t) && t.active == s.active
  {
    InsertKeeps(cfg, s, runtime, b, c, v, saveOk);
    InsertKeepsTable(cfg, s, runtime, b, c, v, saveOk);
  }

  lemma ReleaseKeeps(cfg: Config, s: State, p: Phase, thread: nat, a: Answer)
    requires TableOk(cfg, s) && PhaseOk(s.bindings, p)
    ensures var t := ReleaseThread(s, thread, a).0; TableOk(cfg, t) && PhaseOk(t.bindings, p) && t.active == s.active
  {
    ReleaseOnlyReleases(s, thread, a);
    OnlyReleasesKeepsTable(cfg, s, ReleaseThread(s, thread, a).0, p);
  }

  lemma AllocationKeepsTable(cfg: Config, y: System, e: Allocation)
    requires TableOk(cfg, y.state) && PhaseOk(y.state.bindings, y.phase) && MayAllocate(cfg, y, e)
    ensures TableOk(cfg, AllocationState(cfg, y.state, y.phase, e))
    ensures AllocationState(cfg, y.state, y.phase, e).active == y.state.active
  {
    match e
    case MakeRoom(c, v) => MakeRoomKeeps(cfg, y.state, y.phase, c, v);
    case InsertBinding(runtime, now, c, v, saveOk) =>
      InsertKeepsAll(cfg, y.state, runtime, Opened(y.phase, now), c, v, saveOk);
    case RebindRuntime(runtime, now, c, v, saveOk) =>
      StoringKeepsTable(cfg, y.state, y.phase, runtime, now, c, v, saveOk);
    case RetryRelease(a) => ReleaseKeeps(cfg, y.state, y.phase, y.phase.thread, a);
    case Compensate(a) => ReleaseKeeps(cfg, y.state, y.phase, y.phase.thread, a);
    case ReleasePrevious(a) => ReleaseKeeps(cfg, y.state, y.phase, y.phase.thread, a);
    case _ =>
  }

  lemma AllocationKeepsPhase(cfg: Config, y: System, e: Allocation)
    requires TableOk(cfg, y.state) && PhaseOk(y.state.bindings, y.phase) && MayAllocate(cfg, y, e)
    ensures PhaseOk(AllocationState(cfg, y.state, y.phase, e).bindings, AllocationPhase(cfg, y.state, y.phase, e))
  {
    match e
    case MakeRoom(_, _) => MakingRoomKeepsPhase(cfg, y.state, y.phase, e);
    case RetryRelease(_) => RetryKeepsPhase(cfg, y.state, y.phase, e);
    case InsertBinding(_, _, _, _, _) => LastSectionsKnowNothing(cfg, y.state, y.phase, e);
    case RebindRuntime(_, _, _, _, _) => LastSectionsKnowNothing(cfg, y.state, y.phase, e);
    case Compensate(_) => LastSectionsKnowNothing(cfg, y.state, y.phase, e);
    case ReleasePrevious(_) => LastSectionsKnowNothing(cfg, y.state, y.phase, e);
    case _ => QuietSectionKeepsPhase(cfg, y, e);
  }

  lemma MakingRoomKeepsPhase(cfg: Config, s: State, p: Phase, e: Allocation)
    requires TableOk(cfg, s) && PhaseOk(s.bindings, p) && e.MakeRoom?
    requires p.ToOpen? && CapacityFits(cfg, s, e.collection, e.eviction)
    ensures PhaseOk(AllocationState(cfg, s, p, e).bindings, AllocationPhase(cfg, s, p, e))
  {
    MakeRoomKeeps(cfg, s, p, e.collection, e.eviction);
  }

  lemma RetryKeepsPhase(cfg: Config, s: State, p: Phase, e: Allocation)
    requires TableOk(cfg, s) && PhaseOk(s.bindings, p) && e.RetryRelease? && p.ToResume?
    ensures PhaseOk(AllocationState(cfg, s, p, e).bindings, AllocationPhase(cfg, s, p, e))
  {
    ReleaseKeeps(cfg, s, p, p.thread, e.answer);
  }

  /** After the section that stores its outcome an allocation relies on nothing in the table. */
  lemma LastSectionsKnowNothing(cfg: Config, s: State, p: Phase, e: Allocation)
    requires (e.InsertBinding? && p.Started?) || (e.RebindRuntime? && p.Resumed?) || e.Compensate? || e.ReleasePrevious?
    ensures var next := AllocationPhase(cfg, s, p, e); next.Free? || next.ToCompensate? || next.ToReleasePrevious?
  {
  }

  /** The sections of an allocation that leave the table alone. */
  lemma QuietSectionKeepsPhase(cfg: Config, y: System, e: Allocation)
    requires PhaseOk(y.state.bindings, y.phase) && MayAllocate(cfg, y, e)
    requires !e.MakeRoom? && !e.RetryRelease? && !e.InsertBinding? && !e.RebindRuntime? && !e.Compensate? && !e.ReleasePrevious?
    ensures AllocationState(cfg, y.state, y.phase, e) == y.state
    ensures PhaseOk(y.state.bindings, AllocationPhase(cfg, y.state, y.phase, e))
  {
    if e.ResumeThread? {
      HolderIsKnown(y.state.bindings, e.thread);
    }
  }

  lemma StepKeepsInv(cfg: Config, y: System, e: Event)
    requires Inv(cfg, y) && Enabled(cfg, y, e)
    ensures Inv(cfg, Step(cfg, y, e))
  {
    match e
    case Allocate(a) =>
      AllocationKeepsTable(cfg, y, a);
      AllocationKeepsPhase(cfg, y, a);
    case Serve(section) => SectionKeepsInv(cfg, y, section);
  }

  // ----- every run -----

  ghost predicate IsRun(cfg: Config, y: System, events: seq<Event>)
    decreases |events|
  {
    events == [] || (Enabled(cfg, y, events[0]) && IsRun(cfg, Step(cfg, y, events[0]), events[1..]))
  }

  ghost function After(cfg: Config, y: System, events: seq<Event>): System
    requires IsRun(cfg, y, events)
    decreases |events|
  {
    if events == [] then y else After(cfg, Step(cfg, y, events[0]), events[1..])
  }

  lemma {:induction false} RunKeepsInv(cfg: Config, y: System, events: seq<Event>)
    requires Inv(cfg, y) && IsRun(cfg, y, events)
    ensures Inv(cfg, After(cfg, y, events))
    decreases |events|
  {
    if events != [] {
      StepKeepsInv(cfg, y, events[0]);
      RunKeepsInv(cfg, Step(cfg, y, events[0]), events[1..]);
    }
  }

  /** A manager that has just loaded its bindings. */
  function Loaded(bindings: map<nat, Binding>, generation: nat): System {
    System(State(bindings, bindings, {}, {}, map[], generation, []), Free, map[])
  }

  ghost function TotalActive(active: map<nat, nat>): nat
    decreases |active|
  {
    if active == map[] then 0 else active[Pick(active)] + TotalActive(active - {Pick(active)})
  }

  ghost function Pick(active: map<nat, nat>): nat
    requires active != map[]
    ensures Pick(active) in active
  {
    assert active.Keys != {};
    var r :| r in active; r
  }

  ghost function HoldersOf(slots: map<nat, Option<nat>>, runtimes: set<nat>): set<nat> {
    set h | h in slots && slots[h].Some? && slots[h].value in runtimes
  }

  lemma {:induction false} TotalIsHolders(slots: map<nat, Option<nat>>, active: map<nat, nat>)
    requires forall r :: r in active ==> active[r] == |Holders(slots, r)|
    ensures TotalActive(active) == |HoldersOf(slots, active.Keys)|
    decreases |active|
  {
    if active == map[] {
      assert HoldersOf(slots, active.Keys) == {};
    } else {
      var r := Pick(active);
      var rest := active - {r};
      TotalIsHolders(slots, rest);
      assert HoldersOf(slots, active.Keys) == HoldersOf(slots, rest.Keys) + Holders(slots, r);
      assert HoldersOf(slots, rest.Keys) !! Holders(slots, r);
    }
  }

  /** In every reachable state, whatever saves and releases failed: the table is within its
      limit, each thread is bound once, disk and memory name the same runtimes, and requests
      are counted exactly, only for runtimes in the table and within the concurrency limit. */
  lemma EveryReachableState(cfg: Config, bindings: map<nat, Binding>, generation: nat, events: seq<Event>)
    requires Distinct(bindings) && |bindings| <= cfg.maxRuntimes
    requires IsRun(cfg, Loaded(bindings, generation), events)
    ensures var y := After(cfg, Loaded(bindings, generation), events);
      && |y.state.bindings| <= cfg.maxRuntimes
      && Distinct(y.state.bindings)
      && SameIdentities(y.state.durable, y.state.bindings)
      && ActiveInTable(y.state)
      && (forall r :: ActiveOf(y.state.active, r) == |Holders(y.slots, r)|)
      && TotalActive(y.state.active) <= cfg.maxConcurrency
  {
    var y0 := Loaded(bindings, generation);
    forall r ensures Holders(y0.slots, r) == {} {
    }
    SameIdentitiesReflexive(bindings);
    assert Inv(cfg, y0);
    RunKeepsInv(cfg, y0, events);
    var y := After(cfg, y0, events);
    TotalWithin(cfg, y.slots, y.state.active);
  }

  lemma TotalWithin(cfg: Config, slots: map<nat, Option<nat>>, active: map<nat, nat>)
    requires SlotsOk(cfg, slots, active)
    ensures TotalActive(active) <= cfg.maxConcurrency
  {
    forall r | r in active ensures active[r] == |Holders(slots, r)| {
      assert ActiveOf(active, r) == |Holders(slots, r)|;
    }
    TotalIsHolders(slots, active);
    SubsetSize(HoldersOf(slots, active.Keys), slots.Keys);
    assert |slots| == |slots.Keys|;
  }

  // ----- what a step may do to a binding -----

  lemma CloseKeepsKeys(s: State, runtime: nat, release: bool, unfinished: bool, a: Answer, now: int, saveOk: bool)
    ensures Close(s, runtime, release, unfinished, a, now, saveOk).0.bindings.Keys == s.bindings.Keys
  {
  }

  lemma StoringLeaves(cfg: Config, s: State, p: Phase, runtime: nat, now: int, c: Collection, v: Eviction, saveOk: bool)
    requires TableOk(cfg, s) && p.Resumed? && PhaseOk(s.bindings, p)
    requires p.existing.None? ==> runtime !in s.bindings && CapacityFits(cfg, s, c, v)
    ensures LeavesReleased(s, StoreResumed(cfg, s, p, runtime, now, c, v, saveOk).0)
    ensures p.existing.None? ==> Spares(s, StoreResumed(cfg, s, p, runtime, now, c, v, saveOk).0)
  {
    if p.existing.None? {
      InsertKeeps(cfg, s, runtime, NewBinding(p.thread, p.cwd, p.sandbox, None, now), c, v, saveOk);
    }
  }

  lemma AllocationLeaves(cfg: Config, y: System, e: Allocation)
    requires Inv(cfg, y) && MayAllocate(cfg, y, e)
    ensures LeavesReleased(y.state, AllocationState(cfg, y.state, y.phase, e))
    ensures !e.RebindRuntime? || y.phase.existing.None? ==> Spares(y.state, AllocationState(cfg, y.state, y.phase, e))
  {
    SparesItself(y.state);
    match e
    case MakeRoom(c, v) => EnsureCapacityShrinks(cfg, y.state, 1, c, v);
    case InsertBinding(runtime, now, c, v, saveOk) =>
      InsertKeeps(cfg, y.state, runtime, Opened(y.phase, now), c, v, saveOk);
    case RebindRuntime(runtime, now, c, v, saveOk) => StoringLeaves(cfg, y.state, y.phase, runtime, now, c, v, saveOk);
    case RetryRelease(a) => ReleaseLeaves(y.state, y.phase.thread, a);
    case Compensate(a) => ReleaseLeaves(y.state, y.phase.thread, a);
    case ReleasePrevious(a) => ReleaseLeaves(y.state, y.phase.thread, a);
    case _ => assert AllocationState(cfg, y.state, y.phase, e) == y.state;
  }

  lemma SparesItself(s: State)
    ensures Spares(s, s) && LeavesReleased(s, s)
  {
    assert s.released[|s.released|..] == [];
  }

  lemma ReleaseLeaves(s: State, thread: nat, a: Answer)
    ensures LeavesReleased(s, ReleaseThread(s, thread, a).0) && Spares(s, ReleaseThread(s, thread, a).0)
  {
    ReleaseOnlyReleases(s, thread, a);
  }

  lemma SectionLeaves(cfg: Config, y: System, e: Section)
    requires Inv(cfg, y) && MayServe(cfg, y, e)
    ensures LeavesReleased(y.state, SectionState(y.state, y.slots, e))
  {
    match e
    case CollectIdle(w, suppress, c) => CollectShrinks(cfg, y.state, w, suppress, c);
    case CloseRuntime(runtime, release, unfinished, a, now, saveOk) =>
      CloseKeepsKeys(y.state, runtime, release, unfinished, a, now, saveOk);
    case _ => OthersKeepKeys(y.state, y.slots, e);
  }

  lemma OthersKeepKeys(s: State, slots: map<nat, Option<nat>>, e: Section)
    requires !e.CollectIdle? && !e.CloseRuntime?
    ensures SectionState(s, slots, e).bindings.Keys == s.bindings.Keys
  {
  }

  lemma OthersKeepNames(s: State, slots: map<nat, Option<nat>>, e: Section)
    requires !e.CollectIdle? && !e.CloseRuntime?
    ensures NamesFrom(s.bindings, SectionState(s, slots, e).bindings)
  {
    match e
    case LookUp(runtime, running) => LookupNames(s, runtime, running);
    case StartRequest(_, runtime, thread, running) =>
      LookupNames(s, runtime, running);
      RegisterOutcome(s, runtime, thread, running);
    case EndRequest(holder, now, saveOk) =>
      if holder in slots && slots[holder].Some? {
        TouchNames(s, slots[holder].value, now, None, saveOk);
        FinishIsTouch(s, slots[holder].value, now, saveOk);
      }
    case TouchRuntime(runtime, now, servers, saveOk) => TouchNames(s, runtime, now, servers, saveOk);
    case _ =>
  }

  lemma LookupNames(s: State, runtime: nat, running: bool)
    ensures NamesFrom(s.bindings, ActiveBinding(s, runtime, running).0.bindings)
  {
  }

  lemma TouchNames(s: State, runtime: nat, now: int, servers: Option<nat>, saveOk: bool)
    ensures NamesFrom(s.bindings, Touch(s, runtime, now, servers, saveOk).bindings)
  {
  }

  /** At every step, a runtime id leaves the table only when its thread is neither live nor
      waiting for its release. */
  lemma RuntimesLeaveReleased(cfg: Config, y: System, e: Event)
    requires Inv(cfg, y) && Enabled(cfg, y, e)
    ensures LeavesReleased(y.state, Step(cfg, y, e).state)
  {
    match e
    case Allocate(a) => AllocationLeaves(cfg, y, a);
    case Serve(section) => SectionLeaves(cfg, y, section);
  }

  /** Closing spares every busy runtime, the closed one included. */
  lemma CloseSpares(s: State, runtime: nat, release: bool, unfinished: bool, a: Answer, now: int, saveOk: bool)
    ensures Spares(s, Close(s, runtime, release, unfinished, a, now, saveOk).0)
  {
    assert s.released[|s.released|..] == [];
    if runtime in s.bindings && !InUse(s, s.bindings[runtime].thread, unfinished) {
      if release {
        ReleaseOnlyReleases(s, s.bindings[runtime].thread, a);
      }
    }
  }

  /** While requests of a runtime are in flight, no collection and no close removes or detaches
      it or hands its thread to release_thread; neither does any section of an allocation, except
      that resuming the very runtime stores its new use. */
  lemma BusyRuntimesAreSpared(cfg: Config, y: System, e: Event)
    requires Inv(cfg, y) && Enabled(cfg, y, e)
    requires e.Serve? ==> e.section.CollectIdle? || e.section.CloseRuntime?
    requires e.Allocate? && e.allocation.RebindRuntime? ==> y.phase.existing.None?
    ensures Spares(y.state, Step(cfg, y, e).state)
  {
    match e
    case Allocate(a) => AllocationLeaves(cfg, y, a);
    case Serve(CollectIdle(w, suppress, c)) => CollectShrinks(cfg, y.state, w, suppress, c);
    case Serve(CloseRuntime(runtime, release, unfinished, a, now, saveOk)) =>
      CloseSpares(y.state, runtime, release, unfinished, a, now, saveOk);
  }

  // ----- what closing and resuming leave -----

  /** A closed runtime is detached and counts as used now, on disk too, with its identity as it
      was; if its resources were to be released, its thread is not owned any more. No other
      binding differs except in having been detached with the same thread. */
  lemma ClosingDetaches(s: State, runtime: nat, release: bool, unfinished: bool, a: Answer, now: int, saveOk: bool)
    requires Distinct(s.bindings)
    requires Close(s, runtime, release, unfinished, a, now, saveOk).1.Closed?
    ensures var t := Close(s, runtime, release, unfinished, a, now, saveOk).0;
      && runtime in s.bindings && !HasRequests(s, runtime)
      && t.bindings == s.bindings[runtime := s.bindings[runtime].(status := Detached, lastUsed := now)]
      && t.durable == t.bindings
      && (release ==> s.bindings[runtime].thread !in Owned(t))
  {
    var b := s.bindings[runtime];
    if release {
      ReleaseOutcome(s, b.thread, a);
      var t := ReleaseThread(s, b.thread, a).0;
      forall r | r in s.bindings && r != runtime ensures t.bindings[r] == s.bindings[r] {
        assert s.bindings[r].thread != b.thread;
      }
      assert t.bindings[runtime := b.(status := Detached, lastUsed := now)]
        == s.bindings[runtime := b.(status := Detached, lastUsed := now)];
    }
  }

  /** A resumed runtime keeps its id, place and name; it is ready, used now, on the thread that
      was resumed or recreated, which is owned; every other binding is as it was. */
  lemma ResumingRebinds(cfg: Config, y: System, runtime: nat, now: int, c: Collection, v: Eviction)
    requires Inv(cfg, y) && y.phase.Resumed? && y.phase.existing.Some?
    ensures var t, k := StoreResumed(cfg, y.state, y.phase, runtime, now, c, v, true).0, y.phase.existing.value;
      && k.runtime in y.state.bindings && t.bindings.Keys == y.state.bindings.Keys
      && SameName(t.bindings[k.runtime], y.state.bindings[k.runtime])
      && t.bindings[k.runtime].created == y.state.bindings[k.runtime].created
      && t.bindings[k.runtime].thread == y.phase.thread && y.phase.thread in t.live
      && t.bindings[k.runtime].status.Ready? && t.bindings[k.runtime].lastUsed == now
      && t.durable == t.bindings
      && forall r :: r in t.bindings && r != k.runtime ==> t.bindings[r] == y.state.bindings[r]
  {
    assert KnownOk(y.state.bindings, y.phase.existing.value);
  }

  // ----- names -----

  ghost predicate SameName(a: Binding, b: Binding) {
    a.name == b.name && a.cwd == b.cwd && a.sandbox == b.sandbox
  }

  /** At most one runtime for each name, directory and sandbox. */
  ghost predicate UniqueNames(bindings: map<nat, Binding>) {
    forall a, b :: a in bindings && b in bindings && bindings[a].name.Some? && SameName(bindings[a], bindings[b]) ==> a == b
  }

  /** Every binding comes, name and place unchanged, from the other table. */
  ghost predicate NamesFrom(a: map<nat, Binding>, b: map<nat, Binding>) {
    forall r :: r in b ==> r in a && SameName(a[r], b[r])
  }

  /** A runtime that stays in the table stays under its name. */
  ghost predicate NamesKept(a: map<nat, Binding>, b: map<nat, Binding>) {
    forall r :: r in a && r in b ==> SameName(a[r], b[r])
  }

  lemma NamesStayUnique(a: map<nat, Binding>, b: map<nat, Binding>)
    requires UniqueNames(a) && NamesFrom(a, b)
    ensures UniqueNames(b)
  {
    forall x, z | x in b && z in b && b[x].name.Some? && SameName(b[x], b[z]) ensures x == z {
      assert SameName(a[x], a[z]);
    }
  }

  lemma NamesWith(bindings: map<nat, Binding>, runtime: nat, b: Binding)
    requires UniqueNames(bindings) && runtime !in bindings
    requires b.name.Some? ==> NoMatch(bindings, b.name.value, b.cwd, b.sandbox)
    ensures UniqueNames(bindings[runtime := b])
  {
    var all := bindings[runtime := b];
    forall x, z | x in all && z in all && all[x].name.Some? && SameName(all[x], all[z]) ensures x == z {
      if b.name.Some? {
        assert x != runtime ==> !Matches(bindings[x], b.name.value, b.cwd, b.sandbox);
        assert z != runtime ==> !Matches(bindings[z], b.name.value, b.cwd, b.sandbox);
      }
    }
  }

  lemma InsertKeepsNames(cfg: Config, s: State, runtime: nat, b: Binding, c: Collection, v: Eviction, saveOk: bool)
    requires Distinct(s.bindings) && UniqueNames(s.bindings) && CapacityFits(cfg, s, c, v) && runtime !in s.bindings
    requires b.name.Some? ==> NoMatch(s.bindings, b.name.value, b.cwd, b.sandbox)
    ensures UniqueNames(Insert(cfg, s, runtime, b, c, v, saveOk).0.bindings)
    ensures NamesKept(s.bindings, Insert(cfg, s, runtime, b, c, v, saveOk).0.bindings)
  {
    EnsureCapacityShrinks(cfg, s, 1, c, v);
    ShrinksKeepsNames(s, EnsureCapacity(cfg, s, 1, c, v).0, runtime, b);
    NamesWith(EnsureCapacity(cfg, s, 1, c, v).0.bindings, runtime, b);
  }

  lemma ShrinksKeepsNames(s: State, g: State, runtime: nat, b: Binding)
    requires Shrinks(s, g) && UniqueNames(s.bindings) && runtime !in s.bindings
    requires b.name.Some? ==> NoMatch(s.bindings, b.name.value, b.cwd, b.sandbox)
    ensures UniqueNames(g.bindings) && runtime !in g.bindings && NamesFrom(s.bindings, g.bindings)
    ensures b.name.Some? ==> NoMatch(g.bindings, b.name.value, b.cwd, b.sandbox)
  {
    NamesStayUnique(s.bindings, g.bindings);
    if b.name.Some? {
      forall r | r in g.bindings ensures !Matches(g.bindings[r], b.name.value, b.cwd, b.sandbox) {
        assert !Matches(s.bindings[r], b.name.value, b.cwd, b.sandbox);
      }
    }
  }

  lemma StoringKeepsNames(cfg: Config, s: State, p: Phase, runtime: nat, now: int, c: Collection, v: Eviction,
          saveOk: bool)
    requires Distinct(s.bindings) && p.Resumed? && PhaseOk(s.bindings, p) && UniqueNames(s.bindings)
    requires p.existing.None? ==> runtime !in s.bindings && CapacityFits(cfg, s, c, v)
    ensures UniqueNames(StoreResumed(cfg, s, p, runtime, now, c, v, saveOk).0.bindings)
    ensures NamesKept(s.bindings, StoreResumed(cfg, s, p, runtime, now, c, v, saveOk).0.bindings)
  {
    match p.existing
    case None =>
      InsertKeepsNames(cfg, s, runtime, NewBinding(p.thread, p.cwd, p.sandbox, None, now), c, v, saveOk);
    case Some(k) =>
      assert KnownOk(s.bindings, k);
      NamesStayUnique(s.bindings, StoreResumed(cfg, s, p, runtime, now, c, v, saveOk).0.bindings);
  }

  /** Named runtimes come from acquire alone. */
  predicate Unnamed(e: Event) {
    e.Allocate? && e.allocation.OpenRuntime? ==> e.allocation.request.name.None?
  }

  ghost predicate RequestNamed(p: Phase) {
    p.ToOpen? || p.Asked? || p.Started? ==> p.request.name.None? || p.request.acquired
  }

  lemma AllocationKeepsNames(cfg: Config, y: System, e: Allocation)
    requires TableOk(cfg, y.state) && PhaseOk(y.state.bindings, y.phase) && MayAllocate(cfg, y, e)
    requires UniqueNames(y.state.bindings) && RequestNamed(y.phase) && Unnamed(Allocate(e))
    ensures UniqueNames(AllocationState(cfg, y.state, y.phase, e).bindings)
    ensures NamesKept(y.state.bindings, AllocationState(cfg, y.state, y.phase, e).bindings)
  {
    match e
    case MakeRoom(c, v) => MakeRoomKeepsNames(cfg, y.state, c, v);
    case InsertBinding(runtime, now, c, v, saveOk) =>
      InsertKeepsNames(cfg, y.state, runtime, Opened(y.phase, now), c, v, saveOk);
    case RebindRuntime(runtime, now, c, v, saveOk) => StoringKeepsNames(cfg, y.state, y.phase, runtime, now, c, v, saveOk);
    case RetryRelease(a) => ReleaseKeepsNames(y.state, y.phase.thread, a);
    case Compensate(a) => ReleaseKeepsNames(y.state, y.phase.thread, a);
    case ReleasePrevious(a) => ReleaseKeepsNames(y.state, y.phase.thread, a);
    case _ =>
  }

  lemma AllocationStaysNamed(cfg: Config, s: State, p: Phase, e: Allocation)
    requires RequestNamed(p) && Unnamed(Allocate(e))
    ensures RequestNamed(AllocationPhase(cfg, s, p, e))
  {
  }

  lemma MakeRoomKeepsNames(cfg: Config, s: State, c: Collection, v: Eviction)
    requires Distinct(s.bindings) && CapacityFits(cfg, s, c, v) && UniqueNames(s.bindings)
    ensures UniqueNames(EnsureCapacity(cfg, s, 1, c, v).0.bindings)
    ensures NamesKept(s.bindings, EnsureCapacity(cfg, s, 1, c, v).0.bindings)
  {
    EnsureCapacityShrinks(cfg, s, 1, c, v);
    NamesStayUnique(s.bindings, EnsureCapacity(cfg, s, 1, c, v).0.bindings);
  }

  lemma ReleaseKeepsNames(s: State, thread: nat, a: Answer)
    requires UniqueNames(s.bindings)
    ensures UniqueNames(ReleaseThread(s, thread, a).0.bindings)
    ensures NamesKept(s.bindings, ReleaseThread(s, thread, a).0.bindings)
  {
    ReleaseOnlyReleases(s, thread, a);
    NamesStayUnique(s.bindings, ReleaseThread(s, thread, a).0.bindings);
  }

  lemma SectionKeepsNames(cfg: Config, y: System, e: Section)
    requires Distinct(y.state.bindings) && UniqueNames(y.state.bindings) && MayServe(cfg, y, e)
    ensures UniqueNames(SectionState(y.state, y.slots, e).bindings)
    ensures NamesKept(y.state.bindings, SectionState(y.state, y.slots, e).bindings)
  {
    SectionNames(cfg, y, e);
    NamesStayUnique(y.state.bindings, SectionState(y.state, y.slots, e).bindings);
  }

  lemma SectionNames(cfg: Config, y: System, e: Section)
    requires Distinct(y.state.bindings) && MayServe(cfg, y, e)
    ensures NamesFrom(y.state.bindings, SectionState(y.state, y.slots, e).bindings)
  {
    match e
    case CollectIdle(w, suppress, c) => CollectShrinks(cfg, y.state, w, suppress, c);
    case CloseRuntime(runtime, release, unfinished, a, now, saveOk) =>
      CloseNames(y.state, runtime, release, unfinished, a, now, saveOk);
    case _ => OthersKeepNames(y.state, y.slots, e);
  }

  lemma CloseNames(s: State, runtime: nat, release: bool, unfinished: bool, a: Answer, now: int, saveOk: bool)
    ensures NamesFrom(s.bindings, Close(s, runtime, release, unfinished, a, now, saveOk).0.bindings)
  {
    if runtime in s.bindings && !InUse(s, s.bindings[runtime].thread, unfinished) {
      var b := s.bindings[runtime];
      if release {
        ReleaseOnlyReleases(s, b.thread, a);
        NamesFromUpdate(s.bindings, ReleaseThread(s, b.thread, a).0.bindings, runtime, b.(status := Detached, lastUsed := now));
      } else {
        NamesFromUpdate(s.bindings, s.bindings, runtime, b.(status := Detached, lastUsed := now));
      }
    }
  }

  lemma NamesFromUpdate(a: map<nat, Binding>, b: map<nat, Binding>, runtime: nat, binding: Binding)
    requires runtime in a && SameName(a[runtime], binding)
    requires forall r :: r in b ==> r in a && (b[r] == a[r] || b[r] == a[r].(status := Detached))
    ensures NamesFrom(a, b) && NamesFrom(a, b[runtime := binding])
  {
  }

  ghost predicate NamesOk(y: System) {
    UniqueNames(y.state.bindings) && RequestNamed(y.phase)
  }

  ghost predicate OnlyAcquireNames(events: seq<Event>) {
    forall k :: 0 <= k < |events| ==> Unnamed(events[k])
  }

  /** In runs where named runtimes come from acquire alone, there is at most one for each
      name, directory and sandbox. */
  lemma {:induction false} RunKeepsNames(cfg: Config, y: System, events: seq<Event>)
    requires Inv(cfg, y) && NamesOk(y) && IsRun(cfg, y, events) && OnlyAcquireNames(events)
    ensures Inv(cfg, After(cfg, y, events)) && NamesOk(After(cfg, y, events))
    decreases |events|
  {
    if events != [] {
      StepKeepsInv(cfg, y, events[0]);
      StepKeepsNames(cfg, y, events[0]);
      RunKeepsNames(cfg, Step(cfg, y, events[0]), events[1..]);
    }
  }

  lemma StepKeepsNames(cfg: Config, y: System, e: Event)
    requires Inv(cfg, y) && NamesOk(y) && Enabled(cfg, y, e) && Unnamed(e)
    ensures NamesOk(Step(cfg, y, e)) && NamesKept(y.state.bindings, Step(cfg, y, e).state.bindings)
  {
    match e
    case Allocate(a) =>
      AllocationKeepsNames(cfg, y, a);
      AllocationStaysNamed(cfg, y.state, y.phase, a);
    case Serve(section) => SectionKeepsNames(cfg, y, section);
  }

  /** As long as a runtime with a name is in the table, acquire resumes that one. */
  lemma AcquireFindsTheRuntime(cfg: Config, y: System, e: Allocation, runtime: nat)
    requires NamesOk(y) && MayAllocate(cfg, y, e) && e.AcquireRuntime?
    requires runtime in y.state.bindings && Matches(y.state.bindings[runtime], e.name, e.cwd, e.sandbox)
    ensures e.choice == Some(runtime)
    ensures var p := AllocationPhase(cfg, y.state, y.phase, e);
      p.ToResume? && p.existing == Some(Known(runtime, y.state.bindings[runtime]))
  {
    assert e.choice.Some?;
    assert SameName(y.state.bindings[runtime], y.state.bindings[e.choice.value]);
  }

  /** The runtime is in the table in every state of the run. */
  ghost predicate Survives(cfg: Config, y: System, events: seq<Event>, runtime: nat)
    requires IsRun(cfg, y, events)
    decreases |events|
  {
    runtime in y.state.bindings
    && (events != [] ==> Survives(cfg, Step(cfg, y, events[0]), events[1..], runtime))
  }

  /** Repeated acquires: after any run that a named runtime survives, acquiring its name,
      directory and sandbox again resumes that same runtime id. */
  lemma {:induction false} RepeatedAcquire(cfg: Config, y: System, events: seq<Event>, runtime: nat, e: Allocation)
    requires Inv(cfg, y) && NamesOk(y) && IsRun(cfg, y, events) && OnlyAcquireNames(events)
    requires Survives(cfg, y, events, runtime)
    requires e.AcquireRuntime? && Matches(y.state.bindings[runtime], e.name, e.cwd, e.sandbox)
    requires MayAllocate(cfg, After(cfg, y, events), e)
    ensures e.choice == Some(runtime)
    decreases |events|
  {
    if events == [] {
      AcquireFindsTheRuntime(cfg, y, e, runtime);
    } else {
      var next := Step(cfg, y, events[0]);
      StepKeepsInv(cfg, y, events[0]);
      StepKeepsNames(cfg, y, events[0]);
      assert SameName(y.state.bindings[runtime], next.state.bindings[runtime]);
      RepeatedAcquire(cfg, next, events[1..], runtime, e);
    }
  }
}
