/** The runtime manager as a whole: allocations, requests, collections and closings of many
    threads interleaved. Every lock-held section is one event; an allocation keeps the
    allocation lock from its first section to its last. */
module RuntimeRuns {
  import opened Options
  import opened Sets
  import opened RuntimeState
  import opened RuntimeCapacity

  /** What a new runtime is opened for; acquired says that acquire found no match for it. */
  datatype Request = Request(name: Option<string>, cwd: string, sandbox: nat, acquired: bool)

  /** A runtime as an allocation read it earlier. */
  datatype Known = Known(runtime: nat, binding: Binding)

  /** How far the holder of the allocation lock is; Free when nobody holds it. */
  datatype Phase =
    | Free
    | ToOpen(request: Request)
    | Asked(request: Request)
    | Started(request: Request, thread: nat)
    | ToResume(existing: Option<Known>, thread: nat, cwd: string, sandbox: nat)
    | ResumeAsked(existing: Option<Known>, thread: nat, cwd: string, sandbox: nat)
    | Resumed(existing: Option<Known>, thread: nat, cwd: string, sandbox: nat, previous: Option<nat>, reused: bool)
    | ToCompensate(thread: nat)
    | ToReleasePrevious(thread: nat)

  /** slots are the holders of the request semaphore, with the runtime each is registered for. */
  datatype System = System(state: State, phase: Phase, slots: map<nat, Option<nat>>)

  /** The sections of allocations: open, acquire and resume. */
  datatype Allocation =
    | OpenRuntime(request: Request)
    | AcquireRuntime(name: string, cwd: string, sandbox: nat, choice: Option<nat>)
    | MakeRoom(collection: Collection, eviction: Eviction)
    | ThreadStarted(thread: nat)
    | AllocationFails
    | InsertBinding(runtime: nat, now: int, collection: Collection, eviction: Eviction, saveOk: bool)
    | ResumeRuntime(runtime: nat)
    | ResumeThread(thread: nat, cwd: string, sandbox: nat)
    | RetryRelease(answer: Answer)
    | Reattach
    | ThreadResumed
    | ThreadRecreated(thread: nat)
    | RebindRuntime(runtime: nat, now: int, collection: Collection, eviction: Eviction, saveOk: bool)
    | Compensate(answer: Answer)
    | ReleasePrevious(answer: Answer)

  /** All other sections. */
  datatype Section =
    | SyncConnection(generation: nat)
    | CollectIdle(sweep: Sweep, suppressErrors: bool, collection: Collection)
    | CloseRuntime(runtime: nat, release: bool, unfinished: bool, answer: Answer, now: int, saveOk: bool)
    | LookUp(runtime: nat, running: bool)
    | TakeSlot(holder: nat)
    | StartRequest(holder: nat, runtime: nat, thread: nat, running: bool)
    | EndRequest(holder: nat, now: int, saveOk: bool)
    | GiveSlot(holder: nat)
    | TouchRuntime(runtime: nat, now: int, servers: Option<nat>, saveOk: bool)
    | ShutDown

  datatype Event = Allocate(allocation: Allocation) | Serve(section: Section)

  predicate Matches(b: Binding, name: string, cwd: string, sandbox: nat) {
    b.name == Some(name) && b.cwd == cwd && b.sandbox == sandbox
  }

  ghost predicate NoMatch(bindings: map<nat, Binding>, name: string, cwd: string, sandbox: nat) {
    forall r :: r in bindings ==> !Matches(bindings[r], name, cwd, sandbox)
  }

  /** The most recently used match, if there is one. */
  ghost predicate IsChoice(bindings: map<nat, Binding>, name: string, cwd: string, sandbox: nat, choice: Option<nat>) {
    match choice
    case None => NoMatch(bindings, name, cwd, sandbox)
    case Some(r) =>
      && r in bindings && Matches(bindings[r], name, cwd, sandbox)
      && forall q :: q in bindings && q != r && Matches(bindings[q], name, cwd, sandbox) ==> Older(bindings, q, r)
  }

  ghost predicate MayAllocate(cfg: Config, y: System, e: Allocation) {
    match e
    case OpenRuntime(q) => y.phase.Free? && !q.acquired
    case AcquireRuntime(name, cwd, sandbox, choice) =>
      y.phase.Free? && IsChoice(y.state.bindings, name, cwd, sandbox, choice)
    case MakeRoom(c, v) => y.phase.ToOpen? && CapacityFits(cfg, y.state, c, v)
    case ThreadStarted(thread) => y.phase.Asked? && thread !in Bound(y.state.bindings)
    case AllocationFails => y.phase.ToOpen? || y.phase.Asked? || y.phase.ToResume? || y.phase.ResumeAsked?
    case InsertBinding(runtime, _, c, v, _) =>
      y.phase.Started? && runtime !in y.state.bindings && CapacityFits(cfg, y.state, c, v)
    case ResumeRuntime(runtime) => y.phase.Free? && runtime in y.state.bindings
    case ResumeThread(thread, _, _) => y.phase.Free?
    case RetryRelease(_) => y.phase.ToResume?
    case Reattach => y.phase.ResumeAsked? && y.phase.existing.Some? && y.phase.thread in y.state.live
    case ThreadResumed => y.phase.ResumeAsked?
    case ThreadRecreated(thread) => y.phase.ResumeAsked? && thread !in Bound(y.state.bindings)
    case RebindRuntime(runtime, _, c, v, _) =>
      && y.phase.Resumed?
      && (y.phase.existing.None? ==> runtime !in y.state.bindings && CapacityFits(cfg, y.state, c, v))
    case Compensate(_) => y.phase.ToCompensate?
    case ReleasePrevious(_) => y.phase.ToReleasePrevious?
  }

  ghost predicate MayServe(cfg: Config, y: System, e: Section) {
    match e
    case SyncConnection(_) => true
    case CollectIdle(w, _, c) =>
      y.phase.Free? && SweepFits(y.state, w) && CollectionFits(cfg, SweepUnbound(y.state, w).0, c)
    case CloseRuntime(_, _, _, _, _, _) => y.phase.Free?
    case LookUp(_, _) => true
    case TakeSlot(holder) => holder !in y.slots && |y.slots| < cfg.maxConcurrency
    case StartRequest(holder, _, _, _) => holder in y.slots && y.slots[holder] == None
    case EndRequest(holder, _, _) => holder in y.slots && y.slots[holder].Some?
    case GiveSlot(holder) => holder in y.slots && y.slots[holder] == None
    case TouchRuntime(_, _, _, _) => true
    case ShutDown => y.phase.Free?
  }

  ghost predicate Enabled(cfg: Config, y: System, e: Event) {
    match e
    case Allocate(a) => MayAllocate(cfg, y, a)
    case Serve(section) => MayServe(cfg, y, section)
  }

  function NewBinding(thread: nat, cwd: string, sandbox: nat, name: Option<string>, now: int): Binding {
    Binding(thread, cwd, sandbox, name, now, now, Ready, None)
  }

  /** The runtime that holds a thread; there is at most one. */
  ghost function HolderOf(bindings: map<nat, Binding>, thread: nat): Option<Known> {
    if r :| r in bindings && bindings[r].thread == thread then Some(Known(r, bindings[r])) else None
  }

  function Resumption(k: Known): Phase {
    ToResume(Some(k), k.binding.thread, k.binding.cwd, k.binding.sandbox)
  }

  function Opened(p: Phase, now: int): Binding
    requires p.Started?
  {
    NewBinding(p.thread, p.request.cwd, p.request.sandbox, p.request.name, now)
  }

  /** The section that stores the outcome of a resume. */
  function StoreResumed(cfg: Config, s: State, p: Phase, runtime: nat, now: int, c: Collection, v: Eviction,
          saveOk: bool): (State, bool)
    requires p.Resumed?
  {
    match p.existing
    case Some(k) =>
      (Placed(s, k.runtime, k.binding.(thread := p.thread, cwd := p.cwd, lastUsed := now, status := Ready), saveOk), saveOk)
    case None =>
      var t := Insert(cfg, s, runtime, NewBinding(p.thread, p.cwd, p.sandbox, None, now), c, v, saveOk);
      (t.0, t.1.Inserted?)
  }

  function AfterStoring(p: Phase, stored: bool): Phase
    requires p.Resumed?
  {
    if stored then if p.previous.Some? then ToReleasePrevious(p.previous.value) else Free
    else if p.reused then Free
    else ToCompensate(p.thread)
  }

  /** The table after a section of an allocation. */
  function AllocationState(cfg: Config, s: State, p: Phase, e: Allocation): State {
    match e
    case MakeRoom(c, v) => EnsureCapacity(cfg, s, 1, c, v).0
    case InsertBinding(runtime, now, c, v, saveOk) =>
      if p.Started? then Insert(cfg, s, runtime, Opened(p, now), c, v, saveOk).0 else s
    case RebindRuntime(runtime, now, c, v, saveOk) =>
      if p.Resumed? then StoreResumed(cfg, s, p, runtime, now, c, v, saveOk).0 else s
    case RetryRelease(a) => if p.ToResume? && p.thread in s.pending then ReleaseThread(s, p.thread, a).0 else s
    case Compensate(a) => if p.ToCompensate? then ReleaseThread(s, p.thread, a).0 else s
    case ReleasePrevious(a) => if p.ToReleasePrevious? then ReleaseThread(s, p.thread, a).0 else s
    case _ => s
  }

  /** How far the allocation is after one of its sections. */
  ghost function AllocationPhase(cfg: Config, s: State, p: Phase, e: Allocation): Phase {
    match e
    case OpenRuntime(q) => ToOpen(q)
    case AcquireRuntime(name, cwd, sandbox, choice) =>
      if choice.Some? && choice.value in s.bindings then Resumption(Known(choice.value, s.bindings[choice.value]))
      else ToOpen(Request(Some(name), cwd, sandbox, true))
    case MakeRoom(c, v) => if p.ToOpen? && EnsureCapacity(cfg, s, 1, c, v).1.Room? then Asked(p.request) else Free
    case ThreadStarted(thread) => if p.Asked? then Started(p.request, thread) else p
    case AllocationFails => Free
    case InsertBinding(runtime, now, c, v, saveOk) =>
      if p.Started? && !Insert(cfg, s, runtime, Opened(p, now), c, v, saveOk).1.Inserted? then ToCompensate(p.thread) else Free
    case ResumeRuntime(r) => if r in s.bindings then Resumption(Known(r, s.bindings[r])) else p
    case ResumeThread(thread, cwd, sandbox) =>
      if HolderOf(s.bindings, thread).Some? then Resumption(HolderOf(s.bindings, thread).value)
      else ToResume(None, thread, cwd, sandbox)
    case RetryRelease(a) =>
      if p.ToResume? && (p.thread in s.pending ==> Succeeded(ReleaseThread(s, p.thread, a).1))
      then ResumeAsked(p.existing, p.thread, p.cwd, p.sandbox) else Free
    case Reattach => if p.ResumeAsked? then Resumed(p.existing, p.thread, p.cwd, p.sandbox, None, true) else p
    case ThreadResumed => if p.ResumeAsked? then Resumed(p.existing, p.thread, p.cwd, p.sandbox, None, false) else p
    case ThreadRecreated(thread) =>
      if p.ResumeAsked? then Resumed(p.existing, thread, p.cwd, p.sandbox, Some(p.thread), false) else p
    case RebindRuntime(runtime, now, c, v, saveOk) =>
      if p.Resumed? then AfterStoring(p, StoreResumed(cfg, s, p, runtime, now, c, v, saveOk).1) else p
    case Compensate(_) => Free
    case ReleasePrevious(_) => Free
  }

  /** The table after any other section. */
  function SectionState(s: State, slots: map<nat, Option<nat>>, e: Section): State {
    match e
    case SyncConnection(generation) => Sync(s, generation)
    case CollectIdle(w, suppress, c) => Collect(s, w, suppress, c).0
    case CloseRuntime(runtime, release, unfinished, a, now, saveOk) => Close(s, runtime, release, unfinished, a, now, saveOk).0
    case LookUp(runtime, running) => ActiveBinding(s, runtime, running).0
    case StartRequest(holder, runtime, thread, running) => RegisterRequest(s, runtime, thread, running).0
    case EndRequest(holder, now, saveOk) =>
      if holder in slots && slots[holder].Some? then FinishRequest(s, slots[holder].value, now, saveOk) else s
    case TouchRuntime(runtime, now, servers, saveOk) => Touch(s, runtime, now, servers, saveOk)
    case ShutDown => Shutdown(s)
    case _ => s
  }

  function SectionSlots(s: State, slots: map<nat, Option<nat>>, e: Section): map<nat, Option<nat>> {
    match e
    case TakeSlot(holder) => slots[holder := None]
    case StartRequest(holder, runtime, thread, running) =>
      if RegisterRequest(s, runtime, thread, running).1 then slots[holder := Some(runtime)] else slots
    case EndRequest(holder, _, _) => slots[holder := None]
    case GiveSlot(holder) => slots - {holder}
    case _ => slots
  }

  ghost function Step(cfg: Config, y: System, e: Event): System {
    match e
    case Allocate(a) =>
      y.(state := AllocationState(cfg, y.state, y.phase, a), phase := AllocationPhase(cfg, y.state, y.phase, a))
    case Serve(section) =>
      y.(state := SectionState(y.state, y.slots, section), slots := SectionSlots(y.state, y.slots, section))
  }

  // ----- the invariant -----

  /** Requests in flight are counted only for runtimes in the table, and never as zero. */
  ghost predicate ActiveInTable(s: State) {
    forall r :: r in s.active ==> s.active[r] > 0 && r in s.bindings
  }

  ghost predicate TableOk(cfg: Config, s: State) {
    && Distinct(s.bindings)
    && SameIdentities(s.durable, s.bindings)
    && |s.bindings| <= cfg.maxRuntimes
    && ActiveInTable(s)
  }

  ghost predicate RequestOk(bindings: map<nat, Binding>, q: Request) {
    q.acquired ==> q.name.Some? && NoMatch(bindings, q.name.value, q.cwd, q.sandbox)
  }

  /** The runtime an allocation read is still there, as it was up to its use. */
  ghost predicate KnownOk(bindings: map<nat, Binding>, k: Known) {
    k.runtime in bindings && IdentityOf(bindings[k.runtime]) == IdentityOf(k.binding)
  }

  ghost predicate ResumeOk(bindings: map<nat, Binding>, existing: Option<Known>, thread: nat, cwd: string,
          sandbox: nat) {
    match existing
    case Some(k) => KnownOk(bindings, k) && thread == k.binding.thread && cwd == k.binding.cwd && sandbox == k.binding.sandbox
    case None => thread !in Bound(bindings)
  }

  ghost predicate PhaseOk(bindings: map<nat, Binding>, p: Phase) {
    match p
    case ToOpen(q) => RequestOk(bindings, q)
    case Asked(q) => RequestOk(bindings, q)
    case Started(q, thread) => RequestOk(bindings, q) && thread !in Bound(bindings)
    case ToResume(existing, thread, cwd, sandbox) => ResumeOk(bindings, existing, thread, cwd, sandbox)
    case ResumeAsked(existing, thread, cwd, sandbox) => ResumeOk(bindings, existing, thread, cwd, sandbox)
    case Resumed(existing, thread, cwd, sandbox, previous, reused) =>
      ResumeOk(bindings, existing, thread, cwd, sandbox)
      || (existing.Some? && KnownOk(bindings, existing.value) && thread !in Bound(bindings)
          && cwd == existing.value.binding.cwd && sandbox == existing.value.binding.sandbox)
    case _ => true
  }

  ghost function Holders(slots: map<nat, Option<nat>>, runtime: nat): set<nat> {
    set h | h in slots && slots[h] == Some(runtime)
  }

  function ActiveOf(active: map<nat, nat>, runtime: nat): nat {
    if runtime in active then active[runtime] else 0
  }

  ghost predicate SlotsOk(cfg: Config, slots: map<nat, Option<nat>>, active: map<nat, nat>) {
    && |slots| <= cfg.maxConcurrency
    && forall r :: ActiveOf(active, r) == |Holders(slots, r)|
  }

  ghost predicate Inv(cfg: Config, y: System) {
    && TableOk(cfg, y.state)
    && PhaseOk(y.state.bindings, y.phase)
    && SlotsOk(cfg, y.slots, y.state.active)
  }

  // ----- events that keep the table up to use and status -----

  lemma SameBound(a: map<nat, Binding>, b: map<nat, Binding>)
    requires SameIdentities(a, b)
    ensures Bound(a) == Bound(b)
  {
    forall r | r in a ensures a[r].thread == b[r].thread {
      assert IdentityOf(a[r]) == IdentityOf(b[r]);
    }
    forall x | x in Bound(a) ensures x in Bound(b) {
      var r :| r in a && a[r].thread == x;
      assert b[r].thread == x;
    }
    forall x | x in Bound(b) ensures x in Bound(a) {
      var r :| r in b && b[r].thread == x;
      assert a[r].thread == x;
    }
  }

  lemma SameTable(cfg: Config, s: State, t: State, p: Phase)
    requires TableOk(cfg, s) && PhaseOk(s.bindings, p)
    requires SameIdentities(s.bindings, t.bindings) && SameIdentities(t.durable, t.bindings) && ActiveInTable(t)
    ensures TableOk(cfg, t) && PhaseOk(t.bindings, p)
  {
    var a, b := s.bindings, t.bindings;
    SameBound(a, b);
    forall x, z | x in b && z in b && b[x].thread == b[z].thread ensures x == z {
      assert IdentityOf(a[x]) == IdentityOf(b[x]) && IdentityOf(a[z]) == IdentityOf(b[z]);
    }
    assert |a| == |a.Keys| && |b| == |b.Keys|;
    SamePhase(a, b, p);
  }

  lemma SamePhase(a: map<nat, Binding>, b: map<nat, Binding>, p: Phase)
    requires SameIdentities(a, b) && Bound(a) == Bound(b) && PhaseOk(a, p)
    ensures PhaseOk(b, p)
  {
    if p.ToOpen? || p.Asked? || p.Started? {
      SameRequest(a, b, p.request);
    }
  }

  lemma SameRequest(a: map<nat, Binding>, b: map<nat, Binding>, q: Request)
    requires SameIdentities(a, b) && RequestOk(a, q)
    ensures RequestOk(b, q)
  {
    if q.acquired {
      forall r | r in b ensures !Matches(b[r], q.name.value, q.cwd, q.sandbox) {
        assert IdentityOf(a[r]) == IdentityOf(b[r]) && !Matches(a[r], q.name.value, q.cwd, q.sandbox);
      }
    }
  }

  lemma OnlyReleasesKeepsTable(cfg: Config, s: State, t: State, p: Phase)
    requires TableOk(cfg, s) && PhaseOk(s.bindings, p) && OnlyReleases(s, t)
    ensures TableOk(cfg, t) && PhaseOk(t.bindings, p)
  {
    forall r | r in t.durable ensures IdentityOf(t.durable[r]) == IdentityOf(t.bindings[r]) {
      assert IdentityOf(s.durable[r]) == IdentityOf(s.bindings[r]);
    }
    SameTable(cfg, s, t, p);
  }

  lemma SameUpdate(a: map<nat, Binding>, durable: map<nat, Binding>, runtime: nat, b: Binding)
    requires SameIdentities(durable, a) && runtime in a && IdentityOf(b) == IdentityOf(a[runtime])
    ensures SameIdentities(a, a[runtime := b]) && SameIdentities(durable, a[runtime := b])
  {
    var c := a[runtime := b];
    assert c.Keys == a.Keys;
    forall r | r in c ensures IdentityOf(a[r]) == IdentityOf(c[r]) && IdentityOf(durable[r]) == IdentityOf(c[r]) {
      assert IdentityOf(durable[r]) == IdentityOf(a[r]);
    }
  }

  /** One binding changed in use or status only. */
  lemma UpdateKeepsTable(cfg: Config, s: State, t: State, runtime: nat, b: Binding, p: Phase)
    requires TableOk(cfg, s) && PhaseOk(s.bindings, p)
    requires runtime in s.bindings && IdentityOf(b) == IdentityOf(s.bindings[runtime])
    requires t.bindings == s.bindings[runtime := b] && t.active == s.active
    requires t.durable == s.durable || t.durable == t.bindings
    ensures TableOk(cfg, t) && PhaseOk(t.bindings, p) && t.bindings.Keys == s.bindings.Keys
  {
    SameUpdate(s.bindings, s.durable, runtime, b);
    SameTable(cfg, s, t, p);
  }

  lemma TouchKeepsTable(cfg: Config, s: State, runtime: nat, now: int, servers: Option<nat>, saveOk: bool, p: Phase)
    requires TableOk(cfg, s) && PhaseOk(s.bindings, p)
    ensures var t := Touch(s, runtime, now, servers, saveOk);
      && TableOk(cfg, t) && PhaseOk(t.bindings, p) && t.active == s.active && t.bindings.Keys == s.bindings.Keys
  {
    if runtime in s.bindings {
      var t := Touch(s, runtime, now, servers, saveOk);
      UpdateKeepsTable(cfg, s, t, runtime, t.bindings[runtime], p);
    }
  }

  lemma LookupKeepsTable(cfg: Config, s: State, runtime: nat, running: bool, p: Phase)
    requires TableOk(cfg, s) && PhaseOk(s.bindings, p)
    ensures var t := ActiveBinding(s, runtime, running).0;
      && TableOk(cfg, t) && PhaseOk(t.bindings, p) && t.active == s.active && t.bindings.Keys == s.bindings.Keys
  {
    if runtime in s.bindings && !running {
      var t := ActiveBinding(s, runtime, running).0;
      UpdateKeepsTable(cfg, s, t, runtime, t.bindings[runtime], p);
    }
  }

  lemma CloseKeepsTable(cfg: Config, s: State, runtime: nat, release: bool, unfinished: bool, a: Answer, now: int,
          saveOk: bool)
    requires TableOk(cfg, s)
    ensures TableOk(cfg, Close(s, runtime, release, unfinished, a, now, saveOk).0)
  {
    if runtime in s.bindings && !InUse(s, s.bindings[runtime].thread, unfinished) {
      var b := s.bindings[runtime];
      var u := if release then ReleaseThread(s, b.thread, a).0 else s;
      if release {
        ReleaseOnlyReleases(s, b.thread, a);
        OnlyReleasesKeepsTable(cfg, s, u, Free);
      }
      var t := Close(s, runtime, release, unfinished, a, now, saveOk).0;
      if t != u {
        UpdateKeepsTable(cfg, u, t, runtime, b.(status := Detached, lastUsed := now), Free);
      }
    }
  }

  lemma ShutdownKeepsTable(cfg: Config, s: State)
    requires TableOk(cfg, s)
    ensures TableOk(cfg, Shutdown(s))
  {
    var t := Shutdown(s);
    forall r | r in t.durable ensures IdentityOf(t.durable[r]) == IdentityOf(t.bindings[r]) {
      assert IdentityOf(s.durable[r]) == IdentityOf(s.bindings[r]);
    }
    SameTable(cfg, s, t, Free);
  }

  // ----- events that drop bindings -----

  lemma ShrinksKeepsTable(cfg: Config, s: State, t: State)
    requires TableOk(cfg, s) && Shrinks(s, t)
    ensures TableOk(cfg, t)
  {
    ShrinksKeepsDistinct(s, t);
    SubsetSize(t.bindings.Keys, s.bindings.Keys);
    assert |t.bindings| == |t.bindings.Keys| && |s.bindings| == |s.bindings.Keys|;
    forall r | r in t.active ensures t.active[r] > 0 && r in t.bindings {
      assert HasRequests(s, r);
    }
  }

  lemma ShrinksKeepsRequest(s: State, t: State, q: Request)
    requires Shrinks(s, t) && RequestOk(s.bindings, q)
    ensures RequestOk(t.bindings, q)
  {
    if q.acquired {
      forall r | r in t.bindings ensures !Matches(t.bindings[r], q.name.value, q.cwd, q.sandbox) {
        assert !Matches(s.bindings[r], q.name.value, q.cwd, q.sandbox);
      }
    }
  }

  /** The unbound threads are bound by nobody, so releasing them leaves the table alone. */
  lemma SweepOnlyReleases(s: State, w: Sweep)
    requires SweepFits(s, w)
    ensures OnlyReleases(s, SweepUnbound(s, w).0)
    ensures forall x :: x in Owned(SweepUnbound(s, w).0) ==> x in Owned(s)
  {
    var t := Sync(s, w.generation);
    assert OnlyReleases(s, t) by { assert t.released[|s.released|..] == []; }
    if w.cleanedUp {
      ReleaseAllOnlyReleases(t, w.leftovers, w.answers);
      ReleaseAllOwned(t, w.leftovers, w.answers);
      OnlyReleasesTransitive(s, t, ReleaseAll(t, w.leftovers, w.answers).0);
    }
  }

  /** A full collection only detaches and drops released, idle bindings. */
  lemma CollectShrinks(cfg: Config, s: State, w: Sweep, suppress: bool, c: Collection)
    requires Distinct(s.bindings) && SweepFits(s, w) && CollectionFits(cfg, SweepUnbound(s, w).0, c)
    ensures Shrinks(s, Collect(s, w, suppress, c).0)
  {
    SweepOnlyReleases(s, w);
    var t, ok := SweepUnbound(s, w).0, SweepUnbound(s, w).1;
    ReleasingShrinks(s, t);
    ShrinksKeepsDistinct(s, t);
    if ok || suppress {
      CollectExpiredShrinks(cfg, t, c);
      ShrinksTransitive(s, t, CollectExpired(t, c).0);
    }
  }

  // ----- events that store a binding -----

  lemma StaysInTable(s: State, t: State)
    requires ActiveInTable(s) && Spares(s, t) && t.active == s.active
    ensures ActiveInTable(t)
  {
    forall r | r in t.active ensures t.active[r] > 0 && r in t.bindings {
      assert HasRequests(s, r);
    }
  }

  lemma InsertKeepsTable(cfg: Config, s: State, runtime: nat, b: Binding, c: Collection, v: Eviction, saveOk: bool)
    requires TableOk(cfg, s) && CapacityFits(cfg, s, c, v)
    requires runtime !in s.bindings && b.thread !in Bound(s.bindings)
    ensures TableOk(cfg, Insert(cfg, s, runtime, b, c, v, saveOk).0)
  {
    InsertKeeps(cfg, s, runtime, b, c, v, saveOk);
    StaysInTable(s, Insert(cfg, s, runtime, b, c, v, saveOk).0);
    if Insert(cfg, s, runtime, b, c, v, saveOk).1.Inserted? {
      InsertionFits(cfg, s, runtime, b, c, v, saveOk);
    } else {
      EnsureCapacityShrinks(cfg, s, 1, c, v);
      ShrinksKeepsTable(cfg, s, EnsureCapacity(cfg, s, 1, c, v).0);
    }
  }

  /** Storing a resumed runtime that is in the table changes no other binding. */
  lemma RebindKeepsTable(cfg: Config, s: State, runtime: nat, b: Binding, saveOk: bool)
    requires TableOk(cfg, s) && runtime in s.bindings
    requires b.thread == s.bindings[runtime].thread || b.thread !in Bound(s.bindings)
    ensures TableOk(cfg, Placed(s, runtime, b, saveOk))
  {
    var all := s.bindings[runtime := b];
    assert all.Keys == s.bindings.Keys && |all| == |all.Keys| && |s.bindings| == |s.bindings.Keys|;
    forall x, y | x in all && y in all && all[x].thread == all[y].thread ensures x == y {
      assert x != runtime ==> all[x].thread in Bound(s.bindings);
      assert y != runtime ==> all[y].thread in Bound(s.bindings);
    }
  }

  lemma StoringKeepsTable(cfg: Config, s: State, p: Phase, runtime: nat, now: int, c: Collection, v: Eviction,
          saveOk: bool)
    requires TableOk(cfg, s) && p.Resumed? && PhaseOk(s.bindings, p)
    requires p.existing.None? ==> runtime !in s.bindings && CapacityFits(cfg, s, c, v)
    ensures TableOk(cfg, StoreResumed(cfg, s, p, runtime, now, c, v, saveOk).0)
    ensures StoreResumed(cfg, s, p, runtime, now, c, v, saveOk).0.active == s.active
  {
    match p.existing
    case Some(k) =>
      RebindKeepsTable(cfg, s, k.runtime, k.binding.(thread := p.thread, cwd := p.cwd, lastUsed := now, status := Ready), saveOk);
    case None =>
      InsertKeeps(cfg, s, runtime, NewBinding(p.thread, p.cwd, p.sandbox, None, now), c, v, saveOk);
      InsertKeepsTable(cfg, s, runtime, NewBinding(p.thread, p.cwd, p.sandbox, None, now), c, v, saveOk);
  }

  lemma HolderIsKnown(bindings: map<nat, Binding>, thread: nat)
    ensures HolderOf(bindings, thread).None? ==> thread !in Bound(bindings)
    ensures HolderOf(bindings, thread).Some? ==>
      KnownOk(bindings, HolderOf(bindings, thread).value) && HolderOf(bindings, thread).value.binding.thread == thread
  {
  }

  // ----- the request slots -----

  /** One holder changes what it is registered for. */
  lemma HoldersChange(slots: map<nat, Option<nat>>, holder: nat, value: Option<nat>, r: nat)
    requires holder in slots
    ensures |Holders(slots[holder := value], r)| ==
      |Holders(slots, r)| - (if slots[holder] == Some(r) then 1 else 0) + (if value == Some(r) then 1 else 0)
  {
    var without := Holders(slots, r) - {holder};
    if value == Some(r) {
      assert Holders(slots[holder := value], r) == without + {holder};
    } else {
      assert Holders(slots[holder := value], r) == without;
    }
    if slots[holder] == Some(r) {
      assert Holders(slots, r) == without + {holder};
    } else {
      assert Holders(slots, r) == without;
    }
  }

  lemma RegistrationKeepsSlots(cfg: Config, slots: map<nat, Option<nat>>, holder: nat, active: map<nat, nat>,
          after: map<nat, nat>, runtime: nat)
    requires SlotsOk(cfg, slots, active) && holder in slots && slots[holder] == None
    requires after == active[runtime := ActiveOf(active, runtime) + 1]
    ensures SlotsOk(cfg, slots[holder := Some(runtime)], after)
  {
    assert slots[holder := Some(runtime)].Keys == slots.Keys;
    assert |slots| == |slots.Keys| && |slots[holder := Some(runtime)]| == |slots[holder := Some(runtime)].Keys|;
    forall r ensures ActiveOf(after, r) == |Holders(slots[holder := Some(runtime)], r)| {
      HoldersChange(slots, holder, Some(runtime), r);
    }
  }

  lemma FinishKeepsSlots(cfg: Config, slots: map<nat, Option<nat>>, holder: nat, active: map<nat, nat>,
          after: map<nat, nat>, runtime: nat)
    requires SlotsOk(cfg, slots, active) && holder in slots && slots[holder] == Some(runtime)
    requires ActiveOf(after, runtime) == ActiveOf(active, runtime) - 1
    requires forall r :: r != runtime ==> ActiveOf(after, r) == ActiveOf(active, r)
    ensures SlotsOk(cfg, slots[holder := None], after)
  {
    assert slots[holder := None].Keys == slots.Keys;
    assert |slots| == |slots.Keys| && |slots[holder := None]| == |slots[holder := None].Keys|;
    forall r ensures ActiveOf(after, r) == |Holders(slots[holder := None], r)| {
      HoldersChange(slots, holder, None, r);
    }
  }

  lemma RegisteredIsActive(cfg: Config, slots: map<nat, Option<nat>>, active: map<nat, nat>, holder: nat)
    requires SlotsOk(cfg, slots, active) && holder in slots && slots[holder].Some?
    ensures slots[holder].value in active && active[slots[holder].value] > 0
  {
    var r := slots[holder].value;
    assert holder in Holders(slots, r);
    assert ActiveOf(active, r) == |Holders(slots, r)|;
  }

  lemma FreeSlotsChange(cfg: Config, slots: map<nat, Option<nat>>, active: map<nat, nat>, holder: nat)
    requires SlotsOk(cfg, slots, active)
    ensures holder !in slots && |slots| < cfg.maxConcurrency ==> SlotsOk(cfg, slots[holder := None], active)
    ensures holder in slots && slots[holder] == None ==> SlotsOk(cfg, slots - {holder}, active)
  {
    if holder !in slots && |slots| < cfg.maxConcurrency {
      var after := slots[holder := None];
      assert after.Keys == slots.Keys + {holder} && |after| == |after.Keys| && |slots| == |slots.Keys|;
      forall r ensures Holders(after, r) == Holders(slots, r) {
      }
    }
    if holder in slots && slots[holder] == None {
      var after := slots - {holder};
      SubsetSize(after.Keys, slots.Keys);
      assert |after| == |after.Keys| && |slots| == |slots.Keys|;
      forall r ensures Holders(after, r) == Holders(slots, r) {
      }
    }
  }
}
