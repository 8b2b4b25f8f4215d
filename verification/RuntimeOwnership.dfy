/** How this process comes to own threads no more: on one connection only by a release that
    the adapter confirmed. What failed releases leave behind in the loops, and which runtimes
    those loops do not touch. */
module RuntimeOwnership {
  import opened Options
  import opened RuntimeState
  import opened RuntimeCapacity
  import opened RuntimeRuns
  import opened RuntimeSafety

  // ----- one release -----

  /** What is owned or pending stays so, except where a release was confirmed. */
  ghost predicate KeepsUnless(s: State, t: State, confirms: nat -> bool) {
    && t.generation == s.generation
    && forall x :: (x in Owned(s) && x !in Owned(t)) || (x in s.pending && x !in t.pending) ==> confirms(x)
  }

  lemma KeepsTransitive(s: State, t: State, u: State, confirms: nat -> bool)
    requires KeepsUnless(s, t, confirms) && KeepsUnless(t, u, confirms)
    ensures KeepsUnless(s, u, confirms)
  {
  }

  lemma ReleaseForgets(s: State, thread: nat, a: Answer, confirms: nat -> bool)
    requires a.generation == s.generation && (a.confirmed ==> confirms(thread))
    ensures KeepsUnless(s, ReleaseThread(s, thread, a).0, confirms)
  {
  }

  /** The bindings and the ownership of other threads are as they were. */
  ghost predicate Untouched(s: State, t: State, thread: nat) {
    && (thread in t.pending <==> thread in s.pending)
    && (thread in t.live <==> thread in s.live)
    && forall r :: r in s.bindings && s.bindings[r].thread == thread ==> r in t.bindings && t.bindings[r] == s.bindings[r]
  }

  lemma ReleaseTouchesOne(s: State, thread: nat, a: Answer, other: nat)
    requires a.generation == s.generation && other != thread
    ensures Untouched(s, ReleaseThread(s, thread, a).0, other)
  {
  }

  /** The release of this thread was tried and failed: its runtime is there, detached, and its
      thread waits in pending to be retried; or the adapter had work left on it, and it is as it was. */
  ghost predicate Retained(s: State, t: State, target: Target, a: Answer) {
    && target.runtime in s.bindings && target.runtime in t.bindings
    && if a.unfinished then t.bindings[target.runtime] == s.bindings[target.runtime]
       else target.thread in t.pending && t.bindings[target.runtime] == s.bindings[target.runtime].(status := Detached)
  }

  lemma FailureRetains(s: State, t: State, target: Target, a: Answer)
    requires IsTarget(s.bindings, target) && !HasRequests(s, target.runtime) && Distinct(s.bindings)
    requires OnlyDetached(s.bindings, t.bindings) && t.active == s.active && a.generation == t.generation
    requires target.runtime in t.bindings && t.bindings[target.runtime] == s.bindings[target.runtime]
    requires !Succeeded(ReleaseThread(t, target.thread, a).1)
    ensures Retained(s, ReleaseThread(t, target.thread, a).0, target, a)
  {
    if !a.unfinished {
      forall r | r in t.bindings && t.bindings[r].thread == target.thread ensures !HasRequests(t, r) {
        assert s.bindings[r].thread == s.bindings[target.runtime].thread;
      }
    }
  }

  // ----- the loops -----

  ghost predicate OnConnection(answers: nat -> Answer, generation: nat) {
    forall x: nat :: answers(x).generation == generation
  }

  ghost predicate IdleTargets(s: State, targets: seq<Target>) {
    && Distinct(s.bindings) && DistinctThreads(targets)
    && forall k :: 0 <= k < |targets| ==> IsTarget(s.bindings, targets[k]) && !HasRequests(s, targets[k].runtime)
  }

  ghost predicate Confirming(answers: nat -> Answer, confirms: nat -> bool) {
    forall x: nat :: answers(x).confirmed ==> confirms(x)
  }

  lemma {:induction false} ReleaseEachForgets(s: State, targets: seq<Target>, answers: nat -> Answer,
          confirms: nat -> bool)
    requires OnConnection(answers, s.generation) && Confirming(answers, confirms)
    ensures KeepsUnless(s, ReleaseEach(s, targets, answers).0, confirms)
  {
    if targets != [] {
      var n := |targets| - 1;
      ReleaseEachForgets(s, targets[..n], answers, confirms);
      var t, x := ReleaseEach(s, targets[..n], answers).0, targets[n].thread;
      assert answers(x).generation == s.generation;
      ReleaseForgets(t, x, answers(x), confirms);
      KeepsTransitive(s, t, ReleaseThread(t, x, answers(x)).0, confirms);
    }
  }

  lemma {:induction false} ReleaseAllForgets(s: State, threads: seq<nat>, answers: nat -> Answer, confirms: nat -> bool)
    requires OnConnection(answers, s.generation) && Confirming(answers, confirms)
    ensures KeepsUnless(s, ReleaseAll(s, threads, answers).0, confirms)
  {
    if threads != [] {
      var n := |threads| - 1;
      ReleaseAllForgets(s, threads[..n], answers, confirms);
      var t, x := ReleaseAll(s, threads[..n], answers).0, threads[n];
      assert answers(x).generation == s.generation;
      ReleaseForgets(t, x, answers(x), confirms);
      KeepsTransitive(s, t, ReleaseThread(t, x, answers(x)).0, confirms);
    }
  }

  lemma UntouchedTransitive(s: State, t: State, u: State, thread: nat)
    requires Untouched(s, t, thread) && Untouched(t, u, thread)
    ensures Untouched(s, u, thread)
  {
  }

  /** The collector's loop leaves threads alone that it does not try. */
  lemma {:induction false} ReleaseEachTouches(s: State, targets: seq<Target>, answers: nat -> Answer, other: nat)
    requires OnConnection(answers, s.generation)
    requires forall k :: 0 <= k < |targets| ==> targets[k].thread != other
    ensures ReleaseEach(s, targets, answers).0.generation == s.generation
    ensures Untouched(s, ReleaseEach(s, targets, answers).0, other)
  {
    if targets != [] {
      var n := |targets| - 1;
      ReleaseEachTouches(s, targets[..n], answers, other);
      var t, x := ReleaseEach(s, targets[..n], answers).0, targets[n].thread;
      assert answers(x).generation == s.generation;
      ReleaseTouchesOne(t, x, answers(x), other);
      UntouchedTransitive(s, t, ReleaseThread(t, x, answers(x)).0, other);
    }
  }

  lemma {:induction false} ReleaseAllTouches(s: State, threads: seq<nat>, answers: nat -> Answer, other: nat)
    requires OnConnection(answers, s.generation) && other !in threads
    ensures ReleaseAll(s, threads, answers).0.generation == s.generation
    ensures Untouched(s, ReleaseAll(s, threads, answers).0, other)
  {
    if threads != [] {
      var n := |threads| - 1;
      ReleaseAllTouches(s, threads[..n], answers, other);
      var t, x := ReleaseAll(s, threads[..n], answers).0, threads[n];
      assert answers(x).generation == s.generation;
      ReleaseTouchesOne(t, x, answers(x), other);
      UntouchedTransitive(s, t, ReleaseThread(t, x, answers(x)).0, other);
    }
  }

  lemma RetainedStays(s: State, t: State, u: State, target: Target, a: Answer)
    requires IsTarget(s.bindings, target) && Retained(s, t, target, a) && Untouched(t, u, target.thread)
    ensures Retained(s, u, target, a)
  {
  }

  ghost predicate RetainsUnreleased(s: State, t: State, done: set<nat>, targets: seq<Target>, answers: nat -> Answer) {
    forall k :: 0 <= k < |targets| && targets[k].runtime !in done ==>
      Retained(s, t, targets[k], answers(targets[k].thread))
  }

  /** One more release keeps what earlier ones left of other threads. */
  lemma RetainsOneMore(s: State, t: State, done: set<nat>, targets: seq<Target>, answers: nat -> Answer, thread: nat,
          a: Answer)
    requires RetainsUnreleased(s, t, done, targets, answers) && a.generation == t.generation
    requires forall k :: 0 <= k < |targets| ==> IsTarget(s.bindings, targets[k]) && targets[k].thread != thread
    ensures RetainsUnreleased(s, ReleaseThread(t, thread, a).0, done, targets, answers)
  {
    var u := ReleaseThread(t, thread, a).0;
    forall k | 0 <= k < |targets| && targets[k].runtime !in done
      ensures Retained(s, u, targets[k], answers(targets[k].thread))
    {
      ReleaseTouchesOne(t, thread, a, targets[k].thread);
      RetainedStays(s, t, u, targets[k], answers(targets[k].thread));
    }
  }

  /** On one connection, each target that the collector's loop tried and could not release is
      still in the table, detached, with its thread in pending, unless the adapter had work on it. */
  lemma {:induction false} ReleaseEachRetains(s: State, targets: seq<Target>, answers: nat -> Answer)
    requires IdleTargets(s, targets) && OnConnection(answers, s.generation)
    ensures RetainsUnreleased(s, ReleaseEach(s, targets, answers).0, ReleaseEach(s, targets, answers).1, targets, answers)
  {
    if targets != [] {
      var n := |targets| - 1;
      ReleaseEachRetains(s, targets[..n], answers);
      LastRetains(s, targets, answers);
    }
  }

  lemma LastRetains(s: State, targets: seq<Target>, answers: nat -> Answer)
    requires IdleTargets(s, targets) && OnConnection(answers, s.generation) && targets != []
    requires var first := targets[..|targets| - 1]; var r := ReleaseEach(s, first, answers);
      RetainsUnreleased(s, r.0, r.1, first, answers)
    ensures RetainsUnreleased(s, ReleaseEach(s, targets, answers).0, ReleaseEach(s, targets, answers).1, targets, answers)
  {
    var n := |targets| - 1;
    var last, first := targets[n], targets[..n];
    var t, done := ReleaseEach(s, first, answers).0, ReleaseEach(s, first, answers).1;
    var a := answers(last.thread);
    ReleaseEachTouches(s, first, answers, last.thread);
    RetainsOneMore(s, t, done, first, answers, last.thread, a);
    if !Succeeded(ReleaseThread(t, last.thread, a).1) {
      ReleaseEachOnlyReleases(s, first, answers);
      FailureRetains(s, t, last, a);
    }
    RetainsWithLast(s, ReleaseThread(t, last.thread, a).0, done, Succeeded(ReleaseThread(t, last.thread, a).1), targets, answers);
  }

  lemma RetainsWithLast(s: State, u: State, done: set<nat>, freed: bool, targets: seq<Target>, answers: nat -> Answer)
    requires targets != [] && RetainsUnreleased(s, u, done, targets[..|targets| - 1], answers)
    requires var last := targets[|targets| - 1]; !freed ==> Retained(s, u, last, answers(last.thread))
    ensures RetainsUnreleased(s, u, if freed then done + {targets[|targets| - 1].runtime} else done, targets, answers)
  {
    var n := |targets| - 1;
    forall k | 0 <= k < n ensures targets[k] == targets[..n][k] {
    }
  }

  ghost predicate StoppedAt(s: State, t: State, victims: seq<Target>, answers: nat -> Answer, k: nat) {
    && k < |victims|
    && (forall j :: 0 <= j < k ==> victims[j].thread !in Owned(t))
    && Retained(s, t, victims[k], answers(victims[k].thread))
    && (forall j :: k < j < |victims| ==> Untouched(s, t, victims[j].thread))
  }

  /** The eviction loop that fails has released the victims before one, retains that one, and
      leaves those after it alone. */
  lemma {:induction false} ReleaseAllStops(s: State, victims: seq<Target>, answers: nat -> Answer) returns (k: nat)
    requires IdleTargets(s, victims) && OnConnection(answers, s.generation)
    requires !ReleaseAll(s, Threads(victims), answers).1
    ensures StoppedAt(s, ReleaseAll(s, Threads(victims), answers).0, victims, answers, k)
  {
    var n := |victims| - 1;
    var first, last := victims[..n], victims[n];
    assert Threads(victims)[..n] == Threads(first);
    var t, ok := ReleaseAll(s, Threads(first), answers).0, ReleaseAll(s, Threads(first), answers).1;
    NotAmong(victims, n);
    ReleaseAllTouches(s, Threads(first), answers, last.thread);
    if !ok {
      k := ReleaseAllStops(s, first, answers);
      forall j | k < j < |victims| ensures Untouched(s, t, victims[j].thread) {
        assert j < n ==> first[j] == victims[j];
      }
    } else {
      k := n;
      StopsAtLast(s, victims, answers);
    }
  }

  lemma StopsAtLast(s: State, victims: seq<Target>, answers: nat -> Answer)
    requires IdleTargets(s, victims) && OnConnection(answers, s.generation) && victims != []
    requires ReleaseAll(s, Threads(victims[..|victims| - 1]), answers).1
    requires var n := |victims| - 1; var t := ReleaseAll(s, Threads(victims[..n]), answers).0;
      t.generation == s.generation && Untouched(s, t, victims[n].thread)
      && !Succeeded(ReleaseThread(t, victims[n].thread, answers(victims[n].thread)).1)
    ensures var n := |victims| - 1; var t := ReleaseAll(s, Threads(victims[..n]), answers).0;
      StoppedAt(s, ReleaseThread(t, victims[n].thread, answers(victims[n].thread)).0, victims, answers, n)
  {
    var n := |victims| - 1;
    var first, last := Threads(victims[..n]), victims[n];
    var t := ReleaseAll(s, first, answers).0;
    ReleaseAllOwned(s, first, answers);
    ReleaseAllOnlyReleases(s, first, answers);
    assert answers(last.thread).generation == s.generation;
    FailureRetains(s, t, last, answers(last.thread));
    ReleaseOutcome(t, last.thread, answers(last.thread));
    forall j | 0 <= j < n ensures victims[j].thread !in Owned(ReleaseThread(t, last.thread, answers(last.thread)).0) {
      assert first[j] == victims[j].thread;
    }
  }

  lemma NotAmong(victims: seq<Target>, n: nat)
    requires DistinctThreads(victims) && n == |victims| - 1
    ensures victims[n].thread !in Threads(victims[..n])
  {
    forall j | 0 <= j < n ensures Threads(victims[..n])[j] != victims[n].thread {
      assert Threads(victims[..n])[j] == victims[j].thread;
    }
  }

  // ----- collection and eviction -----

  lemma ExpiredAreTargets(cfg: Config, s: State, c: Collection)
    requires Distinct(s.bindings) && CollectionFits(cfg, s, c)
    ensures IdleTargets(s, c.expired[..c.attempted])
  {
    ExpiredAreIdle(cfg, s, c, c.expired[..c.attempted]);
    TargetsDistinct(s.bindings, c.expired, ExpiredRuntimes(cfg, s, c.now, c.unfinished));
  }

  lemma VictimsAreTargets(s: State, e: Eviction, victims: seq<Target>)
    requires Distinct(s.bindings) && EvictionFits(s, e) && victims <= e.candidates
    ensures IdleTargets(s, victims)
  {
    VictimsAreIdle(s, e, victims);
    TargetsDistinct(s.bindings, e.candidates, EvictableRuntimes(s, e.unfinished));
    forall j, k | 0 <= j < k < |victims| ensures victims[j].thread != victims[k].thread {
      assert victims[j] == e.candidates[j] && victims[k] == e.candidates[k];
    }
  }

  /** After a collection on one connection, every binding that was tried and not collected is
      still there: detached and pending retry, unless the adapter had work on it; if the save
      failed, the released ones are still there too. */
  lemma CollectionRetains(cfg: Config, s: State, c: Collection)
    requires Distinct(s.bindings) && CollectionFits(cfg, s, c) && OnConnection(c.answers, s.generation)
    ensures var r := CollectExpired(s, c);
      forall k :: 0 <= k < c.attempted && (r.1.CollectedRuntimes? ==> c.expired[k].runtime !in r.1.runtimes) ==>
        c.expired[k].runtime in r.0.bindings
        && (Retained(s, r.0, c.expired[k], c.answers(c.expired[k].thread)) || (r.1.SaveFailed? && c.expired[k].thread !in Owned(r.0)))
  {
    var tried := c.expired[..c.attempted];
    ExpiredAreTargets(cfg, s, c);
    ReleaseEachRetains(s, tried, c.answers);
    CollectLoop(s, tried, c.answers);
    ReleaseEachOnlyReleases(s, tried, c.answers);
    var t, done := ReleaseEach(s, tried, c.answers).0, ReleaseEach(s, tried, c.answers).1;
    var r := CollectExpired(s, c);
    forall k | 0 <= k < c.attempted && (r.1.CollectedRuntimes? ==> c.expired[k].runtime !in r.1.runtimes)
      ensures c.expired[k].runtime in r.0.bindings
      ensures Retained(s, r.0, c.expired[k], c.answers(c.expired[k].thread))
              || (r.1.SaveFailed? && c.expired[k].thread !in Owned(r.0))
    {
      assert tried[k] == c.expired[k] && IsTarget(s.bindings, tried[k]);
      if tried[k].runtime !in done {
        assert Retained(s, t, tried[k], c.answers(tried[k].thread));
      }
    }
  }

  /** After an eviction that a release stopped on one connection, the victim it stopped at is
      retained, those before it are released and those after it untouched; all are in the table. */
  lemma EvictionRetains(s: State, overflow: int, e: Eviction) returns (k: nat)
    requires Distinct(s.bindings) && EvictionFits(s, e) && OnConnection(e.answers, s.generation)
    requires EvictOverflow(s, overflow, e).1.ReleaseFailed?
    ensures 0 < overflow <= |e.candidates|
    ensures StoppedAt(s, EvictOverflow(s, overflow, e).0, e.candidates[..overflow], e.answers, k)
    ensures EvictOverflow(s, overflow, e).0.bindings.Keys == s.bindings.Keys
  {
    var victims := e.candidates[..overflow];
    VictimsAreTargets(s, e, victims);
    k := ReleaseAllStops(s, victims, e.answers);
    ReleaseAllOnlyReleases(s, Threads(victims), e.answers);
  }

  lemma CollectionForgets(cfg: Config, s: State, c: Collection, confirms: nat -> bool)
    requires Distinct(s.bindings) && CollectionFits(cfg, s, c)
    requires OnConnection(c.answers, s.generation) && Confirming(c.answers, confirms)
    ensures KeepsUnless(s, CollectExpired(s, c).0, confirms)
  {
    var tried := c.expired[..c.attempted];
    ExpiredAreTargets(cfg, s, c);
    ReleaseEachForgets(s, tried, c.answers, confirms);
    CollectLoop(s, tried, c.answers);
  }

  lemma EvictionForgets(s: State, overflow: int, e: Eviction, confirms: nat -> bool)
    requires EvictionFits(s, e) && OnConnection(e.answers, s.generation) && Confirming(e.answers, confirms)
    ensures KeepsUnless(s, EvictOverflow(s, overflow, e).0, confirms)
  {
    if 0 < overflow <= |e.candidates| {
      var victims := e.candidates[..overflow];
      ReleaseAllForgets(s, Threads(victims), e.answers, confirms);
      VictimsAreIdle(s, e, victims);
      EvictLoop(s, victims, e.answers);
      var t, ok := ReleaseAll(s, Threads(victims), e.answers).0, ReleaseAll(s, Threads(victims), e.answers).1;
      if ok {
        DropForgets(s, t, victims);
      }
    }
  }

  /** Dropping runtimes whose threads are free forgets no owned thread. */
  lemma DropForgets(s: State, t: State, victims: seq<Target>)
    requires OnlyDetached(s.bindings, t.bindings)
    requires forall k :: 0 <= k < |victims| ==> IsTarget(s.bindings, victims[k]) && victims[k].thread !in Owned(t)
    ensures Owned(Drop(t, Runtimes(victims))) == Owned(t)
  {
    forall r | r in Runtimes(victims) && r in t.bindings ensures t.bindings[r].thread !in Owned(t) {
      var k :| 0 <= k < |victims| && victims[k].runtime == r;
      assert IsTarget(s.bindings, victims[k]);
    }
  }

  lemma EnsureCapacityForgets(cfg: Config, s: State, required: int, c: Collection, e: Eviction, confirms: nat -> bool)
    requires Distinct(s.bindings) && CapacityFits(cfg, s, c, e)
    requires OnConnection(c.answers, s.generation) && Confirming(c.answers, confirms)
    requires OnConnection(e.answers, s.generation) && Confirming(e.answers, confirms)
    ensures KeepsUnless(s, EnsureCapacity(cfg, s, required, c, e).0, confirms)
  {
    CollectionForgets(cfg, s, c, confirms);
    var t := CollectExpired(s, c).0;
    EvictionForgets(t, Overflow(cfg, t, required), e, confirms);
    KeepsTransitive(s, t, EvictOverflow(t, Overflow(cfg, t, required), e).0, confirms);
  }

  lemma InsertForgets(cfg: Config, s: State, runtime: nat, b: Binding, c: Collection, e: Eviction, saveOk: bool,
          confirms: nat -> bool)
    requires Distinct(s.bindings) && CapacityFits(cfg, s, c, e)
    requires OnConnection(c.answers, s.generation) && Confirming(c.answers, confirms)
    requires OnConnection(e.answers, s.generation) && Confirming(e.answers, confirms)
    ensures KeepsUnless(s, Insert(cfg, s, runtime, b, c, e, saveOk).0, confirms)
  {
    EnsureCapacityForgets(cfg, s, 1, c, e, confirms);
  }

  lemma CollectForgets(cfg: Config, s: State, w: Sweep, suppress: bool, c: Collection, confirms: nat -> bool)
    requires Distinct(s.bindings) && SweepFits(s, w) && CollectionFits(cfg, SweepUnbound(s, w).0, c)
    requires w.generation == s.generation && OnConnection(w.answers, s.generation) && Confirming(w.answers, confirms)
    requires OnConnection(c.answers, s.generation) && Confirming(c.answers, confirms)
    ensures KeepsUnless(s, Collect(s, w, suppress, c).0, confirms)
  {
    var t := SweepUnbound(s, w).0;
    if w.cleanedUp {
      ReleaseAllForgets(s, w.leftovers, w.answers, confirms);
    }
    SweepOnlyReleases(s, w);
    ReleasingShrinks(s, t);
    ShrinksKeepsDistinct(s, t);
    CollectionForgets(cfg, t, c, confirms);
    KeepsTransitive(s, t, CollectExpired(t, c).0, confirms);
  }

  // ----- every step -----

  /** Everything the section sees belongs to one connection. */
  ghost predicate SeesOnly(e: Event, generation: nat) {
    match e
    case Allocate(MakeRoom(c, v)) => OnConnection(c.answers, generation) && OnConnection(v.answers, generation)
    case Allocate(InsertBinding(_, _, c, v, _)) => OnConnection(c.answers, generation) && OnConnection(v.answers, generation)
    case Allocate(RebindRuntime(_, _, c, v, _)) => OnConnection(c.answers, generation) && OnConnection(v.answers, generation)
    case Allocate(RetryRelease(a)) => a.generation == generation
    case Allocate(Compensate(a)) => a.generation == generation
    case Allocate(ReleasePrevious(a)) => a.generation == generation
    case Serve(SyncConnection(g)) => g == generation
    case Serve(CollectIdle(w, _, c)) =>
      w.generation == generation && OnConnection(w.answers, generation) && OnConnection(c.answers, generation)
    case Serve(CloseRuntime(_, _, _, a, _, _)) => a.generation == generation
    case Serve(ShutDown) => false
    case _ => true
  }

  /** The adapter confirms a release of the thread in this section. */
  predicate Confirms(y: System, e: Event, thread: nat) {
    match e
    case Allocate(a) => AllocationConfirms(y.phase, a, thread)
    case Serve(CollectIdle(w, _, c)) => w.answers(thread).confirmed || c.answers(thread).confirmed
    case Serve(CloseRuntime(runtime, release, _, a, _, _)) =>
      release && a.confirmed && runtime in y.state.bindings && y.state.bindings[runtime].thread == thread
    case _ => false
  }

  predicate AllocationConfirms(p: Phase, e: Allocation, thread: nat) {
    match e
    case MakeRoom(c, v) => c.answers(thread).confirmed || v.answers(thread).confirmed
    case InsertBinding(_, _, c, v, _) => c.answers(thread).confirmed || v.answers(thread).confirmed
    case RebindRuntime(_, _, c, v, _) => c.answers(thread).confirmed || v.answers(thread).confirmed
    case RetryRelease(a) => p.ToResume? && p.thread == thread && a.confirmed
    case Compensate(a) => p.ToCompensate? && p.thread == thread && a.confirmed
    case ReleasePrevious(a) => p.ToReleasePrevious? && p.thread == thread && a.confirmed
    case _ => false
  }

  lemma CloseForgets(s: State, runtime: nat, release: bool, unfinished: bool, a: Answer, now: int, saveOk: bool,
          confirms: nat -> bool)
    requires a.generation == s.generation
    requires release && a.confirmed && runtime in s.bindings ==> confirms(s.bindings[runtime].thread)
    ensures KeepsUnless(s, Close(s, runtime, release, unfinished, a, now, saveOk).0, confirms)
  {
    if runtime in s.bindings && release {
      ReleaseForgets(s, s.bindings[runtime].thread, a, confirms);
    }
  }

  lemma StoringForgets(cfg: Config, s: State, p: Phase, runtime: nat, now: int, c: Collection, v: Eviction,
          saveOk: bool, confirms: nat -> bool)
    requires Distinct(s.bindings) && p.Resumed?
    requires p.existing.None? ==> CapacityFits(cfg, s, c, v)
    requires OnConnection(c.answers, s.generation) && Confirming(c.answers, confirms)
    requires OnConnection(v.answers, s.generation) && Confirming(v.answers, confirms)
    ensures KeepsUnless(s, StoreResumed(cfg, s, p, runtime, now, c, v, saveOk).0, confirms)
  {
    if p.existing.None? {
      InsertForgets(cfg, s, runtime, NewBinding(p.thread, p.cwd, p.sandbox, None, now), c, v, saveOk, confirms);
    }
  }

  lemma AllocationForgets(cfg: Config, y: System, e: Allocation, confirms: nat -> bool)
    requires Distinct(y.state.bindings) && MayAllocate(cfg, y, e) && SeesOnly(Allocate(e), y.state.generation)
    requires forall x: nat :: confirms(x) == AllocationConfirms(y.phase, e, x)
    ensures KeepsUnless(y.state, AllocationState(cfg, y.state, y.phase, e), confirms)
  {
    match e
    case MakeRoom(c, v) => EnsureCapacityForgets(cfg, y.state, 1, c, v, confirms);
    case InsertBinding(runtime, now, c, v, saveOk) =>
      InsertForgets(cfg, y.state, runtime, Opened(y.phase, now), c, v, saveOk, confirms);
    case RebindRuntime(runtime, now, c, v, saveOk) =>
      StoringForgets(cfg, y.state, y.phase, runtime, now, c, v, saveOk, confirms);
    case RetryRelease(a) => ReleaseForgets(y.state, y.phase.thread, a, confirms);
    case Compensate(a) => ReleaseForgets(y.state, y.phase.thread, a, confirms);
    case ReleasePrevious(a) => ReleaseForgets(y.state, y.phase.thread, a, confirms);
    case _ =>
  }

  lemma SectionForgets(cfg: Config, y: System, e: Section, confirms: nat -> bool)
    requires Distinct(y.state.bindings) && MayServe(cfg, y, e) && SeesOnly(Serve(e), y.state.generation)
    requires forall x: nat :: confirms(x) == Confirms(y, Serve(e), x)
    ensures KeepsUnless(y.state, SectionState(y.state, y.slots, e), confirms)
  {
    match e
    case CollectIdle(w, suppress, c) => CollectForgets(cfg, y.state, w, suppress, c, confirms);
    case CloseRuntime(runtime, release, unfinished, a, now, saveOk) =>
      CloseForgets(y.state, runtime, release, unfinished, a, now, saveOk, confirms);
    case _ => OthersForget(y.state, y.slots, e, confirms);
  }

  lemma OthersForget(s: State, slots: map<nat, Option<nat>>, e: Section, confirms: nat -> bool)
    requires !e.CollectIdle? && !e.CloseRuntime? && SeesOnly(Serve(e), s.generation)
    ensures KeepsUnless(s, SectionState(s, slots, e), confirms)
  {
    var t := SectionState(s, slots, e);
    assert t.live == s.live && t.pending == s.pending && t.generation == s.generation;
  }

  /** At every step on one connection other than the shutdown, an owned thread stays owned, and
      a pending one stays pending, unless the adapter confirmed its release in that step. */
  lemma OwnedUntilConfirmed(cfg: Config, y: System, e: Event, thread: nat)
    requires Inv(cfg, y) && Enabled(cfg, y, e) && SeesOnly(e, y.state.generation) && !Confirms(y, e, thread)
    ensures Step(cfg, y, e).state.generation == y.state.generation
    ensures thread in Owned(y.state) ==> thread in Owned(Step(cfg, y, e).state)
    ensures thread in y.state.pending ==> thread in Step(cfg, y, e).state.pending
  {
    match e
    case Allocate(a) => AllocationForgets(cfg, y, a, (x: nat) => AllocationConfirms(y.phase, a, x));
    case Serve(section) => SectionForgets(cfg, y, section, (x: nat) => Confirms(y, Serve(section), x));
  }

  /** A run on one connection in which no release of the thread is confirmed. */
  ghost predicate Unconfirmed(cfg: Config, y: System, events: seq<Event>, thread: nat)
    decreases |events|
  {
    events != [] ==>
      && SeesOnly(events[0], y.state.generation) && !Confirms(y, events[0], thread)
      && Unconfirmed(cfg, Step(cfg, y, events[0]), events[1..], thread)
  }

  /** Over any run on one connection, a thread that waits for its release waits until a release
      of it is confirmed, and no owned thread is forgotten before. */
  lemma {:induction false} PendingUntilConfirmed(cfg: Config, y: System, events: seq<Event>, thread: nat)
    requires Inv(cfg, y) && IsRun(cfg, y, events) && Unconfirmed(cfg, y, events, thread)
    ensures thread in y.state.pending ==> thread in After(cfg, y, events).state.pending
    ensures thread in Owned(y.state) ==> thread in Owned(After(cfg, y, events).state)
    decreases |events|
  {
    if events != [] {
      OwnedUntilConfirmed(cfg, y, events[0], thread);
      StepKeepsInv(cfg, y, events[0]);
      PendingUntilConfirmed(cfg, Step(cfg, y, events[0]), events[1..], thread);
    }
  }

  // ----- what a use protects from -----

  /** A runtime that was just used is neither collected within the time to live nor evicted: making
      room, whatever fails in it, leaves its binding as the use left it. */
  lemma UseProtects(cfg: Config, s: State, runtime: nat, used: int, servers: Option<nat>, saveOk: bool, required: int,
          c: Collection, e: Eviction)
    requires runtime in s.bindings && Distinct(s.bindings)
    requires var t := Touch(s, runtime, used, servers, saveOk);
      CapacityFits(cfg, t, c, e) && OnConnection(c.answers, t.generation) && OnConnection(e.answers, t.generation)
    requires c.now - used < cfg.idleTtl
    ensures var t := Touch(s, runtime, used, servers, saveOk);
      var u := EnsureCapacity(cfg, t, required, c, e).0;
      runtime in u.bindings && u.bindings[runtime] == t.bindings[runtime] && u.bindings[runtime].status.Ready?
  {
    var t := Touch(s, runtime, used, servers, saveOk);
    TouchedDistinct(s, runtime, used, servers, saveOk);
    var g := CollectExpired(t, c).0;
    FreshIsNotCollected(cfg, t, c, runtime);
    CollectExpiredShrinks(cfg, t, c);
    CollectionForgets(cfg, t, c, x => true);
    ReadyIsNotEvicted(g, Overflow(cfg, g, required), e, runtime);
  }

  lemma TouchedDistinct(s: State, runtime: nat, used: int, servers: Option<nat>, saveOk: bool)
    requires Distinct(s.bindings)
    ensures Distinct(Touch(s, runtime, used, servers, saveOk).bindings)
  {
    var t := Touch(s, runtime, used, servers, saveOk);
    forall a, b | a in t.bindings && b in t.bindings && t.bindings[a].thread == t.bindings[b].thread ensures a == b {
      assert s.bindings[a].thread == s.bindings[b].thread;
    }
  }

  lemma FreshIsNotCollected(cfg: Config, s: State, c: Collection, runtime: nat)
    requires Distinct(s.bindings) && CollectionFits(cfg, s, c) && OnConnection(c.answers, s.generation)
    requires runtime in s.bindings && c.now - s.bindings[runtime].lastUsed < cfg.idleTtl
    ensures var t := CollectExpired(s, c).0; runtime in t.bindings && t.bindings[runtime] == s.bindings[runtime]
  {
    var tried := c.expired[..c.attempted];
    CollectionIsExact(cfg, s, c);
    forall k | 0 <= k < |tried| ensures tried[k].thread != s.bindings[runtime].thread {
      assert c.expired[k] == tried[k] && IsTarget(s.bindings, tried[k]);
      assert Expired(cfg, s, c.now, c.unfinished, tried[k].runtime);
    }
    ReleaseEachTouches(s, tried, c.answers, s.bindings[runtime].thread);
  }

  lemma ReadyIsNotEvicted(s: State, overflow: int, e: Eviction, runtime: nat)
    requires Distinct(s.bindings) && EvictionFits(s, e) && OnConnection(e.answers, s.generation)
    requires runtime in s.bindings && s.bindings[runtime].status.Ready?
    ensures var t := EvictOverflow(s, overflow, e).0; runtime in t.bindings && t.bindings[runtime] == s.bindings[runtime]
  {
    if 0 < overflow <= |e.candidates| {
      var victims := e.candidates[..overflow];
      VictimsAreIdle(s, e, victims);
      forall k | 0 <= k < |victims| ensures Threads(victims)[k] != s.bindings[runtime].thread {
        assert IsTarget(s.bindings, victims[k]);
      }
      ReleaseAllTouches(s, Threads(victims), e.answers, s.bindings[runtime].thread);
      assert runtime !in Runtimes(victims) by {
        forall k | 0 <= k < |victims| ensures victims[k].runtime != runtime {
          assert s.bindings[victims[k].runtime].status.Detached?;
        }
      }
    }
  }
}
