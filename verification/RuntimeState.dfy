/** The tables of the Codex runtime manager and its lock-held sections as functions of the
    state. What the adapter, the clock and the store answer is a parameter of each section. */
module RuntimeState {
  import opened Options

  datatype Status = Ready | Detached

  /** A runtime binding; its runtime id is its key in the table. */
  datatype Binding = Binding(thread: nat, cwd: string, sandbox: nat, name: Option<string>, created: int,
                             lastUsed: int, status: Status, servers: Option<nat>)

  datatype Config = Config(maxRuntimes: nat, maxConcurrency: nat, idleTtl: int)

  /** bindings is the table in memory and durable the one last saved; live and pending are the
      threads owned by this process, pending those whose release is not confirmed; active counts
      the requests in flight; released lists the threads handed to the adapter's release_thread. */
  datatype State = State(
    bindings: map<nat, Binding>,
    durable: map<nat, Binding>,
    live: set<nat>,
    pending: set<nat>,
    active: map<nat, nat>,
    generation: nat,
    released: seq<nat>)

  /** What the adapter says while one thread is being released. */
  datatype Answer = Answer(generation: nat, owns: bool, unfinished: bool, confirmed: bool)

  datatype Release = NotOwned | Busy | Failed | Confirmed

  predicate Succeeded(r: Release) {
    r.NotOwned? || r.Confirmed?
  }

  function Bound(bindings: map<nat, Binding>): set<nat> {
    set r | r in bindings :: bindings[r].thread
  }

  function Owned(s: State): set<nat> {
    s.live + s.pending
  }

  /** Owned threads that no binding refers to. */
  function Unbound(s: State): set<nat> {
    Owned(s) - Bound(s.bindings)
  }

  predicate HasRequests(s: State, runtime: nat) {
    runtime in s.active && s.active[runtime] > 0
  }

  predicate InUse(s: State, thread: nat, unfinished: bool) {
    unfinished || exists r | r in s.bindings :: s.bindings[r].thread == thread && HasRequests(s, r)
  }

  function DetachThread(bindings: map<nat, Binding>, thread: nat): map<nat, Binding> {
    map r | r in bindings ::
      if bindings[r].thread == thread then bindings[r].(status := Detached) else bindings[r]
  }

  // ----- sections -----

  /** A new connection owns no threads. */
  function Sync(s: State, generation: nat): State {
    if generation == s.generation then s else s.(live := {}, pending := {}, generation := generation)
  }

  /** Release one thread; its bindings stay, detached, until the release is confirmed. */
  function ReleaseThread(s: State, thread: nat, a: Answer): (State, Release) {
    var t := Sync(s, a.generation);
    if thread !in Owned(t) && !a.owns then (t, NotOwned)
    else if InUse(t, thread, a.unfinished) then (t, Busy)
    else
      var u := t.(live := t.live - {thread}, bindings := DetachThread(t.bindings, thread), released := t.released + [thread]);
      if a.confirmed then (u.(pending := t.pending - {thread}), Confirmed)
      else (u.(pending := t.pending + {thread}), Failed)
  }

  /** A binding as the collecting loops hold it: its runtime id and its thread. */
  datatype Target = Target(runtime: nat, thread: nat)

  /** The collector's loop: a thread that cannot be released is skipped. */
  function ReleaseEach(s: State, targets: seq<Target>, answers: nat -> Answer): (State, set<nat>) {
    if targets == [] then (s, {})
    else
      var last := targets[|targets| - 1];
      var (t, done) := ReleaseEach(s, targets[..|targets| - 1], answers);
      var (u, r) := ReleaseThread(t, last.thread, answers(last.thread));
      (u, if Succeeded(r) then done + {last.runtime} else done)
  }

  /** The loops that stop at the first thread that cannot be released. */
  function ReleaseAll(s: State, threads: seq<nat>, answers: nat -> Answer): (State, bool) {
    if threads == [] then (s, true)
    else
      var last := threads[|threads| - 1];
      var (t, ok) := ReleaseAll(s, threads[..|threads| - 1], answers);
      if !ok then (t, false)
      else
        var (u, r) := ReleaseThread(t, last, answers(last));
        (u, Succeeded(r))
  }

  predicate Expired(cfg: Config, s: State, now: int, unfinished: set<nat>, runtime: nat)
    requires runtime in s.bindings
  {
    && now - s.bindings[runtime].lastUsed >= cfg.idleTtl
    && !InUse(s, s.bindings[runtime].thread, s.bindings[runtime].thread in unfinished)
  }

  function ExpiredRuntimes(cfg: Config, s: State, now: int, unfinished: set<nat>): set<nat> {
    set r | r in s.bindings && Expired(cfg, s, now, unfinished, r)
  }

  /** The targets are these runtimes of the table, each once, in some order. */
  ghost predicate Lists(bindings: map<nat, Binding>, targets: seq<Target>, runtimes: set<nat>) {
    && (forall k :: 0 <= k < |targets| ==> IsTarget(bindings, targets[k]) && targets[k].runtime in runtimes)
    && (forall r :: r in runtimes ==> exists k :: 0 <= k < |targets| && targets[k].runtime == r)
    && (forall j, k :: 0 <= j < k < |targets| ==> targets[j].runtime != targets[k].runtime)
  }

  predicate IsTarget(bindings: map<nat, Binding>, t: Target) {
    t.runtime in bindings && bindings[t.runtime].thread == t.thread
  }

  /** What one collection meets: the time, the threads with unfinished requests when it looks,
      the expired bindings in table order, how many are tried before shutdown is noticed, the
      adapter's answers, and whether the save succeeds. */
  datatype Collection = Collection(now: int, unfinished: set<nat>, expired: seq<Target>, attempted: nat,
                                   answers: nat -> Answer, saveOk: bool)

  ghost predicate CollectionFits(cfg: Config, s: State, c: Collection) {
    && Lists(s.bindings, c.expired, ExpiredRuntimes(cfg, s, c.now, c.unfinished))
    && c.attempted <= |c.expired|
  }

  datatype Collected = CollectedRuntimes(runtimes: set<nat>) | SweepFailed | SaveFailed

  /** Drop these runtimes once the table without them is saved. */
  function Drop(s: State, runtimes: set<nat>): State {
    s.(bindings := s.bindings - runtimes, durable := s.bindings - runtimes,
       live := s.live - (set r | r in runtimes && r in s.bindings :: s.bindings[r].thread))
  }

  /** Collect the bindings idle for too long whose threads could be released. */
  function CollectExpired(s: State, c: Collection): (State, Collected) {
    var tried := if c.attempted <= |c.expired| then c.expired[..c.attempted] else c.expired;
    var (t, done) := ReleaseEach(s, tried, c.answers);
    if done == {} then (t, CollectedRuntimes({}))
    else if !c.saveOk then (t, SaveFailed)
    else (Drop(t, done), CollectedRuntimes(done))
  }

  /** Least recently used first. */
  predicate Older(bindings: map<nat, Binding>, a: nat, b: nat)
    requires a in bindings && b in bindings
  {
    var x, y := bindings[a], bindings[b];
    x.lastUsed < y.lastUsed
    || (x.lastUsed == y.lastUsed && (x.created < y.created || (x.created == y.created && a < b)))
  }

  predicate Evictable(s: State, unfinished: set<nat>, runtime: nat)
    requires runtime in s.bindings
  {
    var b := s.bindings[runtime];
    b.status.Detached? && !InUse(s, b.thread, b.thread in unfinished)
  }

  function EvictableRuntimes(s: State, unfinished: set<nat>): set<nat> {
    set r | r in s.bindings && Evictable(s, unfinished, r)
  }

  /** What one eviction meets. */
  datatype Eviction = Eviction(unfinished: set<nat>, candidates: seq<Target>, answers: nat -> Answer, saveOk: bool)

  ghost predicate EvictionFits(s: State, e: Eviction) {
    && Lists(s.bindings, e.candidates, EvictableRuntimes(s, e.unfinished))
    && SortedByAge(s.bindings, e.candidates)
  }

  ghost predicate SortedByAge(bindings: map<nat, Binding>, targets: seq<Target>)
    requires forall k :: 0 <= k < |targets| ==> targets[k].runtime in bindings
  {
    forall j, k :: 0 <= j < k < |targets| ==> Older(bindings, targets[j].runtime, targets[k].runtime)
  }

  datatype Capacity = Room(evicted: seq<Target>) | CollectSaveFailed | LimitReached | ReleaseFailed | EvictSaveFailed

  function Overflow(cfg: Config, s: State, required: int): int {
    |s.bindings| + |Unbound(s)| + required - cfg.maxRuntimes
  }

  function Runtimes(targets: seq<Target>): set<nat> {
    set k | 0 <= k < |targets| :: targets[k].runtime
  }

  function Threads(targets: seq<Target>): seq<nat> {
    seq(|targets|, k requires 0 <= k < |targets| => targets[k].thread)
  }

  /** Evict exactly the overflow, oldest first, or fail. */
  function EvictOverflow(s: State, overflow: int, e: Eviction): (State, Capacity) {
    if overflow <= 0 then (s, Room([]))
    else if |e.candidates| < overflow then (s, LimitReached)
    else
      var victims := e.candidates[..overflow];
      var (t, ok) := ReleaseAll(s, Threads(victims), e.answers);
      if !ok then (t, ReleaseFailed)
      else if !e.saveOk then (t, EvictSaveFailed)
      else (Drop(t, Runtimes(victims)), Room(victims))
  }

  function EnsureCapacity(cfg: Config, s: State, required: int, c: Collection, e: Eviction): (State, Capacity) {
    if required <= 0 then (s, Room([]))
    else
      var (t, collected) := CollectExpired(s, c);
      if collected.SaveFailed? then (t, CollectSaveFailed)
      else EvictOverflow(t, Overflow(cfg, t, required), e)
  }

  /** What a full collection meets before it looks at the expired bindings: the connection,
      whether the adapter could clean up abandoned threads, and the unbound threads in order. */
  datatype Sweep = Sweep(generation: nat, cleanedUp: bool, leftovers: seq<nat>, answers: nat -> Answer)

  ghost predicate SweepFits(s: State, w: Sweep) {
    forall x :: x in w.leftovers <==> x in Unbound(Sync(s, w.generation))
  }

  /** Retry the unbound threads first; an error there ends the collection unless suppressed. */
  function SweepUnbound(s: State, w: Sweep): (State, bool) {
    var t := Sync(s, w.generation);
    if w.cleanedUp then ReleaseAll(t, w.leftovers, w.answers) else (t, false)
  }

  function Collect(s: State, w: Sweep, suppressErrors: bool, c: Collection): (State, Collected) {
    var (t, ok) := SweepUnbound(s, w);
    if !ok && !suppressErrors then (t, SweepFailed) else CollectExpired(t, c)
  }

  ghost predicate CapacityFits(cfg: Config, s: State, c: Collection, e: Eviction) {
    CollectionFits(cfg, s, c) && EvictionFits(CollectExpired(s, c).0, e)
  }

  /** Save the table, then use it. */
  function SaveBindings(s: State, bindings: map<nat, Binding>, saveOk: bool): State {
    if saveOk then s.(bindings := bindings, durable := bindings) else s
  }

  datatype Insertion = Inserted | NoCapacity(why: Capacity) | NotSaved

  /** Own the thread of a binding, then save the table with it. */
  function Placed(s: State, runtime: nat, b: Binding, saveOk: bool): State {
    var t := s.(live := s.live + {b.thread});
    SaveBindings(t, t.bindings[runtime := b], saveOk)
  }

  /** Make room for one more binding, then place it. */
  function Insert(cfg: Config, s: State, runtime: nat, b: Binding, c: Collection, e: Eviction,
          saveOk: bool): (State, Insertion) {
    var (t, capacity) := EnsureCapacity(cfg, s, 1, c, e);
    if !capacity.Room? then (t, NoCapacity(capacity))
    else (Placed(t, runtime, b, saveOk), if saveOk then Inserted else NotSaved)
  }

  datatype Closing = Closed | NotFound | RuntimeBusy | CloseReleaseFailed | CloseNotSaved

  /** Detach a runtime that has no requests, releasing its thread on demand. */
  function Close(s: State, runtime: nat, release: bool, unfinished: bool, a: Answer, now: int,
          saveOk: bool): (State, Closing) {
    if runtime !in s.bindings then (s, NotFound)
    else
      var b := s.bindings[runtime];
      if InUse(s, b.thread, unfinished) then (s, RuntimeBusy)
      else
        var (t, r) := if release then ReleaseThread(s, b.thread, a) else (s, NotOwned);
        if !Succeeded(r) then (t, CloseReleaseFailed)
        else
          (SaveBindings(t, t.bindings[runtime := b.(status := Detached, lastUsed := now)], saveOk),
           if saveOk then Closed else CloseNotSaved)
  }

  /** The unconditional mark after a request: memory changes even when the save fails. */
  function Touch(s: State, runtime: nat, now: int, servers: Option<nat>, saveOk: bool): State {
    if runtime !in s.bindings then s
    else
      var b := s.bindings[runtime];
      var updated := s.bindings[runtime := b.(lastUsed := now, status := Ready, servers := if servers.Some? then servers else b.servers)];
      s.(bindings := updated, durable := if saveOk then updated else s.durable)
  }

  datatype Lookup = Active(binding: Binding) | UnknownRuntime | NotActive

  /** The binding of a usable runtime; a stopped adapter detaches it. */
  function ActiveBinding(s: State, runtime: nat, running: bool): (State, Lookup) {
    if runtime !in s.bindings then (s, UnknownRuntime)
    else
      var b := s.bindings[runtime];
      if !running then (s.(bindings := s.bindings[runtime := b.(status := Detached)]), NotActive)
      else if !b.status.Ready? then (s, NotActive)
      else (s, Active(b))
  }

  /** Register a request: the runtime must still be active and on the same thread. */
  function RegisterRequest(s: State, runtime: nat, thread: nat, running: bool): (State, bool) {
    var (t, found) := ActiveBinding(s, runtime, running);
    if !found.Active? || found.binding.thread != thread then (t, false)
    else (t.(active := t.active[runtime := (if runtime in t.active then t.active[runtime] else 0) + 1]), true)
  }

  function FinishRequest(s: State, runtime: nat, now: int, saveOk: bool): State {
    var t := Touch(s, runtime, now, None, saveOk);
    if runtime !in t.active then t
    else if t.active[runtime] > 1 then t.(active := t.active[runtime := t.active[runtime] - 1])
    else t.(active := t.active - {runtime})
  }

  function Shutdown(s: State): State {
    s.(bindings := map r | r in s.bindings :: s.bindings[r].(status := Detached), live := {}, pending := {})
  }

  // ----- what releasing keeps -----

  /** Same table up to statuses that became detached. */
  ghost predicate OnlyDetached(a: map<nat, Binding>, b: map<nat, Binding>) {
    && a.Keys == b.Keys
    && forall r :: r in a ==> b[r] == a[r] || b[r] == a[r].(status := Detached)
  }

  /** No runtime with requests in flight was changed, and its thread was not handed over. */
  ghost predicate Spares(s: State, t: State) {
    && |s.released| <= |t.released|
    && t.released[..|s.released|] == s.released
    && forall r :: r in s.bindings && HasRequests(s, r) ==>
         && r in t.bindings && t.bindings[r] == s.bindings[r]
         && s.bindings[r].thread !in t.released[|s.released|..]
  }

  /** A section that only releases threads. */
  ghost predicate OnlyReleases(s: State, t: State) {
    && OnlyDetached(s.bindings, t.bindings)
    && t.durable == s.durable && t.active == s.active
    && Spares(s, t)
  }

  lemma SparesTransitive(s: State, t: State, u: State)
    requires Spares(s, t) && Spares(t, u) && s.active == t.active
    ensures Spares(s, u)
  {
    var n, m := |s.released|, |t.released|;
    assert u.released[..n] == u.released[..m][..n];
    forall r | r in s.bindings && HasRequests(s, r)
      ensures r in u.bindings && u.bindings[r] == s.bindings[r] && s.bindings[r].thread !in u.released[n..]
    {
      assert HasRequests(t, r);
      assert u.released[n..] == t.released[n..] + u.released[m..];
    }
  }

  lemma OnlyReleasesTransitive(s: State, t: State, u: State)
    requires OnlyReleases(s, t) && OnlyReleases(t, u)
    ensures OnlyReleases(s, u)
  {
    SparesTransitive(s, t, u);
  }

  lemma ReleaseOnlyReleases(s: State, thread: nat, a: Answer)
    ensures OnlyReleases(s, ReleaseThread(s, thread, a).0)
  {
    var (u, r) := ReleaseThread(s, thread, a);
    var t := Sync(s, a.generation);
    if r.Failed? || r.Confirmed? {
      assert u.released[..|s.released|] == s.released && u.released[|s.released|..] == [thread];
      forall q | q in s.bindings && HasRequests(s, q)
        ensures u.bindings[q] == s.bindings[q] && s.bindings[q].thread !in [thread]
      {
        assert HasRequests(t, q);
      }
    } else {
      assert u.released[|s.released|..] == [];
    }
  }

  /** After a release that succeeded the thread is not owned; after one that failed it waits
      in pending and its bindings are still there, detached. */
  lemma ReleaseOutcome(s: State, thread: nat, a: Answer)
    ensures var (t, r) := ReleaseThread(s, thread, a);
      && Owned(t) <= Owned(s) + {thread}
      && (Succeeded(r) ==> Owned(t) <= Owned(s) - {thread})
      && (r.Busy? ==> Owned(t) <= Owned(s))
      && (r.Failed? ==> thread in t.pending
                        && forall q :: q in s.bindings && s.bindings[q].thread == thread ==>
                             q in t.bindings && t.bindings[q] == s.bindings[q].(status := Detached))
  {
  }

  lemma {:induction false} ReleaseEachOnlyReleases(s: State, targets: seq<Target>, answers: nat -> Answer)
    ensures OnlyReleases(s, ReleaseEach(s, targets, answers).0)
  {
    if targets == [] {
      assert s.released[|s.released|..] == [];
    } else {
      var n := |targets| - 1;
      ReleaseEachOnlyReleases(s, targets[..n], answers);
      var t := ReleaseEach(s, targets[..n], answers).0;
      var u := ReleaseThread(t, targets[n].thread, answers(targets[n].thread)).0;
      ReleaseOnlyReleases(t, targets[n].thread, answers(targets[n].thread));
      OnlyReleasesTransitive(s, t, u);
    }
  }

  lemma {:induction false} ReleaseAllOnlyReleases(s: State, threads: seq<nat>, answers: nat -> Answer)
    ensures OnlyReleases(s, ReleaseAll(s, threads, answers).0)
  {
    if threads == [] {
      assert s.released[|s.released|..] == [];
    } else {
      var n := |threads| - 1;
      ReleaseAllOnlyReleases(s, threads[..n], answers);
      var (t, ok) := ReleaseAll(s, threads[..n], answers);
      if ok {
        var u := ReleaseThread(t, threads[n], answers(threads[n])).0;
        ReleaseOnlyReleases(t, threads[n], answers(threads[n]));
        OnlyReleasesTransitive(s, t, u);
      }
    }
  }

  /** A loop that released all its threads left none of them owned, and owns nothing new. */
  lemma {:induction false} ReleaseAllOwned(s: State, threads: seq<nat>, answers: nat -> Answer)
    ensures var (t, ok) := ReleaseAll(s, threads, answers);
      && (forall x :: x in Owned(t) ==> x in Owned(s) || x in threads)
      && (ok ==> forall x :: x in Owned(t) ==> x in Owned(s) && x !in threads)
  {
    if threads != [] {
      var n := |threads| - 1;
      ReleaseAllOwned(s, threads[..n], answers);
      var (t, ok) := ReleaseAll(s, threads[..n], answers);
      assert threads == threads[..n] + [threads[n]];
      if ok {
        ReleaseOutcome(t, threads[n], answers(threads[n]));
      }
    }
  }

  ghost predicate DistinctThreads(targets: seq<Target>) {
    forall j, k :: 0 <= j < k < |targets| ==> targets[j].thread != targets[k].thread
  }

  ghost predicate Freed(t: State, targets: seq<Target>, k: int, runtime: nat) {
    0 <= k < |targets| && targets[k].runtime == runtime && targets[k].thread !in Owned(t)
  }

  ghost predicate WasFreed(t: State, targets: seq<Target>, runtime: nat) {
    exists k :: Freed(t, targets, k, runtime)
  }

  /** Among different threads, each one whose release succeeded is not owned afterwards. */
  lemma {:induction false} ReleaseEachOwned(s: State, targets: seq<Target>, answers: nat -> Answer)
    requires DistinctThreads(targets)
    ensures forall x :: x in Owned(ReleaseEach(s, targets, answers).0) ==>
      x in Owned(s) || exists k :: 0 <= k < |targets| && targets[k].thread == x
    ensures forall r :: r in ReleaseEach(s, targets, answers).1 ==>
      WasFreed(ReleaseEach(s, targets, answers).0, targets, r)
  {
    if targets != [] {
      var n := |targets| - 1;
      var last := targets[n];
      ReleaseEachOwned(s, targets[..n], answers);
      var t, done := ReleaseEach(s, targets[..n], answers).0, ReleaseEach(s, targets[..n], answers).1;
      var (u, r) := ReleaseThread(t, last.thread, answers(last.thread));
      ReleaseOutcome(t, last.thread, answers(last.thread));
      forall x | x in Owned(u) ensures x in Owned(s) || exists k :: 0 <= k < |targets| && targets[k].thread == x {
        if x !in Owned(s) && x != last.thread {
          var k :| 0 <= k < n && targets[..n][k].thread == x;
          assert targets[k].thread == x;
        }
      }
      forall q | q in done
        ensures WasFreed(u, targets, q)
      {
        assert WasFreed(t, targets[..n], q);
        var k :| Freed(t, targets[..n], k, q);
        assert targets[k].thread != last.thread;
        assert Freed(u, targets, k, q);
      }
      assert Freed(u, targets, n, last.runtime) || !Succeeded(r);
    }
  }
}
