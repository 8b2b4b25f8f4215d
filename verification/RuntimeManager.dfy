/** The runtime manager as its source writes it: an object whose methods are the lock-held
    sections, each proved against its function in RuntimeState. */
module RuntimeManager {
  import opened Options
  import opened RuntimeState

  class CodexRuntimeManager {
    const cfg: Config
    var bindings: map<nat, Binding>
    /** What the binding store holds. */
    var durable: map<nat, Binding>
    var live: set<nat>
    var pending: set<nat>
    var active: map<nat, nat>
    var generation: nat
    /** The threads handed to the adapter's release_thread so far. */
    ghost var released: seq<nat>

    ghost function Abs(): State
      reads this
    {
      State(bindings, durable, live, pending, active, generation, released)
    }

    constructor (cfg: Config, loaded: map<nat, Binding>, generation: nat)
      ensures this.cfg == cfg && Abs() == State(loaded, loaded, {}, {}, map[], generation, [])
    {
      this.cfg, bindings, durable, live, pending, active := cfg, loaded, loaded, {}, {}, map[];
      this.generation, released := generation, [];
    }

    method SyncConnectionGeneration(current: nat)
      modifies this
      ensures Abs() == Sync(old(Abs()), current)
    {
      if current != generation {
        live, pending := {}, {};
        generation := current;
      }
    }

    method ThreadInUse(thread: nat, unfinished: bool) returns (used: bool)
      ensures used == InUse(Abs(), thread, unfinished)
    {
      var todo := bindings.Keys;
      used := false;
      while todo != {}
        invariant todo <= bindings.Keys
        invariant !used
        invariant forall r :: r in bindings && r !in todo ==> !(bindings[r].thread == thread && HasRequests(Abs(), r))
      {
        var r :| r in todo;
        todo := todo - {r};
        if bindings[r].thread == thread && r in active && active[r] > 0 {
          assert HasRequests(Abs(), r);
          return true;
        }
      }
      used := unfinished;
    }

    /** Every binding of the thread becomes detached. */
    method DetachBindings(thread: nat)
      modifies this`bindings
      ensures bindings == DetachThread(old(bindings), thread)
    {
      var todo := bindings.Keys;
      while todo != {}
        invariant todo <= bindings.Keys == old(bindings).Keys
        invariant forall r :: r in todo ==> bindings[r] == old(bindings)[r]
        invariant forall r :: r in bindings && r !in todo ==> bindings[r] == DetachThread(old(bindings), thread)[r]
      {
        var r :| r in todo;
        todo := todo - {r};
        if bindings[r].thread == thread {
          bindings := bindings[r := bindings[r].(status := Detached)];
        }
      }
    }

    /** Release one thread; anything but success is an error of the source. */
    method ReleaseThreadLocked(thread: nat, a: Answer) returns (r: Release)
      modifies this
      ensures (Abs(), r) == ReleaseThread(old(Abs()), thread, a)
    {
      SyncConnectionGeneration(a.generation);
      if thread !in live && thread !in pending && !a.owns {
        return NotOwned;
      }
      var used := ThreadInUse(thread, a.unfinished);
      if used {
        return Busy;
      }
      pending := pending + {thread};
      live := live - {thread};
      DetachBindings(thread);
      released := released + [thread];
      if !a.confirmed {
        return Failed;
      }
      pending := pending - {thread};
      assert pending == old(Sync(Abs(), a.generation)).pending - {thread};
      r := Confirmed;
    }

    /** The expired bindings, in whatever order the table is walked. */
    method ExpiredTargets(now: int, unfinished: set<nat>) returns (targets: seq<Target>)
      ensures Lists(bindings, targets, ExpiredRuntimes(cfg, Abs(), now, unfinished))
    {
      targets := [];
      var todo := bindings.Keys;
      while todo != {}
        invariant todo <= bindings.Keys
        invariant Lists(bindings, targets, ExpiredRuntimes(cfg, Abs(), now, unfinished) - todo)
      {
        var r :| r in todo;
        var used := ThreadInUse(bindings[r].thread, bindings[r].thread in unfinished);
        if now - bindings[r].lastUsed >= cfg.idleTtl && !used {
          ListMore(bindings, targets, ExpiredRuntimes(cfg, Abs(), now, unfinished) - todo, r);
          targets := targets + [Target(r, bindings[r].thread)];
          assert ExpiredRuntimes(cfg, Abs(), now, unfinished) - (todo - {r})
            == ExpiredRuntimes(cfg, Abs(), now, unfinished) - todo + {r};
        } else {
          assert ExpiredRuntimes(cfg, Abs(), now, unfinished) - (todo - {r})
            == ExpiredRuntimes(cfg, Abs(), now, unfinished) - todo;
        }
        todo := todo - {r};
      }
      assert ExpiredRuntimes(cfg, Abs(), now, unfinished) - {} == ExpiredRuntimes(cfg, Abs(), now, unfinished);
    }

    /** Try each expired binding until shutdown is noticed; a failed release is skipped. */
    method ReleaseExpired(expired: seq<Target>, attempted: nat, answers: nat -> Answer) returns (done: set<nat>)
      requires attempted <= |expired|
      modifies this
      ensures Abs() == ReleaseEach(old(Abs()), expired[..attempted], answers).0
      ensures done == ReleaseEach(old(Abs()), expired[..attempted], answers).1
    {
      done := {};
      var i := 0;
      while i < attempted
        invariant 0 <= i <= attempted
        invariant Abs() == ReleaseEach(old(Abs()), expired[..i], answers).0
        invariant done == ReleaseEach(old(Abs()), expired[..i], answers).1
      {
        assert expired[..i + 1][..i] == expired[..i];
        var r := ReleaseThreadLocked(expired[i].thread, answers(expired[i].thread));
        if r.NotOwned? || r.Confirmed? {
          done := done + {expired[i].runtime};
        }
        i := i + 1;
      }
    }

    method DropRuntimes(runtimes: set<nat>)
      modifies this
      ensures Abs() == Drop(old(Abs()), runtimes)
    {
      var updated := bindings - runtimes;
      var threads := set r | r in runtimes && r in bindings :: bindings[r].thread;
      durable := updated;
      bindings := updated;
      live := live - threads;
    }

    method CollectExpiredLocked(now: int, unfinished: set<nat>, tries: nat, answers: nat -> Answer, saveOk: bool)
        returns (collected: Collected, ghost c: Collection)
      modifies this
      ensures CollectionFits(cfg, old(Abs()), c) && c.now == now && c.saveOk == saveOk
      ensures (Abs(), collected) == CollectExpired(old(Abs()), c)
    {
      var expired := ExpiredTargets(now, unfinished);
      var attempted := if tries < |expired| then tries else |expired|;
      c := Collection(now, unfinished, expired, attempted, answers, saveOk);
      var done := ReleaseExpired(expired, attempted, answers);
      if done == {} {
        return CollectedRuntimes({}), c;
      }
      if !saveOk {
        return SaveFailed, c;
      }
      DropRuntimes(done);
      collected := CollectedRuntimes(done);
    }

    /** Put one candidate in its place among those already in order of age. */
    method InsertByAge(sorted: seq<Target>, t: Target) returns (r: seq<Target>, ghost at: nat)
      requires t.runtime in bindings
      requires forall k :: 0 <= k < |sorted| ==> sorted[k].runtime in bindings && sorted[k].runtime != t.runtime
      requires SortedByAge(bindings, sorted)
      ensures at <= |sorted| && r == sorted[..at] + [t] + sorted[at..]
      ensures forall k :: 0 <= k < |r| ==> r[k].runtime in bindings
      ensures SortedByAge(bindings, r)
    {
      var i := 0;
      while i < |sorted| && Older(bindings, sorted[i].runtime, t.runtime)
        invariant 0 <= i <= |sorted|
        invariant forall k :: 0 <= k < i ==> Older(bindings, sorted[k].runtime, t.runtime)
      {
        i := i + 1;
      }
      at := i;
      PlacedByAge(bindings, sorted, t, i);
      r := sorted[..i] + [t] + sorted[i..];
    }

    /** The detached, idle bindings, least recently used first. */
    method EvictionCandidates(unfinished: set<nat>) returns (targets: seq<Target>)
      ensures Lists(bindings, targets, EvictableRuntimes(Abs(), unfinished))
      ensures SortedByAge(bindings, targets)
    {
      targets := [];
      var todo := bindings.Keys;
      while todo != {}
        invariant todo <= bindings.Keys
        invariant Lists(bindings, targets, EvictableRuntimes(Abs(), unfinished) - todo)
        invariant SortedByAge(bindings, targets)
      {
        var r :| r in todo;
        var used := ThreadInUse(bindings[r].thread, bindings[r].thread in unfinished);
        if bindings[r].status.Detached? && !used {
          ghost var was := targets;
          ghost var at;
          targets, at := InsertByAge(targets, Target(r, bindings[r].thread));
          ListBetween(bindings, was, at, EvictableRuntimes(Abs(), unfinished) - todo, r);
          assert EvictableRuntimes(Abs(), unfinished) - (todo - {r}) == EvictableRuntimes(Abs(), unfinished) - todo + {r};
        } else {
          assert EvictableRuntimes(Abs(), unfinished) - (todo - {r}) == EvictableRuntimes(Abs(), unfinished) - todo;
        }
        todo := todo - {r};
      }
      assert EvictableRuntimes(Abs(), unfinished) - {} == EvictableRuntimes(Abs(), unfinished);
    }

    /** Release threads in order, stopping at the first failure. */
    method ReleaseInOrder(threads: seq<nat>, answers: nat -> Answer) returns (ok: bool)
      modifies this
      ensures (Abs(), ok) == ReleaseAll(old(Abs()), threads, answers)
    {
      ok := true;
      var i := 0;
      while i < |threads|
        invariant 0 <= i <= |threads|
        invariant ok && (Abs(), ok) == ReleaseAll(old(Abs()), threads[..i], answers)
      {
        assert threads[..i + 1][..i] == threads[..i];
        var r := ReleaseThreadLocked(threads[i], answers(threads[i]));
        i := i + 1;
        if r.Busy? || r.Failed? {
          StaysFailed(old(Abs()), threads, i, answers);
          return false;
        }
      }
      assert threads[..i] == threads;
    }

    /** Collect what expired, then evict exactly the overflow. */
    method EnsureCapacityLocked(required: int, now: int, expiredBusy: set<nat>, tries: nat, collecting: nat -> Answer,
                                collectSaveOk: bool, evictBusy: set<nat>, evicting: nat -> Answer, evictSaveOk: bool)
        returns (capacity: Capacity, ghost c: Collection, ghost v: Eviction)
      modifies this
      ensures required > 0 ==> CapacityFits(cfg, old(Abs()), c, v)
      ensures (Abs(), capacity) == EnsureCapacity(cfg, old(Abs()), required, c, v)
    {
      c := Collection(now, expiredBusy, [], 0, collecting, collectSaveOk);
      v := Eviction(evictBusy, [], evicting, evictSaveOk);
      if required <= 0 {
        return Room([]), c, v;
      }
      var collected;
      collected, c := CollectExpiredLocked(now, expiredBusy, tries, collecting, collectSaveOk);
      var candidates := EvictionCandidates(evictBusy);
      v := Eviction(evictBusy, candidates, evicting, evictSaveOk);
      if collected.SaveFailed? {
        return CollectSaveFailed, c, v;
      }
      capacity := EvictLocked(required, candidates, evicting, evictSaveOk, v);
    }

    method CountUnbound() returns (n: nat)
      ensures n == |Unbound(Abs())|
    {
      var bound := set r | r in bindings :: bindings[r].thread;
      n := |(live + pending) - bound|;
    }

    method EvictLocked(required: int, candidates: seq<Target>, answers: nat -> Answer, saveOk: bool, ghost v: Eviction)
        returns (capacity: Capacity)
      requires v.candidates == candidates && v.answers == answers && v.saveOk == saveOk
      modifies this
      ensures (Abs(), capacity) == EvictOverflow(old(Abs()), Overflow(cfg, old(Abs()), required), v)
    {
      var unbound := CountUnbound();
      var overflow := |bindings| + unbound + required - cfg.maxRuntimes;
      if overflow <= 0 {
        return Room([]);
      }
      if |candidates| < overflow {
        return LimitReached;
      }
      var victims := candidates[..overflow];
      var ok := ReleaseInOrder(Threads(victims), answers);
      if !ok {
        return ReleaseFailed;
      }
      if !saveOk {
        return EvictSaveFailed;
      }
      DropRuntimes(Runtimes(victims));
      capacity := Room(victims);
    }

    /** Save the table, then use it. */
    method SaveBindings(updated: map<nat, Binding>, saveOk: bool) returns (ok: bool)
      modifies this`bindings, this`durable
      ensures ok == saveOk && Abs() == RuntimeState.SaveBindings(old(Abs()), updated, saveOk)
    {
      if !saveOk {
        return false;
      }
      durable := updated;
      bindings := updated;
      ok := true;
    }

    /** Own the thread of a binding, then save the table with it. */
    method PlaceBinding(runtime: nat, b: Binding, saveOk: bool) returns (ok: bool)
      modifies this
      ensures ok == saveOk && Abs() == Placed(old(Abs()), runtime, b, saveOk)
    {
      live := live + {b.thread};
      ok := SaveBindings(bindings[runtime := b], saveOk);
    }

    /** The section that stores a new binding: capacity, ownership, save. */
    method InsertBinding(runtime: nat, b: Binding, now: int, expiredBusy: set<nat>, tries: nat,
            collecting: nat -> Answer,
                         collectSaveOk: bool, evictBusy: set<nat>, evicting: nat -> Answer, evictSaveOk: bool, saveOk: bool)
        returns (result: Insertion, ghost c: Collection, ghost v: Eviction)
      modifies this
      ensures CapacityFits(cfg, old(Abs()), c, v)
      ensures (Abs(), result) == Insert(cfg, old(Abs()), runtime, b, c, v, saveOk)
    {
      var capacity;
      capacity, c, v := EnsureCapacityLocked(1, now, expiredBusy, tries, collecting, collectSaveOk, evictBusy, evicting, evictSaveOk);
      if !capacity.Room? {
        return NoCapacity(capacity), c, v;
      }
      var ok := PlaceBinding(runtime, b, saveOk);
      result := if ok then Inserted else NotSaved;
    }

    /** The owned threads without a binding, in some order. */
    method UnboundThreads() returns (threads: seq<nat>)
      ensures forall x :: x in threads <==> x in Unbound(Abs())
    {
      var bound := set r | r in bindings :: bindings[r].thread;
      var todo := (live + pending) - bound;
      threads := [];
      while todo != {}
        invariant todo <= Unbound(Abs())
        invariant forall x :: x in threads <==> x in Unbound(Abs()) && x !in todo
      {
        var x :| x in todo;
        todo := todo - {x};
        threads := threads + [x];
      }
    }

    /** The full collection: abandoned and unbound threads first, then the expired bindings. */
    method CollectExpiredIdle(current: nat, cleanedUp: bool, sweeping: nat -> Answer, suppressErrors: bool,
                              now: int, expiredBusy: set<nat>, tries: nat, collecting: nat -> Answer, saveOk: bool)
        returns (collected: Collected, ghost w: Sweep, ghost c: Collection)
      modifies this
      ensures SweepFits(old(Abs()), w)
      ensures CollectionFits(cfg, SweepUnbound(old(Abs()), w).0, c)
        || (collected.SweepFailed? && !SweepUnbound(old(Abs()), w).1 && !suppressErrors)
      ensures (Abs(), collected) == Collect(old(Abs()), w, suppressErrors, c)
    {
      c := Collection(now, expiredBusy, [], 0, collecting, saveOk);
      SyncConnectionGeneration(current);
      var leftovers := UnboundThreads();
      w := Sweep(current, cleanedUp, leftovers, sweeping);
      var ok := cleanedUp;
      if cleanedUp {
        ok := ReleaseInOrder(leftovers, sweeping);
      }
      if !ok && !suppressErrors {
        return SweepFailed, w, c;
      }
      collected, c := CollectExpiredLocked(now, expiredBusy, tries, collecting, saveOk);
    }

    method CloseRuntime(runtime: nat, release: bool, unfinished: bool, a: Answer, now: int, saveOk: bool)
        returns (closing: Closing)
      modifies this
      ensures (Abs(), closing) == Close(old(Abs()), runtime, release, unfinished, a, now, saveOk)
    {
      if runtime !in bindings {
        return NotFound;
      }
      var b := bindings[runtime];
      var used := ThreadInUse(b.thread, unfinished);
      if used {
        return RuntimeBusy;
      }
      if release {
        var r := ReleaseThreadLocked(b.thread, a);
        if r.Busy? || r.Failed? {
          return CloseReleaseFailed;
        }
      }
      var ok := SaveBindings(bindings[runtime := b.(status := Detached, lastUsed := now)], saveOk);
      closing := if ok then Closed else CloseNotSaved;
    }

    method TouchRuntime(runtime: nat, now: int, servers: Option<nat>, saveOk: bool)
      modifies this`bindings, this`durable
      ensures Abs() == Touch(old(Abs()), runtime, now, servers, saveOk)
    {
      if runtime !in bindings {
        return;
      }
      var b := bindings[runtime];
      var count := if servers.Some? then servers else b.servers;
      var updated := bindings[runtime := b.(lastUsed := now, status := Ready, servers := count)];
      if saveOk {
        durable := updated;
      }
      bindings := updated;
    }

    method LookUpActive(runtime: nat, running: bool) returns (found: Lookup)
      modifies this`bindings
      ensures (Abs(), found) == ActiveBinding(old(Abs()), runtime, running)
    {
      if runtime !in bindings {
        return UnknownRuntime;
      }
      var b := bindings[runtime];
      if !running {
        bindings := bindings[runtime := b.(status := Detached)];
        return NotActive;
      }
      found := if b.status.Ready? then Active(b) else NotActive;
    }

    /** First half of a request slot: count the request if its runtime is still the same. */
    method StartRequest(runtime: nat, thread: nat, running: bool) returns (registered: bool)
      modifies this
      ensures (Abs(), registered) == RegisterRequest(old(Abs()), runtime, thread, running)
    {
      var found := LookUpActive(runtime, running);
      if !found.Active? || found.binding.thread != thread {
        return false;
      }
      var count := if runtime in active then active[runtime] else 0;
      active := active[runtime := count + 1];
      registered := true;
    }

    /** Second half: the runtime counts as used now, and the request is no longer in flight. */
    method EndRequest(runtime: nat, now: int, saveOk: bool)
      modifies this
      ensures Abs() == FinishRequest(old(Abs()), runtime, now, saveOk)
    {
      TouchRuntime(runtime, now, None, saveOk);
      if runtime in active {
        if active[runtime] > 1 {
          active := active[runtime := active[runtime] - 1];
        } else {
          active := active - {runtime};
        }
      }
    }

    method ShutDown()
      modifies this
      ensures Abs() == Shutdown(old(Abs()))
    {
      DetachAll();
      live, pending := {}, {};
    }

    method DetachAll()
      modifies this`bindings
      ensures bindings == map r | r in old(bindings) :: old(bindings)[r].(status := Detached)
    {
      var todo := bindings.Keys;
      while todo != {}
        invariant todo <= bindings.Keys == old(bindings).Keys
        invariant forall r :: r in todo ==> bindings[r] == old(bindings)[r]
        invariant forall r :: r in bindings && r !in todo ==> bindings[r] == old(bindings)[r].(status := Detached)
      {
        var r :| r in todo;
        todo := todo - {r};
        bindings := bindings[r := bindings[r].(status := Detached)];
      }
    }
  }

  lemma ListMore(bindings: map<nat, Binding>, targets: seq<Target>, runtimes: set<nat>, r: nat)
    requires Lists(bindings, targets, runtimes) && r in bindings && r !in runtimes
    ensures Lists(bindings, targets + [Target(r, bindings[r].thread)], runtimes + {r})
  {
    ListBetween(bindings, targets, |targets|, runtimes, r);
    assert targets[..|targets|] + [Target(r, bindings[r].thread)] + targets[|targets|..]
      == targets + [Target(r, bindings[r].thread)];
  }

  lemma ListBetween(bindings: map<nat, Binding>, targets: seq<Target>, at: nat, runtimes: set<nat>, r: nat)
    requires Lists(bindings, targets, runtimes) && r in bindings && r !in runtimes && at <= |targets|
    ensures Lists(bindings, targets[..at] + [Target(r, bindings[r].thread)] + targets[at..], runtimes + {r})
  {
    var all := targets[..at] + [Target(r, bindings[r].thread)] + targets[at..];
    assert all[at].runtime == r;
    forall q | q in runtimes + {r} ensures exists k :: 0 <= k < |all| && all[k].runtime == q {
      if q != r {
        var k :| 0 <= k < |targets| && targets[k].runtime == q;
        assert all[if k < at then k else k + 1].runtime == q;
      }
    }
  }

  /** The age order is total on different runtimes. */
  lemma PlacedByAge(bindings: map<nat, Binding>, sorted: seq<Target>, t: Target, at: nat)
    requires t.runtime in bindings && at <= |sorted|
    requires forall k :: 0 <= k < |sorted| ==> sorted[k].runtime in bindings && sorted[k].runtime != t.runtime
    requires SortedByAge(bindings, sorted)
    requires forall k :: 0 <= k < at ==> Older(bindings, sorted[k].runtime, t.runtime)
    requires at < |sorted| ==> !Older(bindings, sorted[at].runtime, t.runtime)
    ensures var r := sorted[..at] + [t] + sorted[at..];
      (forall k :: 0 <= k < |r| ==> r[k].runtime in bindings) && SortedByAge(bindings, r)
  {
    var r := sorted[..at] + [t] + sorted[at..];
    forall k | at <= k < |sorted| ensures Older(bindings, t.runtime, sorted[k].runtime) {
      assert k > at ==> Older(bindings, sorted[at].runtime, sorted[k].runtime);
    }
    forall j, k | 0 <= j < k < |r| ensures Older(bindings, r[j].runtime, r[k].runtime) {
      assert r[j] == if j < at then sorted[j] else if j == at then t else sorted[j - 1];
      assert r[k] == if k < at then sorted[k] else if k == at then t else sorted[k - 1];
    }
  }

  /** Once a release failed, the rest of the loop is not run. */
  lemma {:induction false} StaysFailed(s: State, threads: seq<nat>, i: nat, answers: nat -> Answer)
    requires i <= |threads| && !ReleaseAll(s, threads[..i], answers).1
    ensures ReleaseAll(s, threads, answers) == ReleaseAll(s, threads[..i], answers)
    decreases |threads|
  {
    if i == |threads| {
      assert threads[..i] == threads;
    } else {
      var n := |threads| - 1;
      assert threads[..n][..i] == threads[..i];
      StaysFailed(s, threads[..n], i, answers);
    }
  }
}
