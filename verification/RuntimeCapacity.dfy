/** What collection, eviction and insertion keep: which bindings may leave the table, what
    happens to busy ones, and how many bindings and leftover threads there can be. */
module RuntimeCapacity {
  import opened Options
  import opened Sets
  import opened RuntimeState

  ghost predicate Distinct(bindings: map<nat, Binding>) {
    forall a, b :: a in bindings && b in bindings && bindings[a].thread == bindings[b].thread ==> a == b
  }

  /** The part of a binding that must survive a restart. */
  datatype Identity = Identity(thread: nat, cwd: string, sandbox: nat, name: Option<string>, created: int)

  function IdentityOf(b: Binding): Identity {
    Identity(b.thread, b.cwd, b.sandbox, b.name, b.created)
  }

  ghost predicate SameIdentities(a: map<nat, Binding>, b: map<nat, Binding>) {
    a.Keys == b.Keys && forall r :: r in a ==> IdentityOf(a[r]) == IdentityOf(b[r])
  }

  /** A binding leaves the table only when its thread is owned no more. */
  ghost predicate LeavesReleased(s: State, t: State) {
    forall r :: r in s.bindings && r !in t.bindings ==> s.bindings[r].thread !in Owned(t)
  }

  /** A section that can only detach bindings and drop released ones. */
  ghost predicate Shrinks(s: State, t: State) {
    && (forall r :: r in t.bindings ==>
          r in s.bindings && (t.bindings[r] == s.bindings[r] || t.bindings[r] == s.bindings[r].(status := Detached)))
    && LeavesReleased(s, t)
    && (forall x :: x in Owned(t) ==> x in Owned(s) || x in Bound(s.bindings))
    && t.active == s.active
    && Spares(s, t)
    && (SameIdentities(s.durable, s.bindings) ==> SameIdentities(t.durable, t.bindings))
  }

  lemma ShrinksTransitive(s: State, t: State, u: State)
    requires Shrinks(s, t) && Shrinks(t, u) && Distinct(s.bindings)
    ensures Shrinks(s, u)
  {
    SparesTransitive(s, t, u);
    assert Bound(t.bindings) <= Bound(s.bindings) by {
      forall r | r in t.bindings ensures t.bindings[r].thread in Bound(s.bindings) {
        assert s.bindings[r].thread == t.bindings[r].thread;
      }
    }
    forall r | r in s.bindings && r !in u.bindings ensures s.bindings[r].thread !in Owned(u) {
      if r !in t.bindings {
        forall q | q in t.bindings ensures t.bindings[q].thread != s.bindings[r].thread {
          assert s.bindings[q].thread == t.bindings[q].thread;
        }
      }
    }
  }

  lemma ShrinksKeepsDistinct(s: State, t: State)
    requires Shrinks(s, t) && Distinct(s.bindings)
    ensures Distinct(t.bindings)
  {
    forall a, b | a in t.bindings && b in t.bindings && t.bindings[a].thread == t.bindings[b].thread ensures a == b {
      assert s.bindings[a].thread == s.bindings[b].thread;
    }
  }

  /** Releasing bound threads only detaches. */
  lemma ReleasingShrinks(s: State, t: State)
    requires OnlyReleases(s, t)
    requires forall x :: x in Owned(t) ==> x in Owned(s) || x in Bound(s.bindings)
    ensures Shrinks(s, t)
  {
    if SameIdentities(s.durable, s.bindings) {
      forall r | r in t.durable ensures IdentityOf(t.durable[r]) == IdentityOf(t.bindings[r]) {
        assert IdentityOf(s.durable[r]) == IdentityOf(s.bindings[r]);
      }
    }
  }

  /** Dropping runtimes without requests whose threads are released. */
  lemma DropShrinks(s: State, runtimes: set<nat>)
    requires forall r :: r in runtimes && r in s.bindings ==> s.bindings[r].thread !in Owned(s) && !HasRequests(s, r)
    ensures Shrinks(s, Drop(s, runtimes))
  {
    var t := Drop(s, runtimes);
    assert t.released[|s.released|..] == [];
  }

  // ----- collection -----

  lemma TargetsDistinct(bindings: map<nat, Binding>, targets: seq<Target>, runtimes: set<nat>)
    requires Distinct(bindings) && Lists(bindings, targets, runtimes)
    ensures DistinctThreads(targets)
  {
    forall j, k | 0 <= j < k < |targets| ensures targets[j].thread != targets[k].thread {
      assert IsTarget(bindings, targets[j]) && IsTarget(bindings, targets[k]);
    }
  }

  /** The table after the collector's loop: only detached, and what it released is free. */
  lemma CollectLoop(s: State, targets: seq<Target>, answers: nat -> Answer)
    requires DistinctThreads(targets)
    requires forall k :: 0 <= k < |targets| ==> IsTarget(s.bindings, targets[k]) && !HasRequests(s, targets[k].runtime)
    ensures Shrinks(s, ReleaseEach(s, targets, answers).0)
    ensures forall r :: r in ReleaseEach(s, targets, answers).1 ==>
      var t := ReleaseEach(s, targets, answers).0;
      r in t.bindings && t.bindings[r].thread !in Owned(t) && !HasRequests(t, r)
  {
    var t, done := ReleaseEach(s, targets, answers).0, ReleaseEach(s, targets, answers).1;
    ReleaseEachOnlyReleases(s, targets, answers);
    ReleaseEachOwned(s, targets, answers);
    forall x | x in Owned(t) ensures x in Owned(s) || x in Bound(s.bindings) {
      if x !in Owned(s) {
        var k :| 0 <= k < |targets| && targets[k].thread == x;
        assert IsTarget(s.bindings, targets[k]);
      }
    }
    ReleasingShrinks(s, t);
    forall r | r in done ensures r in t.bindings && t.bindings[r].thread !in Owned(t) && !HasRequests(t, r) {
      assert WasFreed(t, targets, r);
      var k :| Freed(t, targets, k, r);
      assert IsTarget(s.bindings, targets[k]);
    }
  }

  lemma ExpiredAreIdle(cfg: Config, s: State, c: Collection, targets: seq<Target>)
    requires CollectionFits(cfg, s, c) && targets <= c.expired
    ensures forall k :: 0 <= k < |targets| ==> IsTarget(s.bindings, targets[k]) && !HasRequests(s, targets[k].runtime)
  {
    forall k | 0 <= k < |targets| ensures IsTarget(s.bindings, targets[k]) && !HasRequests(s, targets[k].runtime) {
      var r := targets[k].runtime;
      assert c.expired[k] == targets[k];
      assert Expired(cfg, s, c.now, c.unfinished, r);
    }
  }

  /** A collection, whatever fails in it, only detaches and drops released, idle bindings. */
  lemma CollectExpiredShrinks(cfg: Config, s: State, c: Collection)
    requires Distinct(s.bindings) && CollectionFits(cfg, s, c)
    ensures Shrinks(s, CollectExpired(s, c).0)
    ensures Distinct(CollectExpired(s, c).0.bindings)
  {
    var tried := c.expired[..c.attempted];
    ExpiredAreIdle(cfg, s, c, tried);
    TargetsDistinct(s.bindings, c.expired, ExpiredRuntimes(cfg, s, c.now, c.unfinished));
    CollectLoop(s, tried, c.answers);
    var t, done := ReleaseEach(s, tried, c.answers).0, ReleaseEach(s, tried, c.answers).1;
    ShrinksKeepsDistinct(s, t);
    if done != {} && c.saveOk {
      DropShrinks(t, done);
      ShrinksTransitive(s, t, Drop(t, done));
    }
    ShrinksKeepsDistinct(s, CollectExpired(s, c).0);
  }

  /** A collection drops exactly the runtimes it names: each had been idle for the whole time to
      live and had no requests. When every expired thread is released and the save succeeds, all
      of them go. */
  lemma CollectionIsExact(cfg: Config, s: State, c: Collection)
    requires Distinct(s.bindings) && CollectionFits(cfg, s, c)
    ensures var r := CollectExpired(s, c);
      && r.0.bindings.Keys == s.bindings.Keys - (if r.1.CollectedRuntimes? then r.1.runtimes else {})
      && (r.1.CollectedRuntimes? ==> r.1.runtimes <= ExpiredRuntimes(cfg, s, c.now, c.unfinished))
      && (r.1.SaveFailed? ==> !c.saveOk)
    ensures c.saveOk && c.attempted == |c.expired| && ReleasesAll(s, c.answers) ==>
      CollectExpired(s, c).1 == CollectedRuntimes(ExpiredRuntimes(cfg, s, c.now, c.unfinished))
  {
    var tried := c.expired[..c.attempted];
    ExpiredAreIdle(cfg, s, c, tried);
    TargetsDistinct(s.bindings, c.expired, ExpiredRuntimes(cfg, s, c.now, c.unfinished));
    CollectLoop(s, tried, c.answers);
    var done := ReleaseEach(s, tried, c.answers).1;
    ReleaseEachOnlyReleases(s, tried, c.answers);
    forall r | r in done ensures r in ExpiredRuntimes(cfg, s, c.now, c.unfinished) {
      assert WasFreed(ReleaseEach(s, tried, c.answers).0, tried, r) by { ReleaseEachOwned(s, tried, c.answers); }
      var k :| Freed(ReleaseEach(s, tried, c.answers).0, tried, k, r);
      assert c.expired[k] == tried[k];
    }
    if c.saveOk && c.attempted == |c.expired| && ReleasesAll(s, c.answers) {
      assert tried == c.expired;
      ReleaseEachDone(s, tried, c.answers);
      assert done == ExpiredRuntimes(cfg, s, c.now, c.unfinished) by {
        forall r | r in ExpiredRuntimes(cfg, s, c.now, c.unfinished) ensures r in done {
          var k :| 0 <= k < |c.expired| && c.expired[k].runtime == r;
        }
      }
    }
  }

  /** The adapter confirms, on the same connection, and finds nothing unfinished. */
  predicate AlwaysReleased(s: State, a: Answer) {
    a.generation == s.generation && !a.unfinished && a.confirmed
  }

  /** The adapter releases every thread it is asked about. */
  ghost predicate ReleasesAll(s: State, answers: nat -> Answer) {
    forall x: nat :: AlwaysReleased(s, answers(x))
  }

  /** Idle threads that the adapter always releases are all done. */
  lemma {:induction false} ReleaseEachDone(s: State, targets: seq<Target>, answers: nat -> Answer)
    requires forall k :: 0 <= k < |targets| ==> IsTarget(s.bindings, targets[k]) && !HasRequests(s, targets[k].runtime)
    requires Distinct(s.bindings) && ReleasesAll(s, answers)
    ensures ReleaseEach(s, targets, answers).0.generation == s.generation
    ensures forall k :: 0 <= k < |targets| ==> targets[k].runtime in ReleaseEach(s, targets, answers).1
    decreases |targets|
  {
    if targets != [] {
      var n := |targets| - 1;
      var first, last := targets[..n], targets[n];
      ReleaseEachDone(s, first, answers);
      ReleaseEachOnlyReleases(s, first, answers);
      assert AlwaysReleased(s, answers(last.thread));
      NotInUse(s, ReleaseEach(s, first, answers).0, last, answers(last.thread));
      forall k | 0 <= k < |targets| ensures targets[k].runtime in ReleaseEach(s, targets, answers).1 {
        assert k < n ==> first[k] == targets[k];
      }
    }
  }

  lemma NotInUse(s: State, t: State, target: Target, a: Answer)
    requires IsTarget(s.bindings, target) && !HasRequests(s, target.runtime) && Distinct(s.bindings)
    requires OnlyDetached(s.bindings, t.bindings) && t.active == s.active
    requires t.generation == a.generation && !a.unfinished && a.confirmed
    ensures Succeeded(ReleaseThread(t, target.thread, a).1)
    ensures ReleaseThread(t, target.thread, a).0.generation == t.generation
  {
    forall r | r in t.bindings && t.bindings[r].thread == target.thread ensures !HasRequests(t, r) {
      assert s.bindings[r].thread == s.bindings[target.runtime].thread;
    }
  }

  // ----- eviction -----

  lemma ThreadIn(targets: seq<Target>, k: nat)
    requires k < |targets|
    ensures targets[k].thread in Threads(targets)
  {
    assert Threads(targets)[k] == targets[k].thread;
  }

  /** The eviction loop over bound threads, complete or not. */
  lemma EvictLoop(s: State, victims: seq<Target>, answers: nat -> Answer)
    requires forall k :: 0 <= k < |victims| ==> IsTarget(s.bindings, victims[k]) && !HasRequests(s, victims[k].runtime)
    ensures Shrinks(s, ReleaseAll(s, Threads(victims), answers).0)
    ensures ReleaseAll(s, Threads(victims), answers).0.bindings.Keys == s.bindings.Keys
    ensures ReleaseAll(s, Threads(victims), answers).1 ==>
      forall k :: 0 <= k < |victims| ==> victims[k].thread !in Owned(ReleaseAll(s, Threads(victims), answers).0)
    ensures ReleaseAll(s, Threads(victims), answers).1 ==> Owned(ReleaseAll(s, Threads(victims), answers).0) <= Owned(s)
  {
    var threads := Threads(victims);
    var t, ok := ReleaseAll(s, threads, answers).0, ReleaseAll(s, threads, answers).1;
    ReleaseAllOnlyReleases(s, threads, answers);
    ReleaseAllOwned(s, threads, answers);
    forall x | x in Owned(t) ensures x in Owned(s) || x in Bound(s.bindings) {
      if x !in Owned(s) {
        var k :| 0 <= k < |threads| && threads[k] == x;
        assert IsTarget(s.bindings, victims[k]);
      }
    }
    ReleasingShrinks(s, t);
    if ok {
      forall k | 0 <= k < |victims| ensures victims[k].thread !in Owned(t) {
        ThreadIn(victims, k);
      }
    }
  }

  /** The bindings an eviction may take: detached, idle, in order of age. */
  lemma VictimsAreIdle(s: State, e: Eviction, victims: seq<Target>)
    requires EvictionFits(s, e) && victims <= e.candidates
    ensures forall k :: 0 <= k < |victims| ==>
      IsTarget(s.bindings, victims[k]) && s.bindings[victims[k].runtime].status.Detached? && !HasRequests(s, victims[k].runtime)
  {
    forall k | 0 <= k < |victims|
      ensures IsTarget(s.bindings, victims[k]) && s.bindings[victims[k].runtime].status.Detached? && !HasRequests(s, victims[k].runtime)
    {
      assert e.candidates[k] == victims[k];
      assert Evictable(s, e.unfinished, victims[k].runtime);
    }
  }

  /** Eviction, whatever fails in it, only detaches and drops released, idle bindings. */
  lemma EvictOverflowShrinks(s: State, overflow: int, e: Eviction)
    requires Distinct(s.bindings) && EvictionFits(s, e)
    ensures Shrinks(s, EvictOverflow(s, overflow, e).0)
  {
    assert s.released[|s.released|..] == [];
    if 0 < overflow <= |e.candidates| {
      var victims := e.candidates[..overflow];
      VictimsAreIdle(s, e, victims);
      EvictLoop(s, victims, e.answers);
      var t, ok := ReleaseAll(s, Threads(victims), e.answers).0, ReleaseAll(s, Threads(victims), e.answers).1;
      if ok && e.saveOk {
        forall r | r in Runtimes(victims) && r in t.bindings ensures t.bindings[r].thread !in Owned(t) && !HasRequests(t, r) {
          var k :| 0 <= k < |victims| && victims[k].runtime == r;
          assert IsTarget(s.bindings, victims[k]);
        }
        DropShrinks(t, Runtimes(victims));
        ShrinksTransitive(s, t, Drop(t, Runtimes(victims)));
      }
    }
  }

  lemma EnsureCapacityShrinks(cfg: Config, s: State, required: int, c: Collection, e: Eviction)
    requires Distinct(s.bindings) && CapacityFits(cfg, s, c, e)
    ensures Shrinks(s, EnsureCapacity(cfg, s, required, c, e).0)
    ensures Distinct(EnsureCapacity(cfg, s, required, c, e).0.bindings)
  {
    assert s.released[|s.released|..] == [];
    CollectExpiredShrinks(cfg, s, c);
    if required > 0 && !CollectExpired(s, c).1.SaveFailed? {
      var t := CollectExpired(s, c).0;
      EvictOverflowShrinks(t, Overflow(cfg, t, required), e);
      ShrinksTransitive(s, t, EvictOverflow(t, Overflow(cfg, t, required), e).0);
    }
    ShrinksKeepsDistinct(s, EnsureCapacity(cfg, s, required, c, e).0);
  }

  lemma {:induction false} RuntimesCount(bindings: map<nat, Binding>, targets: seq<Target>)
    requires forall j, k :: 0 <= j < k < |targets| ==> targets[j].runtime != targets[k].runtime
    requires forall k :: 0 <= k < |targets| ==> targets[k].runtime in bindings
    ensures |Runtimes(targets)| == |targets| && Runtimes(targets) <= bindings.Keys
    decreases |targets|
  {
    if targets != [] {
      var n := |targets| - 1;
      RuntimesCount(bindings, targets[..n]);
      assert Runtimes(targets) == Runtimes(targets[..n]) + {targets[n].runtime};
      assert targets[n].runtime !in Runtimes(targets[..n]);
    }
  }

  /** The first candidates are the oldest ones. */
  lemma OldestFirst(s: State, e: Eviction, victims: seq<Target>)
    requires EvictionFits(s, e) && victims <= e.candidates
    ensures Runtimes(victims) <= EvictableRuntimes(s, e.unfinished)
    ensures forall v, c :: v in Runtimes(victims) && c in EvictableRuntimes(s, e.unfinished) - Runtimes(victims) ==>
      Older(s.bindings, v, c)
  {
    forall v | v in Runtimes(victims) ensures v in EvictableRuntimes(s, e.unfinished) {
      var j :| 0 <= j < |victims| && victims[j].runtime == v;
      assert e.candidates[j] == victims[j];
    }
    forall v, c | v in Runtimes(victims) && c in EvictableRuntimes(s, e.unfinished) - Runtimes(victims)
      ensures Older(s.bindings, v, c)
    {
      var j :| 0 <= j < |victims| && victims[j].runtime == v;
      var k :| 0 <= k < |e.candidates| && e.candidates[k].runtime == c;
      forall m | 0 <= m < |victims| ensures e.candidates[m].runtime != c {
        assert e.candidates[m] == victims[m] && victims[m].runtime in Runtimes(victims);
      }
      assert e.candidates[j] == victims[j];
    }
  }

  /** A successful eviction takes exactly the overflow: the oldest candidates, all detached and
      idle. No victim is newer than a candidate that stays. */
  lemma EvictionIsExact(s: State, overflow: int, e: Eviction)
    requires EvictionFits(s, e) && EvictOverflow(s, overflow, e).1.Room?
    ensures var t, victims := EvictOverflow(s, overflow, e).0, EvictOverflow(s, overflow, e).1.evicted;
      && |victims| == (if overflow > 0 then overflow else 0)
      && t.bindings.Keys == s.bindings.Keys - Runtimes(victims)
      && |t.bindings| == |s.bindings| - |victims|
      && Runtimes(victims) <= EvictableRuntimes(s, e.unfinished)
      && forall v, c :: v in Runtimes(victims) && c in EvictableRuntimes(s, e.unfinished) - Runtimes(victims) ==>
           Older(s.bindings, v, c)
  {
    var victims := EvictOverflow(s, overflow, e).1.evicted;
    OldestFirst(s, e, victims);
    if overflow > 0 {
      VictimsLeave(s, e, victims);
    } else {
      assert Runtimes(victims) == {};
    }
  }

  lemma VictimsLeave(s: State, e: Eviction, victims: seq<Target>)
    requires EvictionFits(s, e) && victims <= e.candidates
    ensures var t := Drop(ReleaseAll(s, Threads(victims), e.answers).0, Runtimes(victims));
      t.bindings.Keys == s.bindings.Keys - Runtimes(victims) && |t.bindings| == |s.bindings| - |victims|
  {
    VictimsAreIdle(s, e, victims);
    ReleaseAllOnlyReleases(s, Threads(victims), e.answers);
    var t := Drop(ReleaseAll(s, Threads(victims), e.answers).0, Runtimes(victims));
    forall j, k | 0 <= j < k < |victims| ensures victims[j].runtime != victims[k].runtime {
      assert e.candidates[j] == victims[j] && e.candidates[k] == victims[k];
    }
    RuntimesCount(s.bindings, victims);
    assert t.bindings.Keys == s.bindings.Keys - Runtimes(victims);
    assert |t.bindings| == |t.bindings.Keys|;
    assert |s.bindings| == |s.bindings.Keys|;
  }

  /** Victims are out of the table and free, so the number of leftover threads has not grown. */
  lemma UnboundAfterEviction(s: State, overflow: int, e: Eviction)
    requires Distinct(s.bindings) && EvictionFits(s, e) && EvictOverflow(s, overflow, e).1.Room?
    ensures Unbound(EvictOverflow(s, overflow, e).0) <= Unbound(s)
  {
    var t := EvictOverflow(s, overflow, e).0;
    EvictOverflowShrinks(s, overflow, e);
    if overflow > 0 {
      var victims := e.candidates[..overflow];
      VictimsAreIdle(s, e, victims);
      EvictLoop(s, victims, e.answers);
      assert Owned(t) <= Owned(s);
      forall x | x in Unbound(t) ensures x in Unbound(s) {
        forall r | r in s.bindings ensures s.bindings[r].thread != x {
          assert r in t.bindings ==> t.bindings[r].thread == s.bindings[r].thread;
        }
      }
    }
  }

  /** Once room is made, the table, the leftover threads and what is required fit the limit. */
  lemma RoomIsEnough(cfg: Config, s: State, required: int, c: Collection, e: Eviction)
    requires Distinct(s.bindings) && CapacityFits(cfg, s, c, e) && required > 0
    requires EnsureCapacity(cfg, s, required, c, e).1.Room?
    ensures var t := EnsureCapacity(cfg, s, required, c, e).0;
      |t.bindings| + |Unbound(t)| + required <= cfg.maxRuntimes
  {
    CollectExpiredShrinks(cfg, s, c);
    var g := CollectExpired(s, c).0;
    var overflow := Overflow(cfg, g, required);
    EvictionIsExact(g, overflow, e);
    UnboundAfterEviction(g, overflow, e);
    SubsetSize(Unbound(EvictOverflow(g, overflow, e).0), Unbound(g));
  }

  // ----- insertion -----

  /** One more binding whose thread becomes owned adds no leftover thread. */
  lemma AddedBinding(g: State, t: State, runtime: nat, b: Binding)
    requires runtime !in g.bindings && t.bindings == g.bindings[runtime := b]
    requires Owned(t) == Owned(g) + {b.thread}
    ensures |t.bindings| == |g.bindings| + 1 && |Unbound(t)| <= |Unbound(g)|
  {
    assert t.bindings.Keys == g.bindings.Keys + {runtime};
    assert |t.bindings| == |t.bindings.Keys| && |g.bindings| == |g.bindings.Keys|;
    forall x | x in Unbound(t) ensures x in Unbound(g) {
      assert x != b.thread by { assert t.bindings[runtime].thread == b.thread; }
      forall r | r in g.bindings ensures g.bindings[r].thread != x {
        assert t.bindings[r] == g.bindings[r];
      }
    }
    SubsetSize(Unbound(t), Unbound(g));
  }

  lemma AddedDistinct(bindings: map<nat, Binding>, runtime: nat, b: Binding)
    requires Distinct(bindings) && b.thread !in Bound(bindings)
    ensures Distinct(bindings[runtime := b])
  {
    var all := bindings[runtime := b];
    forall x, y | x in all && y in all && all[x].thread == all[y].thread ensures x == y {
      assert x != runtime ==> all[x].thread in Bound(bindings);
      assert y != runtime ==> all[y].thread in Bound(bindings);
    }
  }

  lemma StillUnbound(s: State, g: State, thread: nat)
    requires Shrinks(s, g) && thread !in Bound(s.bindings)
    ensures thread !in Bound(g.bindings)
  {
    forall r | r in g.bindings ensures g.bindings[r].thread != thread {
      assert g.bindings[r].thread == s.bindings[r].thread;
    }
  }

  /** After an insertion the bindings and the leftover threads together fit the limit. */
  lemma InsertionFits(cfg: Config, s: State, runtime: nat, b: Binding, c: Collection, e: Eviction, saveOk: bool)
    requires Distinct(s.bindings) && CapacityFits(cfg, s, c, e)
    requires runtime !in s.bindings && b.thread !in Bound(s.bindings)
    requires Insert(cfg, s, runtime, b, c, e, saveOk).1.Inserted?
    ensures var t := Insert(cfg, s, runtime, b, c, e, saveOk).0;
      && |t.bindings| + |Unbound(t)| <= cfg.maxRuntimes
      && runtime in t.bindings && t.bindings[runtime] == b && b.thread in t.live
      && t.durable == t.bindings
  {
    RoomIsEnough(cfg, s, 1, c, e);
    EnsureCapacityShrinks(cfg, s, 1, c, e);
    var g := EnsureCapacity(cfg, s, 1, c, e).0;
    AddedBinding(g, Placed(g, runtime, b, true), runtime, b);
    assert Insert(cfg, s, runtime, b, c, e, saveOk).0 == Placed(g, runtime, b, true);
  }

  /** What placing a binding keeps of what the state g already kept of s. */
  lemma PlacedKeeps(s: State, g: State, runtime: nat, b: Binding, saveOk: bool)
    requires Distinct(s.bindings) && SameIdentities(s.durable, s.bindings) && Shrinks(s, g)
    requires runtime !in s.bindings && b.thread !in Bound(s.bindings)
    ensures var t := Placed(g, runtime, b, saveOk);
      && Distinct(t.bindings) && SameIdentities(t.durable, t.bindings)
      && LeavesReleased(s, t) && Spares(s, t) && t.active == s.active
  {
    ShrinksKeepsDistinct(s, g);
    StillUnbound(s, g, b.thread);
    AddedDistinct(g.bindings, runtime, b);
    var t := Placed(g, runtime, b, saveOk);
    forall r | r in s.bindings && r !in t.bindings ensures s.bindings[r].thread !in Owned(t) {
      assert s.bindings[r].thread != b.thread;
    }
    PlacedSpares(s, g, runtime, b, saveOk);
  }

  lemma PlacedSpares(s: State, g: State, runtime: nat, b: Binding, saveOk: bool)
    requires Spares(s, g) && runtime !in s.bindings
    ensures Spares(s, Placed(g, runtime, b, saveOk))
  {
  }

  /** What any attempt to insert keeps: old bindings are only detached or dropped once
      released, busy ones are untouched, threads stay different and disk agrees with memory. */
  lemma InsertKeeps(cfg: Config, s: State, runtime: nat, b: Binding, c: Collection, e: Eviction, saveOk: bool)
    requires Distinct(s.bindings) && SameIdentities(s.durable, s.bindings) && CapacityFits(cfg, s, c, e)
    requires runtime !in s.bindings && b.thread !in Bound(s.bindings)
    ensures var t := Insert(cfg, s, runtime, b, c, e, saveOk).0;
      && Distinct(t.bindings) && SameIdentities(t.durable, t.bindings)
      && LeavesReleased(s, t) && Spares(s, t) && t.active == s.active
  {
    EnsureCapacityShrinks(cfg, s, 1, c, e);
    var g := EnsureCapacity(cfg, s, 1, c, e).0;
    if EnsureCapacity(cfg, s, 1, c, e).1.Room? {
      PlacedKeeps(s, g, runtime, b, saveOk);
      assert Insert(cfg, s, runtime, b, c, e, saveOk).0 == Placed(g, runtime, b, saveOk);
    } else {
      assert Insert(cfg, s, runtime, b, c, e, saveOk).0 == g;
    }
  }
}
