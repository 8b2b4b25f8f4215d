/** One connection to the Codex App Server: callers wait for responses and may time out, one
    reader delivers them. Each step below is one locked section or one unlocked access. */
module AppServerAdapter {
  import opened Options
  import opened Sets

  const MAX_PENDING := 128

  datatype Kind = ThreadStart | ThreadResume | ToolCall | CommandExec | Other

  predicate MakesThread(m: Kind) {
    m.ThreadStart? || m.ThreadResume?
  }

  /** Requests that stay in the table after their caller gave up. */
  predicate IsKept(m: Kind) {
    MakesThread(m) || m.ToolCall?
  }

  /** A result, with the thread id it carries if there is one, or an error. */
  datatype Response = Result(thread: Option<nat>) | ErrorResponse

  /** Where the caller of a request is. Expired: its wait ended without the event, and it has
      not yet taken the lock. Woken: it knows the event is set. Removed: it has taken its
      request out of the table and is about to read the response. */
  datatype Caller = Waiting | Expired | Woken | Removed | Returned(response: Response) | TimedOut | NotSent

  /** One request; thread is the thread id among its parameters. freed is history: the threads
      given back since the request was made, and for the thread that its response made, since
      that response was settled. */
  datatype Request = Request(kind: Kind, thread: Option<nat>, abandoned: bool, event: bool,
                             response: Option<Response>, caller: Caller, freed: set<nat>)

  /** The reader handles one response at a time: it looks the request up, stores the response,
      sets the event, and then takes the lock to settle who owns the thread. */
  datatype Reader = Idle | Found(id: nat, response: Response) | Stored(id: nat) | Signalled(id: nat)

  /** requests holds every request ever made; pending are the ids in the table. */
  datatype Connection = Connection(
    requests: map<nat, Request>,
    pending: set<nat>,
    claimed: set<nat>,
    abandoned: set<nat>,
    nextId: nat,
    reader: Reader)

  function Initial(): Connection {
    Connection(map[], {}, {}, {}, 1, Idle)
  }

  // ----- steps -----

  datatype Step =
    | Submit(kind: Kind, about: Option<nat>)
    | SendFails(id: nat)
    | WaitExpires(id: nat)
    | TakeLock(id: nat)
    | WakeUp(id: nat)
    | RemoveOwn(id: nat)
    | ReadResponse(id: nat)
    | ForgetExpired(id: nat)
    | LookUp(id: nat, response: Response)
    | StoreResponse
    | SetEvent
    | Settle
    | Discard(thread: nat)
    | DiscardAbandoned(thread: nat)

  predicate At(c: Connection, id: nat, caller: Caller) {
    id in c.requests && c.requests[id].caller == caller
  }

  predicate Enabled(c: Connection, e: Step) {
    match e
    case Submit(_, _) => |c.pending| < MAX_PENDING
    case SendFails(id) => At(c, id, Waiting)
    case WaitExpires(id) => At(c, id, Waiting)
    case TakeLock(id) => At(c, id, Expired)
    case WakeUp(id) => At(c, id, Waiting) && c.requests[id].event
    case RemoveOwn(id) => At(c, id, Woken)
    case ReadResponse(id) => At(c, id, Removed) && c.requests[id].response.Some?
    case ForgetExpired(id) => At(c, id, TimedOut) && c.requests[id].kind.CommandExec?
    case LookUp(id, _) => c.reader.Idle? && id in c.pending && id in c.requests
    case StoreResponse => c.reader.Found? && c.reader.id in c.requests
    case SetEvent => c.reader.Stored? && c.reader.id in c.requests
    case Settle => c.reader.Signalled? && c.reader.id in c.requests
    case Discard(_) => true
    case DiscardAbandoned(_) => true
  }

  function WithCaller(c: Connection, id: nat, caller: Caller): Connection
    requires id in c.requests
  {
    c.(requests := c.requests[id := c.requests[id].(caller := caller)])
  }

  /** The caller's locked section after its wait ended: if the event is still not set it gives
      up, leaving a kept request in the table as abandoned. */
  function GiveUp(c: Connection, id: nat): Connection
    requires id in c.requests
  {
    var r := c.requests[id];
    if r.event then WithCaller(c, id, Woken)
    else if IsKept(r.kind) then c.(requests := c.requests[id := r.(abandoned := true, caller := TimedOut)])
    else if r.kind.CommandExec? then WithCaller(c, id, TimedOut)
    else WithCaller(c, id, TimedOut).(pending := c.pending - {id})
  }

  /** The reader's locked section: the thread belongs to the caller, or is abandoned unless it
      is claimed already; an abandoned request leaves the table. */
  function SettleResponse(c: Connection, id: nat): Connection
    requires id in c.requests
  {
    var r := c.requests[id];
    var made := if MakesThread(r.kind) && r.response.Some? && r.response.value.Result? then r.response.value.thread else None;
    c.(requests := if made.Some? then c.requests[id := r.(freed := r.freed - {made.value})] else c.requests,
       claimed := if made.Some? && !r.abandoned then c.claimed + {made.value} else c.claimed,
       abandoned := if made.None? then c.abandoned
                    else if !r.abandoned then c.abandoned - {made.value}
                    else if made.value !in c.claimed then c.abandoned + {made.value}
                    else c.abandoned,
       pending := if r.abandoned then c.pending - {id} else c.pending,
       reader := Idle)
  }

  function Freed(c: Connection, thread: nat): map<nat, Request> {
    map i | i in c.requests :: c.requests[i].(freed := c.requests[i].freed + {thread})
  }

  function Next(c: Connection, e: Step): Connection
    requires Enabled(c, e)
  {
    match e
    case Submit(kind, thread) =>
      c.(requests := c.requests[c.nextId := Request(kind, thread, false, false, None, Waiting, {})],
         pending := c.pending + {c.nextId}, nextId := c.nextId + 1)
    case SendFails(id) => WithCaller(c, id, NotSent).(pending := c.pending - {id})
    case WaitExpires(id) => WithCaller(c, id, Expired)
    case TakeLock(id) => GiveUp(c, id)
    case WakeUp(id) => WithCaller(c, id, Woken)
    case RemoveOwn(id) => WithCaller(c, id, Removed).(pending := c.pending - {id})
    case ReadResponse(id) => WithCaller(c, id, Returned(c.requests[id].response.value))
    case ForgetExpired(id) => c.(pending := c.pending - {id})
    case LookUp(id, response) => c.(reader := Found(id, response))
    case StoreResponse =>
      var id := c.reader.id;
      c.(requests := c.requests[id := c.requests[id].(response := Some(c.reader.response))], reader := Stored(id))
    case SetEvent =>
      var id := c.reader.id;
      c.(requests := c.requests[id := c.requests[id].(event := true)], reader := Signalled(id))
    case Settle => SettleResponse(c, c.reader.id)
    case Discard(thread) =>
      c.(claimed := c.claimed - {thread}, abandoned := c.abandoned - {thread}, requests := Freed(c, thread))
    case DiscardAbandoned(thread) => c.(abandoned := c.abandoned - {thread}, requests := Freed(c, thread))
  }

  predicate HasPendingOperations(c: Connection, thread: nat) {
    exists i | i in c.pending && i in c.requests :: c.requests[i].thread == Some(thread) && !c.requests[i].event
  }

  predicate OwnsThread(c: Connection, thread: nat) {
    thread in c.claimed || thread in c.abandoned
  }

  // ----- what every state satisfies -----

  /** The reader is between storing the response of this request and settling it. */
  predicate Settling(c: Connection, id: nat) {
    (c.reader.Stored? || c.reader.Signalled?) && c.reader.id == id
  }

  /** The thread that a response gives to the caller of a request. */
  function Made(r: Request, response: Response): Option<nat> {
    if MakesThread(r.kind) && response.Result? then response.thread else None
  }

  ghost predicate Claimed(c: Connection, r: Request, response: Response) {
    Made(r, response).Some? ==> Made(r, response).value in c.claimed + r.freed
  }

  ghost predicate OwnedOrFreed(c: Connection, r: Request, response: Response) {
    Made(r, response).Some? ==> Made(r, response).value in c.claimed + c.abandoned + r.freed
  }

  /** The event is set only after the response, and is known to whoever goes on because of it. */
  ghost predicate EventsFollow(r: Request) {
    && (r.event ==> r.response.Some?)
    && (r.caller.Woken? || r.caller.Removed? || r.caller.Returned? ==> r.event)
  }

  /** Only the caller of a kept request that gave up abandons it. */
  ghost predicate AbandonedByCaller(r: Request) {
    r.abandoned <==> r.caller.TimedOut? && IsKept(r.kind)
  }

  ghost predicate RequestOk(c: Connection, id: nat)
    requires id in c.requests
  {
    var r := c.requests[id];
    && EventsFollow(r)
    && AbandonedByCaller(r)
    && (r.response.Some? && !Settling(c, id) ==>
          && r.event
          && (if r.abandoned then OwnedOrFreed(c, r, r.response.value) else Claimed(c, r, r.response.value)))
    && (r.caller.Returned? ==>
          Claimed(c, r, r.caller.response) || (Settling(c, id) && r.response == Some(r.caller.response)))
    && (IsKept(r.kind) && !r.event && !r.caller.NotSent? ==> id in c.pending)
  }

  ghost predicate Inv(c: Connection) {
    && c.claimed !! c.abandoned
    && (forall id :: id in c.requests ==> RequestOk(c, id))
    && (forall id :: id in c.requests ==> id < c.nextId)
    && c.pending <= c.requests.Keys
    && |c.pending| <= MAX_PENDING
    && (c.reader.Idle? || c.reader.id in c.requests)
    && (c.reader.Stored? ==> c.requests[c.reader.id].response.Some?)
    && (c.reader.Signalled? ==> c.requests[c.reader.id].event)
  }

  lemma OthersStay(c: Connection, d: Connection, id: nat)
    requires forall i :: i in c.requests ==> RequestOk(c, i)
    requires c.claimed == d.claimed && c.abandoned == d.abandoned && c.reader == d.reader
    requires d.pending <= c.pending + {id} && c.pending <= d.pending + {id}
    requires forall i :: i in d.requests && i != id ==> i in c.requests && d.requests[i] == c.requests[i]
    requires id in d.requests && RequestOk(d, id)
    ensures forall i :: i in d.requests ==> RequestOk(d, i)
  {
    forall i | i in d.requests ensures RequestOk(d, i) {
      assert i != id ==> RequestOk(c, i);
    }
  }

  predicate IsCallerStep(e: Step) {
    e.SendFails? || e.WaitExpires? || e.TakeLock? || e.WakeUp? || e.RemoveOwn? || e.ReadResponse? || e.ForgetExpired?
  }

  /** A step of a caller changes only its own request, and takes no other out of the table. */
  lemma CallerStepIsLocal(c: Connection, e: Step)
    requires c.pending <= c.requests.Keys && Enabled(c, e) && IsCallerStep(e)
    ensures var d := Next(c, e);
      && e.id in c.requests && d.requests.Keys == c.requests.Keys
      && d.claimed == c.claimed && d.abandoned == c.abandoned && d.reader == c.reader && d.nextId == c.nextId
      && d.pending <= c.pending <= d.pending + {e.id}
      && (forall i :: i in d.requests && i != e.id ==> d.requests[i] == c.requests[i])
      && d.requests[e.id].response == c.requests[e.id].response && d.requests[e.id].event == c.requests[e.id].event
  {
    match e
    case TakeLock(id) => GivingUpIsLocal(c, id);
    case SendFails(id) =>
    case RemoveOwn(id) =>
    case ForgetExpired(id) =>
    case _ =>
  }

  lemma GivingUpIsLocal(c: Connection, id: nat)
    requires c.pending <= c.requests.Keys && id in c.requests
    ensures var d := GiveUp(c, id);
      && d.requests.Keys == c.requests.Keys
      && d.claimed == c.claimed && d.abandoned == c.abandoned && d.reader == c.reader && d.nextId == c.nextId
      && d.pending <= c.pending <= d.pending + {id}
      && (forall i :: i in d.requests && i != id ==> d.requests[i] == c.requests[i])
      && d.requests[id].response == c.requests[id].response && d.requests[id].event == c.requests[id].event
  {
  }

  lemma CallerRequestOk(c: Connection, e: Step)
    requires Enabled(c, e) && IsCallerStep(e) && e.id in c.requests && RequestOk(c, e.id)
    ensures e.id in Next(c, e).requests && RequestOk(Next(c, e), e.id)
  {
  }

  lemma CallerStepKeepsInv(c: Connection, e: Step)
    requires Inv(c) && Enabled(c, e) && IsCallerStep(e)
    ensures Inv(Next(c, e))
  {
    CallerStepIsLocal(c, e);
    CallerRequestOk(c, e);
    var d := Next(c, e);
    LocalChange(c, d, e.id);
  }

  lemma LocalChange(c: Connection, d: Connection, id: nat)
    requires Inv(c) && id in c.requests && d.requests.Keys == c.requests.Keys
    requires d.claimed == c.claimed && d.abandoned == c.abandoned && d.reader == c.reader && d.nextId == c.nextId
    requires d.pending <= c.pending <= d.pending + {id}
    requires forall i :: i in d.requests && i != id ==> d.requests[i] == c.requests[i]
    requires d.requests[id].response == c.requests[id].response && d.requests[id].event == c.requests[id].event
    requires RequestOk(d, id)
    ensures Inv(d)
  {
    OthersStay(c, d, id);
    SubsetSize(d.pending, c.pending);
  }

  lemma SubmitKeepsInv(c: Connection, e: Step)
    requires Inv(c) && Enabled(c, e) && e.Submit?
    ensures Inv(Next(c, e))
  {
    assert c.nextId !in c.requests;
    OthersStay(c, Next(c, e), c.nextId);
  }

  lemma ReaderStepKeepsInv(c: Connection, e: Step)
    requires Inv(c) && Enabled(c, e)
    requires e.LookUp? || e.StoreResponse? || e.SetEvent?
    ensures Inv(Next(c, e))
  {
    var d := Next(c, e);
    forall i | i in d.requests ensures RequestOk(d, i) {
      assert RequestOk(c, i);
    }
  }

  lemma SettleKeepsInv(c: Connection, e: Step)
    requires Inv(c) && Enabled(c, e) && e.Settle?
    ensures Inv(Next(c, e))
  {
    var d := Next(c, e);
    forall i | i in d.requests ensures RequestOk(d, i) {
      assert RequestOk(c, i);
    }
  }

  lemma DiscardKeepsInv(c: Connection, e: Step)
    requires Inv(c) && Enabled(c, e)
    requires e.Discard? || e.DiscardAbandoned?
    ensures Inv(Next(c, e))
  {
    var d := Next(c, e);
    forall i | i in d.requests ensures RequestOk(d, i) {
      assert RequestOk(c, i);
    }
  }

  lemma StepKeepsInv(c: Connection, e: Step)
    requires Inv(c) && Enabled(c, e)
    ensures Inv(Next(c, e))
  {
    if IsCallerStep(e) {
      CallerStepKeepsInv(c, e);
    } else if e.Submit? {
      SubmitKeepsInv(c, e);
    } else if e.Settle? {
      SettleKeepsInv(c, e);
    } else if e.Discard? || e.DiscardAbandoned? {
      DiscardKeepsInv(c, e);
    } else {
      ReaderStepKeepsInv(c, e);
    }
  }

  // ----- every interleaving -----

  ghost predicate IsRun(c: Connection, steps: seq<Step>)
    decreases |steps|
  {
    steps == [] || (Enabled(c, steps[0]) && IsRun(Next(c, steps[0]), steps[1..]))
  }

  ghost function After(c: Connection, steps: seq<Step>): Connection
    requires IsRun(c, steps)
    decreases |steps|
  {
    if steps == [] then c else After(Next(c, steps[0]), steps[1..])
  }

  lemma {:induction false} RunKeepsInv(c: Connection, steps: seq<Step>)
    requires Inv(c) && IsRun(c, steps)
    ensures Inv(After(c, steps))
    decreases |steps|
  {
    if steps != [] {
      StepKeepsInv(c, steps[0]);
      RunKeepsInv(Next(c, steps[0]), steps[1..]);
    }
  }

  /** In every interleaving no thread is claimed and abandoned at once, and once the reader has
      settled a response that made a thread, that thread, unless given back since then, is claimed if
      the caller did not give up, and claimed or abandoned if it did. A response that a caller
      got made a claimed thread. */
  lemma ThreadsAreOwned(steps: seq<Step>, id: nat, thread: nat)
    requires IsRun(Initial(), steps)
    ensures var c := After(Initial(), steps);
      && c.claimed !! c.abandoned
      && (id in c.requests && !Settling(c, id) && thread !in c.requests[id].freed ==>
            var r := c.requests[id];
            && (r.response.Some? && Made(r, r.response.value) == Some(thread) ==>
                  if r.caller.TimedOut? then OwnsThread(c, thread) else thread in c.claimed)
            && (r.caller.Returned? && Made(r, r.caller.response) == Some(thread) ==> thread in c.claimed))
  {
    assert Inv(Initial());
    RunKeepsInv(Initial(), steps);
    var c := After(Initial(), steps);
    if id in c.requests {
      assert RequestOk(c, id);
    }
  }

  /** The reader's locked step itself: who the thread goes to, and that no other thread moves. */
  lemma SettlingDecides(c: Connection, thread: nat)
    requires Inv(c) && Enabled(c, Settle)
    requires var r := c.requests[c.reader.id]; Made(r, r.response.value) == Some(thread)
    ensures var d, r := Next(c, Settle), c.requests[c.reader.id];
      && (!r.caller.TimedOut? ==> thread in d.claimed && thread !in d.abandoned)
      && (r.caller.TimedOut? ==> d.claimed == c.claimed && (thread in d.abandoned <==> thread !in c.claimed))
      && d.claimed - {thread} == c.claimed - {thread} && d.abandoned - {thread} == c.abandoned - {thread}
      && (r.caller.TimedOut? ==> c.reader.id !in d.pending)
  {
    assert RequestOk(c, c.reader.id);
  }

  /** Once the event is set, a caller that has not given up never does: the response is its own. */
  lemma {:induction false} ReplyBeatsTimeout(c: Connection, steps: seq<Step>, id: nat)
    requires Inv(c) && IsRun(c, steps)
    requires id in c.requests && c.requests[id].event && !c.requests[id].caller.TimedOut?
    ensures id in After(c, steps).requests && !After(c, steps).requests[id].caller.TimedOut?
    decreases |steps|
  {
    if steps != [] {
      EventStays(c, steps[0], id);
      StepKeepsInv(c, steps[0]);
      ReplyBeatsTimeout(Next(c, steps[0]), steps[1..], id);
    }
  }

  lemma EventStays(c: Connection, e: Step, id: nat)
    requires c.pending <= c.requests.Keys && id < c.nextId && Enabled(c, e)
    requires id in c.requests && c.requests[id].event && !c.requests[id].caller.TimedOut?
    ensures var d := Next(c, e); id in d.requests && d.requests[id].event && !d.requests[id].caller.TimedOut?
  {
    if IsCallerStep(e) {
      CallerStepIsLocal(c, e);
    }
  }

  /** An owned thread is forgotten only when it is given back. */
  lemma {:induction false} OwnedUntilGivenBack(c: Connection, steps: seq<Step>, thread: nat)
    requires Inv(c) && IsRun(c, steps) && OwnsThread(c, thread)
    requires Discard(thread) !in steps && DiscardAbandoned(thread) !in steps
    ensures OwnsThread(After(c, steps), thread)
    ensures thread in c.claimed ==> thread in After(c, steps).claimed
    decreases |steps|
  {
    if steps != [] {
      var d := Next(c, steps[0]);
      assert steps[0] in steps;
      OwnershipStep(c, steps[0], thread);
      StepKeepsInv(c, steps[0]);
      OwnedUntilGivenBack(d, steps[1..], thread);
    }
  }

  lemma OwnershipStep(c: Connection, e: Step, thread: nat)
    requires Enabled(c, e) && e != Discard(thread) && e != DiscardAbandoned(thread)
    ensures OwnsThread(c, thread) ==> OwnsThread(Next(c, e), thread)
    ensures thread in c.claimed ==> thread in Next(c, e).claimed
  {
  }

  /** While a resume or a tool call on a thread has no answer, the thread has pending
      operations and is not released, whether or not the caller still waits for it. */
  lemma UnansweredBlocksRelease(c: Connection, id: nat, thread: nat)
    requires Inv(c) && id in c.requests
    requires var r := c.requests[id]; IsKept(r.kind) && r.thread == Some(thread) && !r.event && !r.caller.NotSent?
    ensures HasPendingOperations(c, thread)
  {
    assert RequestOk(c, id);
  }

  // ----- the adapter object -----

  class AppServerConnection {
    var requests: map<nat, Request>
    var pending: set<nat>
    var claimedThreads: set<nat>
    var abandonedThreads: set<nat>
    var nextRequestId: nat
    var reader: Reader

    ghost function Abs(): Connection
      reads this
    {
      Connection(requests, pending, claimedThreads, abandonedThreads, nextRequestId, reader)
    }

    constructor ()
      ensures Abs() == Initial()
    {
      requests, pending, claimedThreads, abandonedThreads := map[], {}, {}, {};
      nextRequestId, reader := 1, Idle;
    }

    method SubmitRequest(kind: Kind, thread: Option<nat>) returns (id: Option<nat>)
      modifies this
      ensures id.Some? <==> Enabled(old(Abs()), Submit(kind, thread))
      ensures id.Some? ==> id.value == old(nextRequestId) && Abs() == Next(old(Abs()), Submit(kind, thread))
      ensures id.None? ==> Abs() == old(Abs())
    {
      if |pending| >= MAX_PENDING {
        return None;
      }
      id := Some(nextRequestId);
      requests := requests[nextRequestId := Request(kind, thread, false, false, None, Waiting, {})];
      pending := pending + {nextRequestId};
      nextRequestId := nextRequestId + 1;
    }

    /** The locked section of a caller whose wait ended without the event. */
    method TakeLockAfterWait(id: nat) returns (timedOut: bool)
      requires Enabled(Abs(), TakeLock(id))
      modifies this
      ensures Abs() == Next(old(Abs()), TakeLock(id))
      ensures timedOut == requests[id].caller.TimedOut?
    {
      var r := requests[id];
      if r.event {
        requests := requests[id := r.(caller := Woken)];
        return false;
      }
      if IsKept(r.kind) {
        r := r.(abandoned := true);
      } else if !r.kind.CommandExec? {
        pending := pending - {id};
      }
      requests := requests[id := r.(caller := TimedOut)];
      timedOut := true;
    }

    /** The reader's first locked section: an unknown id is ignored. */
    method FindPending(id: nat, response: Response) returns (found: bool)
      requires Inv(Abs()) && reader.Idle?
      modifies this`reader
      ensures found <==> Enabled(old(Abs()), LookUp(id, response))
      ensures Abs() == if found then Next(old(Abs()), LookUp(id, response)) else old(Abs())
    {
      found := id in pending;
      if found {
        reader := Found(id, response);
      }
    }

    /** The reader's unlocked accesses: first the response, then the event. */
    method Deliver()
      requires Enabled(Abs(), StoreResponse)
      modifies this
      ensures Abs() == Next(Next(old(Abs()), StoreResponse), SetEvent)
    {
      var id := reader.id;
      requests := requests[id := requests[id].(response := Some(reader.response))];
      reader := Stored(id);
      requests := requests[id := requests[id].(event := true)];
      reader := Signalled(id);
    }

    /** The reader's second locked section. */
    method SettleOwnership()
      requires Enabled(Abs(), Settle)
      modifies this
      ensures Abs() == Next(old(Abs()), Settle)
    {
      var id := reader.id;
      var r := requests[id];
      if MakesThread(r.kind) && r.response.Some? && r.response.value.Result? && r.response.value.thread.Some? {
        var thread := r.response.value.thread.value;
        requests := requests[id := r.(freed := r.freed - {thread})];
        if r.abandoned {
          if thread !in claimedThreads {
            abandonedThreads := abandonedThreads + {thread};
          }
        } else {
          claimedThreads := claimedThreads + {thread};
          abandonedThreads := abandonedThreads - {thread};
        }
      }
      if r.abandoned {
        pending := pending - {id};
      }
      reader := Idle;
    }

    method HasPending(thread: nat) returns (busy: bool)
      ensures busy == HasPendingOperations(Abs(), thread)
    {
      var todo := pending;
      while todo != {}
        invariant todo <= pending
        invariant forall i :: i in pending && i !in todo && i in requests ==>
          !(requests[i].thread == Some(thread) && !requests[i].event)
      {
        var i :| i in todo;
        todo := todo - {i};
        if i in requests && requests[i].thread == Some(thread) && !requests[i].event {
          return true;
        }
      }
      busy := false;
    }

    /** The end of a confirmed release. */
    method ForgetThread(thread: nat)
      modifies this
      ensures Abs() == Next(old(Abs()), Discard(thread))
    {
      claimedThreads := claimedThreads - {thread};
      abandonedThreads := abandonedThreads - {thread};
      requests := map i | i in requests :: requests[i].(freed := requests[i].freed + {thread});
    }
  }
}
