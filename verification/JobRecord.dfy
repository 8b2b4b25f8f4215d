/** The durable record of one job: a supervisor, killers and reconcilers read, change and
    rewrite it, each under the record's lock. The lock-held sections are the atomic steps. */
module JobRecord {
  import opened Options

  datatype Status = Starting | Running | Succeeded | Failed | Killed | Interrupted

  datatype Signal = Term | Kill

  predicate IsTerminal(status: Status) {
    status.Succeeded? || status.Failed? || status.Killed? || status.Interrupted?
  }

  function Rank(status: Status): nat {
    if status.Starting? then 0 else if status.Running? then 1 else 2
  }

  /** What the record says of a process: nothing yet, or a pid with the identity captured for it. */
  datatype Claim = Unknown | Recorded(identity: Option<string>)

  datatype Record = Record(
    status: Status,
    supervisor: Claim,
    command: Claim,
    killSignal: Option<Signal>,
    exitCode: Option<int>)

  /** What the operating system answers about a pid. */
  datatype Observation = Observation(found: bool, current: Option<string>)

  /** Some(true): the recorded process; Some(false): gone or replaced; None: cannot be told. */
  function IdentityMatches(claim: Claim, o: Observation): Option<bool> {
    if claim.Unknown? || !o.found then Some(false)
    else if o.current.None? || claim.identity.None? || claim.identity.value == "" then None
    else Some(o.current == claim.identity)
  }

  // ----- the sections that run under the record's lock -----

  function WithSupervisor(r: Record, identity: Option<string>): Record {
    r.(supervisor := Recorded(identity))
  }

  function WithRunning(r: Record, identity: Option<string>): Record {
    r.(status := Running, command := Recorded(identity))
  }

  function Finalized(r: Record, exitCode: int): Record {
    r.(status := if r.killSignal.Some? then Killed else if exitCode == 0 then Succeeded else Failed,
       exitCode := Some(exitCode))
  }

  function InterruptedIfStale(r: Record, command: Observation, supervisor: Observation): Record {
    if IsTerminal(r.status) then r
    else if IdentityMatches(r.command, command) == Some(false) && IdentityMatches(r.supervisor, supervisor) == Some(false)
    then r.(status := Interrupted)
    else r
  }

  /** How the locked part of a kill ends: the record was terminal, the signal was refused or
      found nobody, or it was sent. */
  datatype KillResult = AlreadyCompleted | Refused | Signalled

  function KillDecision(r: Record, command: Observation, groupVerified: bool, delivered: bool): KillResult {
    if IsTerminal(r.status) then AlreadyCompleted
    else if IdentityMatches(r.command, command) != Some(true) || !groupVerified || !delivered then Refused
    else Signalled
  }

  function KillRequested(r: Record, signal: Signal, result: KillResult): Record {
    if result.Signalled? then r.(killSignal := Some(signal)) else r
  }

  /** The record file. A write either replaces the whole record or leaves it as it was. */
  class RecordFile {
    var record: Record

    constructor (record: Record)
      ensures this.record == record
    {
      this.record := record;
    }

    method Write(updated: Record, writeOk: bool) returns (ok: bool)
      modifies this
      ensures ok == writeOk && record == if writeOk then updated else old(record)
    {
      if writeOk {
        record := updated;
      }
      ok := writeOk;
    }

    method RegisterSupervisor(identity: Option<string>, writeOk: bool) returns (ok: bool)
      modifies this
      ensures ok == writeOk
      ensures record == if writeOk then WithSupervisor(old(record), identity) else old(record)
    {
      var current := record;
      ok := Write(current.(supervisor := Recorded(identity)), writeOk);
    }

    method MarkRunning(identity: Option<string>, writeOk: bool) returns (ok: bool)
      modifies this
      ensures ok == writeOk
      ensures record == if writeOk then WithRunning(old(record), identity) else old(record)
    {
      var current := record;
      ok := Write(current.(status := Running, command := Recorded(identity)), writeOk);
    }

    method Finalize(exitCode: int, writeOk: bool) returns (ok: bool)
      modifies this
      ensures ok == writeOk
      ensures record == if writeOk then Finalized(old(record), exitCode) else old(record)
    {
      var current := record;
      var status;
      if current.killSignal.Some? {
        status := Killed;
      } else if exitCode == 0 {
        status := Succeeded;
      } else {
        status := Failed;
      }
      ok := Write(current.(status := status, exitCode := Some(exitCode)), writeOk);
    }

    method InterruptIfStale(command: Observation, supervisor: Observation, writeOk: bool) returns (ok: bool)
      modifies this
      ensures ok == writeOk
      ensures record == if writeOk then InterruptedIfStale(old(record), command, supervisor) else old(record)
    {
      var current := record;
      if !IsTerminal(current.status) {
        var commandState := IdentityMatches(current.command, command);
        var supervisorState := IdentityMatches(current.supervisor, supervisor);
        if commandState == Some(false) && supervisorState == Some(false) {
          current := current.(status := Interrupted);
        }
      }
      ok := Write(current, writeOk);
    }

    /** Signal first, then publish the kill request, all under the lock. The caller reports a
        signal as sent only when both succeeded. */
    method SignalAndMark(signal: Signal, command: Observation, groupVerified: bool, delivered: bool, writeOk: bool)
        returns (reported: bool)
      modifies this
      ensures var result := KillDecision(old(record), command, groupVerified, delivered);
        && reported == (result.Signalled? && writeOk)
        && record == (if writeOk then KillRequested(old(record), signal, result) else old(record))
    {
      var current := record;
      if IsTerminal(current.status) {
        var _ := Write(current, writeOk);
        return false;
      }
      if IdentityMatches(current.command, command) != Some(true) || !groupVerified || !delivered {
        return false;
      }
      reported := Write(current.(killSignal := Some(signal)), writeOk);
    }
  }

  // ----- the processes around the record -----

  /** Where the supervisor is. Exited holds the code it will record; Done is after its last write. */
  datatype Phase = Launched | Registered | Spawned | Recording | Exited(code: int) | Done

  /** The record, the supervisor, and which processes are alive. The identities are what the
      operating system reports of the two processes as long as they live. */
  datatype State = State(record: Record, phase: Phase, supervisorAlive: bool, commandAlive: bool,
                         supervisorId: string, commandId: string)

  datatype Event =
    | Register(identity: Option<string>, ok: bool)
    | Spawn(ok: bool)
    | RecordRunning(identity: Option<string>, ok: bool, code: int)
    | Reap(code: int)
    | Abort(code: int)
    | Finish(ok: bool)
    | SupervisorDies
    | CommandDies
    | Interrupt(command: Observation, supervisor: Observation, ok: bool)
    | KillJob(signal: Signal, command: Observation, groupVerified: bool, delivered: bool, ok: bool)

  /** Observations of a process are honest: a live one exists and shows its own identity or
      none, and no other process shows the identity of a dead one. */
  predicate Honest(alive: bool, id: string, o: Observation) {
    if alive then o.found && (o.current == None || o.current == Some(id)) else o.current != Some(id)
  }

  predicate Captured(identity: Option<string>, id: string) {
    identity == None || identity == Some(id)
  }

  predicate Enabled(s: State, e: Event) {
    match e
    case Register(identity, _) => s.supervisorAlive && s.phase == Launched && Captured(identity, s.supervisorId)
    case Spawn(_) => s.supervisorAlive && s.phase == Registered
    case RecordRunning(identity, _, _) => s.supervisorAlive && s.phase == Spawned && Captured(identity, s.commandId)
    case Reap(_) => s.supervisorAlive && s.phase == Recording && !s.commandAlive
    case Abort(_) => s.supervisorAlive && !s.phase.Exited? && !s.phase.Done?
    case Finish(_) => s.supervisorAlive && s.phase.Exited?
    case SupervisorDies => s.supervisorAlive
    case CommandDies => s.commandAlive
    case Interrupt(command, supervisor, _) =>
      Honest(s.commandAlive, s.commandId, command) && Honest(s.supervisorAlive, s.supervisorId, supervisor)
    case KillJob(_, command, _, _, _) => Honest(s.commandAlive, s.commandId, command)
  }

  /** A failed step of the supervisor, or a shutdown signal, leads to its exit with a code. */
  function Step(s: State, e: Event): State {
    match e
    case Register(identity, ok) =>
      if ok then s.(record := WithSupervisor(s.record, identity), phase := Registered) else s.(phase := Exited(-1))
    case Spawn(ok) => if ok then s.(phase := Spawned, commandAlive := true) else s.(phase := Exited(-1))
    case RecordRunning(identity, ok, code) =>
      if ok then s.(record := WithRunning(s.record, identity), phase := Recording) else s.(phase := Exited(code))
    case Reap(code) => s.(phase := Exited(code))
    case Abort(code) => s.(phase := Exited(code))
    case Finish(ok) =>
      if ok && s.phase.Exited? then s.(record := Finalized(s.record, s.phase.code), phase := Done) else s.(phase := Done)
    case SupervisorDies => s.(supervisorAlive := false)
    case CommandDies => s.(commandAlive := false)
    case Interrupt(command, supervisor, ok) =>
      if ok then s.(record := InterruptedIfStale(s.record, command, supervisor)) else s
    case KillJob(signal, command, groupVerified, delivered, ok) =>
      if ok then s.(record := KillRequested(s.record, signal, KillDecision(s.record, command, groupVerified, delivered)))
      else s
  }

  /** The kill's answer says that the signal was sent. */
  predicate ReportsSignal(s: State, e: Event) {
    e.KillJob? && e.ok && KillDecision(s.record, e.command, e.groupVerified, e.delivered).Signalled?
  }

  ghost predicate IsRun(s: State, events: seq<Event>)
    decreases |events|
  {
    events == [] || (Enabled(s, events[0]) && IsRun(Step(s, events[0]), events[1..]))
  }

  ghost function After(s: State, events: seq<Event>): State
    decreases |events|
  {
    if events == [] then s else After(Step(s, events[0]), events[1..])
  }

  function Initial(supervisorId: string, commandId: string): State {
    State(Record(Starting, Unknown, Unknown, None, None), Launched, true, false, supervisorId, commandId)
  }

  /** The supervisor may still change the status. */
  predicate CanStillWrite(s: State) {
    s.supervisorAlive && !s.phase.Done?
  }

  // ----- what every state of every run satisfies -----

  ghost predicate ClaimsAreTrue(s: State) {
    && (s.record.supervisor.Recorded? ==> Captured(s.record.supervisor.identity, s.supervisorId))
    && (s.record.command.Recorded? ==> Captured(s.record.command.identity, s.commandId))
    && (s.phase.Launched? ==> s.record.supervisor.Unknown?)
    && (s.phase.Launched? || s.phase.Registered? || s.phase.Spawned? ==> s.record.command.Unknown?)
    && (s.phase.Registered? || s.phase.Spawned? || s.phase.Recording? ==> s.record.supervisor.Recorded?)
    && (s.phase.Launched? || s.phase.Registered? ==> !s.commandAlive)
  }

  /** Each terminal status has its reason in the record. */
  ghost predicate StatusIsExplained(s: State) {
    && (s.record.status.Starting? ==> s.record.command.Unknown?)
    && (s.record.status.Running? ==> s.record.command.Recorded?)
    && (s.record.status.Killed? ==> s.record.killSignal.Some?)
    && (s.record.status.Succeeded? ==> s.record.killSignal.None? && s.record.exitCode == Some(0))
    && (s.record.status.Failed? ==> s.record.killSignal.None? && s.record.exitCode.Some? && s.record.exitCode != Some(0))
    && (s.record.status.Succeeded? || s.record.status.Failed? || s.record.status.Killed? ==> s.phase.Done?)
    && (s.record.killSignal.Some? ==> s.record.command.Recorded?)
    && (!s.phase.Done? ==> s.record.exitCode.None?)
  }

  ghost predicate Inv(s: State) {
    ClaimsAreTrue(s) && StatusIsExplained(s)
  }

  lemma StepKeepsInv(s: State, e: Event)
    requires Inv(s) && Enabled(s, e)
    ensures Inv(Step(s, e))
  {
  }

  lemma {:induction false} RunKeepsInv(s: State, events: seq<Event>)
    requires Inv(s) && IsRun(s, events)
    ensures Inv(After(s, events))
    decreases |events|
  {
    if events != [] {
      StepKeepsInv(s, events[0]);
      RunKeepsInv(Step(s, events[0]), events[1..]);
    }
  }

  /** In every run from the initial record, a terminal status is the one its record explains:
      succeeded only with exit code 0 and no kill request, failed only with another code and
      no kill request, killed only with a kill request. */
  lemma EveryStatusIsExplained(supervisorId: string, commandId: string, events: seq<Event>)
    requires IsRun(Initial(supervisorId, commandId), events)
    ensures StatusIsExplained(After(Initial(supervisorId, commandId), events))
  {
    RunKeepsInv(Initial(supervisorId, commandId), events);
  }

  // ----- the oracle -----

  /** With honest observations the three-valued answer is never wrong about a recorded process. */
  lemma AnswersAreSound(claim: Claim, alive: bool, id: string, o: Observation)
    requires claim.Recorded? ==> Captured(claim.identity, id)
    requires Honest(alive, id, o)
    ensures IdentityMatches(claim, o) == Some(true) ==> alive && claim.Recorded?
    ensures IdentityMatches(claim, o) == Some(false) ==> !alive || claim.Unknown?
  {
  }

  // ----- the status only advances -----

  /** No reconciler interrupts the record while a supervisor that has not registered may still write. */
  predicate Polite(s: State, e: Event) {
    e.Interrupt? ==> s.record.supervisor.Recorded? || !CanStillWrite(s)
  }

  ghost predicate IsPoliteRun(s: State, events: seq<Event>)
    decreases |events|
  {
    events == [] || (Enabled(s, events[0]) && Polite(s, events[0]) && IsPoliteRun(Step(s, events[0]), events[1..]))
  }

  /** A terminal record has no writer left. */
  ghost predicate Settled(s: State) {
    && Inv(s)
    && (IsTerminal(s.record.status) ==> !CanStillWrite(s))
    && (s.record.status.Interrupted? && s.record.command.Recorded? ==> !s.commandAlive)
  }

  lemma StepAdvances(s: State, e: Event)
    requires Settled(s) && Enabled(s, e) && Polite(s, e)
    ensures Settled(Step(s, e))
    ensures Rank(s.record.status) <= Rank(Step(s, e).record.status)
    ensures IsTerminal(s.record.status) ==> Step(s, e).record == s.record
  {
    StepKeepsInv(s, e);
    if e.Interrupt? {
      AnswersAreSound(s.record.command, s.commandAlive, s.commandId, e.command);
      AnswersAreSound(s.record.supervisor, s.supervisorAlive, s.supervisorId, e.supervisor);
    }
  }

  /** Between any two moments of a run the status moves only from starting to running to one
      terminal value, and the whole record stays as it is from then on. */
  lemma {:induction false} StatusOnlyAdvances(s: State, events: seq<Event>)
    requires Settled(s) && IsPoliteRun(s, events)
    ensures Settled(After(s, events))
    ensures Rank(s.record.status) <= Rank(After(s, events).record.status)
    ensures IsTerminal(s.record.status) ==> After(s, events).record == s.record
    decreases |events|
  {
    if events != [] {
      StepAdvances(s, events[0]);
      StatusOnlyAdvances(Step(s, events[0]), events[1..]);
    }
  }

  /** The same from the initial record, at any two moments of the run. */
  lemma TerminalStatusIsFinal(supervisorId: string, commandId: string, earlier: seq<Event>, later: seq<Event>)
    requires IsPoliteRun(Initial(supervisorId, commandId), earlier)
    requires IsPoliteRun(After(Initial(supervisorId, commandId), earlier), later)
    ensures var s := After(Initial(supervisorId, commandId), earlier);
      && Rank(s.record.status) <= Rank(After(s, later).record.status)
      && (IsTerminal(s.record.status) ==> After(s, later).record == s.record && !CanStillWrite(s))
  {
    StatusOnlyAdvances(Initial(supervisorId, commandId), earlier);
    StatusOnlyAdvances(After(Initial(supervisorId, commandId), earlier), later);
  }

  // ----- a kill that reports its signal -----

  lemma {:induction false} KillRequestStays(s: State, events: seq<Event>)
    requires Inv(s) && IsRun(s, events) && s.record.killSignal.Some?
    ensures After(s, events).record.killSignal.Some?
    ensures After(s, events).record.status !in {Succeeded, Failed}
    decreases |events|
  {
    if events != [] {
      StepKeepsInv(s, events[0]);
      KillRequestStays(Step(s, events[0]), events[1..]);
    }
  }

  /** Once a kill reports its signal as sent, no later record says succeeded or failed: what
      the supervisor records, at any later time and after any other steps, is killed. */
  lemma ReportedKillWins(s: State, e: Event, events: seq<Event>, last: Event)
    requires Inv(s) && Enabled(s, e) && ReportsSignal(s, e)
    requires IsRun(Step(s, e), events)
    requires var t := After(Step(s, e), events); Enabled(t, last) && last.Finish? && last.ok
    ensures After(Step(s, e), events).record.status !in {Succeeded, Failed}
    ensures Step(After(Step(s, e), events), last).record.status == Killed
  {
    StepKeepsInv(s, e);
    KillRequestStays(Step(s, e), events);
  }

  /** A kill signals only a live command, and never after the supervisor's own terminal record. */
  lemma SignalReachesLiveCommand(s: State, e: Event)
    requires Inv(s) && Enabled(s, e) && ReportsSignal(s, e)
    ensures s.commandAlive && s.record.status == Running
  {
    AnswersAreSound(s.record.command, s.commandAlive, s.commandId, e.command);
  }

  // ----- when an interrupted status is final -----

  ghost predicate Permanent(s: State) {
    forall events: seq<Event> :: IsRun(s, events) ==> After(s, events).record.status == s.record.status
  }

  lemma {:induction false} NoWriterNoChange(s: State, events: seq<Event>)
    requires Inv(s) && IsTerminal(s.record.status) && !CanStillWrite(s) && IsRun(s, events)
    ensures After(s, events).record == s.record
    decreases |events|
  {
    if events != [] {
      StepKeepsInv(s, events[0]);
      NoWriterNoChange(Step(s, events[0]), events[1..]);
    }
  }

  /** What the supervisor records at its end is never changed again, in any run, polite or not:
      later kills and reconciliations of the record leave it as it is. */
  lemma FinishIsFinal(s: State, events: seq<Event>)
    requires Inv(s) && Enabled(s, Finish(true)) && IsRun(Step(s, Finish(true)), events)
    ensures IsTerminal(Step(s, Finish(true)).record.status)
    ensures After(Step(s, Finish(true)), events).record == Step(s, Finish(true)).record
  {
    StepKeepsInv(s, Finish(true));
    NoWriterNoChange(Step(s, Finish(true)), events);
  }

  /** A supervisor that may still write can always replace an interrupted status. */
  lemma WriterReplacesInterrupted(s: State)
    requires Inv(s) && s.record.status == Interrupted && CanStillWrite(s)
    ensures !Permanent(s)
  {
    if s.phase.Exited? {
      var events := [Finish(true)];
      assert events[1..] == [];
      var t := Step(s, Finish(true));
      assert After(t, []) == t && IsRun(t, []);
      assert IsRun(s, events) && After(s, events).record.status != Interrupted;
    } else {
      var events := [Abort(-1), Finish(true)];
      var t := Step(s, Abort(-1));
      var u := Step(t, Finish(true));
      assert events[1..] == [Finish(true)] && events[1..][1..] == [];
      assert After(u, []) == u && IsRun(u, []);
      assert IsRun(t, events[1..]) && After(t, events[1..]) == u;
      assert IsRun(s, events) && After(s, events).record.status != Interrupted;
    }
  }

  /** A terminal status is final exactly when no supervisor that may still write is left. */
  lemma FinalIffNoWriter(s: State)
    requires Inv(s) && IsTerminal(s.record.status)
    ensures Permanent(s) <==> !CanStillWrite(s)
  {
    if CanStillWrite(s) {
      WriterReplacesInterrupted(s);
    } else {
      forall events: seq<Event> | IsRun(s, events) ensures After(s, events).record.status == s.record.status {
        NoWriterNoChange(s, events);
      }
    }
  }

  /** An interruption that takes effect is final exactly when the supervisor had registered
      before it or could no longer write: a supervisor that is merely late overwrites it. */
  lemma InterruptionIsFinalIff(s: State, e: Event)
    requires Inv(s) && Enabled(s, e) && e.Interrupt?
    requires !IsTerminal(s.record.status) && IsTerminal(Step(s, e).record.status)
    ensures Permanent(Step(s, e)) <==> s.record.supervisor.Recorded? || !CanStillWrite(s)
  {
    StepKeepsInv(s, e);
    AnswersAreSound(s.record.supervisor, s.supervisorAlive, s.supervisorId, e.supervisor);
    FinalIffNoWriter(Step(s, e));
  }

  /** The failing run: the record is interrupted as stale before the supervisor registers,
      and the supervisor then makes it running again. */
  lemma EarlyInterruptionIsUndone(supervisorId: string, commandId: string)
    ensures var gone := Observation(false, None);
      var s := Initial(supervisorId, commandId);
      var first := [Interrupt(gone, Observation(true, None), true)];
      var rest := [Register(Some(supervisorId), true), Spawn(true), RecordRunning(Some(commandId), true, 0)];
      && IsRun(s, first) && After(s, first).record.status == Interrupted
      && IsRun(After(s, first), rest) && After(After(s, first), rest).record.status == Running
  {
    var gone := Observation(false, None);
    var s := Initial(supervisorId, commandId);
    var i := Interrupt(gone, Observation(true, None), true);
    var r, p, m := Register(Some(supervisorId), true), Spawn(true), RecordRunning(Some(commandId), true, 0);
    var s1 := Step(s, i);
    var s2 := Step(s1, r);
    var s3 := Step(s2, p);
    var s4 := Step(s3, m);
    assert [i][1..] == [];
    assert IsRun(s1, []) && After(s1, []) == s1;
    assert IsRun(s, [i]) && After(s, [i]) == s1;
    assert [m][1..] == [] && IsRun(s4, []) && After(s4, []) == s4;
    assert IsRun(s3, [m]) && After(s3, [m]) == s4;
    assert [p, m][1..] == [m] && [r, p, m][1..] == [p, m];
    assert IsRun(s2, [p, m]) && After(s2, [p, m]) == s4;
    assert IsRun(s1, [r, p, m]) && After(s1, [r, p, m]) == s4;
  }
}
