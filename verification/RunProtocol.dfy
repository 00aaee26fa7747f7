/**
  The durable Run protocol as a state machine. Every transaction that holds a row lock is one
  atomic step; the steps of all workers, users and API processes interleave freely.

  An action carries everything the program does not decide itself: who acts, what the clock
  showed, which rows other transactions held locked, and what a tool or the agent returned.
 */
module RunProtocol {
  import opened Wrappers
  import opened RunModels
  import opened RunResults

  // ---------------------------------------------------------------- the event log

  datatype EventKind =
    | RunQueued | RunStarted | RunRetryStarted | RunReclaimed
    | ContextPrepared | ToolSucceeded | ToolFailed | Progress(name: string)
    | RunRetryScheduled | CancellationRequested
    | RunSucceeded | RunFailed | RunCancelled

  /** `worker` is set on the events of a claim. */
  datatype Event = Event(sequence: nat, kind: EventKind, worker: Option<WorkerId>)

  predicate IsClaim(kind: EventKind) {
    kind == RunStarted || kind == RunRetryStarted || kind == RunReclaimed
  }

  predicate IsEnding(kind: EventKind) {
    kind == RunSucceeded || kind == RunFailed || kind == RunCancelled
  }

  function MaxSequence(log: seq<Event>): nat {
    if log == [] then 0
    else
      var rest := MaxSequence(log[..|log| - 1]);
      if log[|log| - 1].sequence > rest then log[|log| - 1].sequence else rest
  }

  /** `append_event_in_session`: one more than the greatest sequence so far. */
  function Append(log: seq<Event>, kind: EventKind, worker: Option<WorkerId>): seq<Event> {
    log + [Event(MaxSequence(log) + 1, kind, worker)]
  }

  // ---------------------------------------------------------------- rows

  datatype Run = Run(
    session: SessionId,
    createdAt: int,
    status: RunStatus,
    output: RunResult,
    assistantMessage: Option<string>,
    errorCode: Option<string>,
    errorMessage: Option<string>,
    cancelRequested: bool,
    workerId: Option<WorkerId>,
    leaseExpiresAt: Option<int>,
    attemptCount: nat,
    maxAttempts: nat,
    nextRetryAt: Option<int>)

  /** A row with the events that belong to it. */
  datatype Entry = Entry(run: Run, log: seq<Event>)

  const CANCEL_CODE := "RUN_CANCELLED"
  const CANCEL_MESSAGE := "用户已请求取消任务。"
  const EXHAUSTED_CODE := "MAX_ATTEMPTS_EXCEEDED"
  const EXHAUSTED_MESSAGE := "Worker 租约过期且已达到最大尝试次数。"

  predicate LeaseActive(lease: Option<int>, now: int) {
    lease.Some? && lease.value > now
  }

  /** What every write of a worker checks first. */
  predicate Holds(run: Run, worker: WorkerId, now: int) {
    run.workerId == Some(worker) && run.status == RUNNING && LeaseActive(run.leaseExpiresAt, now)
  }

  predicate Expired(run: Run, now: int) {
    run.status == RUNNING && run.leaseExpiresAt.Some? && run.leaseExpiresAt.value <= now
  }

  /** An expired Run that must end now. */
  predicate Finalisable(run: Run, now: int) {
    Expired(run, now) && (run.cancelRequested || run.attemptCount >= run.maxAttempts)
  }

  predicate PendingReady(run: Run, now: int) {
    run.status == PENDING && (run.nextRetryAt.None? || run.nextRetryAt.value <= now)
  }

  /** A Run that the next claim may take. */
  predicate Claimable(run: Run, now: int) {
    && !run.cancelRequested
    && (PendingReady(run, now) || (Expired(run, now) && run.attemptCount < run.maxAttempts))
  }

  // ---------------------------------------------------------------- what happens to one row

  function Queued(session: SessionId, now: int, maxAttempts: nat, output: RunResult): Entry {
    Entry(Run(session, now, PENDING, output, None, None, None, false, None, None, 0, maxAttempts, None),
          Append([], RunQueued, None))
  }

  function Claimed(e: Entry, worker: WorkerId, until: int): Entry {
    var kind := if e.run.status == RUNNING then RunReclaimed
                else if e.run.attemptCount > 0 then RunRetryStarted else RunStarted;
    Entry(e.run.(status := RUNNING, workerId := Some(worker), leaseExpiresAt := Some(until), nextRetryAt := None,
                 attemptCount := e.run.attemptCount + 1),
          Append(e.log, kind, Some(worker)))
  }

  function Renewed(e: Entry, until: int): Entry {
    e.(run := e.run.(leaseExpiresAt := Some(until)))
  }

  function ContextRecorded(e: Entry, usage: Usage): Entry {
    Entry(e.run.(output := ContextApplied(e.run.output, usage)), Append(e.log, ContextPrepared, None))
  }

  function ToolRecorded(e: Entry, tool: string, snapshot: Option<Payload>, succeeded: bool): Entry {
    Entry(e.run.(output := ToolApplied(e.run.output, tool, snapshot, succeeded)),
          Append(e.log, if succeeded then ToolSucceeded else ToolFailed, None))
  }

  function Progressed(e: Entry, name: string): Entry {
    e.(log := Append(e.log, Progress(name), None))
  }

  /** Ends a Run without success: status, error, result and event agree. */
  function Ended(e: Entry, status: RunStatus, code: string, message: string): Entry {
    Entry(e.run.(status := status, errorCode := Some(code), errorMessage := Some(message),
                 output := FailureApplied(e.run.output, code, message, true),
                 workerId := None, leaseExpiresAt := None),
          Append(e.log, if status == CANCELLED then RunCancelled else RunFailed, None))
  }

  function CancelledBy(e: Entry): Entry {
    Ended(e, CANCELLED, CANCEL_CODE, CANCEL_MESSAGE)
  }

  /** `_mark_terminal_expired_runs`, for one row. */
  function Finalised(e: Entry): Entry {
    if e.run.cancelRequested then CancelledBy(e) else Ended(e, FAILED, EXHAUSTED_CODE, EXHAUSTED_MESSAGE)
  }

  function Succeeded(e: Entry, answer: Answer): Entry {
    var output := Completed(e.run.output, answer);
    Entry(e.run.(status := SUCCEEDED, output := output, assistantMessage := Some(output.assistantAnswer),
                 errorCode := None, errorMessage := None, workerId := None, leaseExpiresAt := None),
          Append(e.log, RunSucceeded, None))
  }

  /** `complete_run`: a requested cancellation wins over the answer. */
  function Finished(e: Entry, answer: Answer): Entry {
    if e.run.cancelRequested then CancelledBy(e) else Succeeded(e, answer)
  }

  function RetryLater(e: Entry, code: string, message: string, retryAt: int): Entry {
    Entry(e.run.(status := PENDING, errorCode := Some(code), errorMessage := Some(message),
                 nextRetryAt := Some(retryAt),
                 output := FailureApplied(e.run.output, code, message, false),
                 workerId := None, leaseExpiresAt := None),
          Append(e.log, RunRetryScheduled, None))
  }

  /** `fail_run`: cancelled, retried later, or failed for good. */
  function FailedBy(e: Entry, code: string, message: string, retryable: bool, retryAt: int): Entry {
    if e.run.cancelRequested then CancelledBy(e)
    else if retryable && e.run.attemptCount < e.run.maxAttempts then RetryLater(e, code, message, retryAt)
    else Ended(e, FAILED, code, message)
  }

  /** `request_cancellation`: ended Runs are left alone, waiting ones end at once, running ones are told. */
  function CancelAsked(e: Entry): Entry {
    if Terminal(e.run.status) then e
    else
      var asked := e.(run := e.run.(cancelRequested := true));
      if e.run.status == PENDING then CancelledBy(asked)
      else asked.(log := Append(asked.log, CancellationRequested, None))
  }

  // ---------------------------------------------------------------- the store

  datatype Store = Store(clock: int, sessions: map<SessionId, UserId>, entries: map<RunId, Entry>)

  const EMPTY_STORE := Store(0, map[], map[])

  datatype Action =
    | OpenSession(session: SessionId, user: UserId, now: int)
    | Enqueue(session: SessionId, user: UserId, runId: RunId, maxAttempts: nat, late: set<RunId>,
              previous: Option<RunId>, now: int)
    | ClaimNext(worker: WorkerId, leaseSeconds: int, lockedThen: set<RunId>, finalised: set<RunId>,
                lockedNow: set<RunId>, chosen: Option<RunId>, expireAt: int, claimAt: int, now: int)
    | Renew(runId: RunId, worker: WorkerId, leaseSeconds: int, readAt: int, now: int)
    | RecordContext(runId: RunId, worker: WorkerId, usage: Usage, now: int)
    | RecordTool(runId: RunId, worker: WorkerId, tool: string, snapshot: Option<Payload>, succeeded: bool, now: int)
    | RecordProgress(runId: RunId, worker: WorkerId, name: string, now: int)
    | Complete(runId: RunId, worker: WorkerId, answer: Answer, now: int)
    | Fail(runId: RunId, worker: WorkerId, code: string, message: string, retryable: bool, retryDelay: int, now: int)
    | Cancel(runId: RunId, user: UserId, now: int)

  function SessionRuns(s: Store, session: SessionId): set<RunId> {
    set id | id in s.entries && s.entries[id].run.session == session
  }

  /** Newest first, ties broken by identifier. */
  predicate Newer(s: Store, a: RunId, b: RunId)
    requires a in s.entries && b in s.entries
  {
    var x, y := s.entries[a].run.createdAt, s.entries[b].run.createdAt;
    x > y || (x == y && a > b)
  }

  /** `previous` is the newest successful Run of the session, if there is one, leaving aside those that
      succeeded too late for the query to see them. */
  ghost predicate LatestSuccess(s: Store, session: SessionId, late: set<RunId>, previous: Option<RunId>) {
    match previous
    case None => forall id | id in SessionRuns(s, session) - late :: s.entries[id].run.status != SUCCEEDED
    case Some(p) =>
      && p in SessionRuns(s, session) - late && s.entries[p].run.status == SUCCEEDED
      && forall id | id in SessionRuns(s, session) - late && s.entries[id].run.status == SUCCEEDED :: !Newer(s, id, p)
  }

  const FINALISE_LIMIT: nat := 20

  /** At most twenty expired Runs are ended; fewer only if no other one could be locked. */
  ghost predicate FinalisedSelection(s: Store, locked: set<RunId>, finalised: set<RunId>, now: int) {
    && |finalised| <= FINALISE_LIMIT
    && (forall id | id in finalised :: id in s.entries && id !in locked && Finalisable(s.entries[id].run, now))
    && (|finalised| < FINALISE_LIMIT ==>
          forall id | id in s.entries && id !in locked && Finalisable(s.entries[id].run, now) :: id in finalised)
  }

  function FinaliseAll(s: Store, finalised: set<RunId>): Store {
    s.(entries := map id | id in s.entries :: if id in finalised then Finalised(s.entries[id]) else s.entries[id])
  }

  /** The oldest claimable Run that no other transaction has locked. */
  ghost predicate OldestClaimable(s: Store, locked: set<RunId>, chosen: Option<RunId>, now: int) {
    match chosen
    case None => forall id | id in s.entries && id !in locked :: !Claimable(s.entries[id].run, now)
    case Some(c) =>
      && c in s.entries && c !in locked && Claimable(s.entries[c].run, now)
      && forall id | id in s.entries && id !in locked && Claimable(s.entries[id].run, now) :: !Newer(s, c, id)
  }

  /** Which actions the program, its callers and the database allow in a state. */
  ghost predicate Enabled(s: Store, a: Action) {
    && s.clock <= a.now
    && match a
       case OpenSession(session, _, _) => session !in s.sessions
       case Enqueue(session, _, runId, maxAttempts, late, previous, _) =>
         runId !in s.entries && maxAttempts >= 1 && LatestSuccess(s, session, late, previous)
       case ClaimNext(_, _, lockedThen, finalised, lockedNow, chosen, expireAt, claimAt, now) =>
         && s.clock <= expireAt <= claimAt <= now
         && FinalisedSelection(s, lockedThen, finalised, expireAt)
         && OldestClaimable(FinaliseAll(s, finalised), lockedNow, chosen, claimAt)
       case Renew(_, _, _, readAt, now) => readAt <= now
       case _ => true
  }

  function Initialised(s: Store, session: SessionId, previous: Option<RunId>): RunResult {
    var planRevision := |SessionRuns(s, session)| + 1;
    if previous.Some? && previous.value in s.entries
    then Initial(planRevision, previous, Some(s.entries[previous.value].run.output))
    else Initial(planRevision, None, None)
  }

  /** The actions of a worker on a Run it has claimed. */
  predicate IsWrite(a: Action) {
    a.Renew? || a.RecordContext? || a.RecordTool? || a.RecordProgress? || a.Complete? || a.Fail?
  }

  /** The clock reading a worker's write is judged by. Only a renewal reads the clock before it
      waits for the row. */
  function ReadAt(a: Action): int {
    if a.Renew? then a.readAt else a.now
  }

  /** What a worker's write does to its row. */
  function Written(a: Action, e: Entry): Entry
    requires IsWrite(a)
  {
    match a
    case Renew(_, _, leaseSeconds, readAt, _) => Renewed(e, readAt + leaseSeconds)
    case RecordContext(_, _, usage, _) => ContextRecorded(e, usage)
    case RecordTool(_, _, tool, snapshot, succeeded, _) => ToolRecorded(e, tool, snapshot, succeeded)
    case RecordProgress(_, _, name, _) => Progressed(e, name)
    case Complete(_, _, answer, _) => Finished(e, answer)
    case Fail(_, _, code, message, retryable, retryDelay, now) =>
      FailedBy(e, code, message, retryable, now + retryDelay)
  }

  /** A worker's transaction requires that the worker holds the row; otherwise it raises and changes nothing. */
  function Fenced(s: Store, a: Action): Store
    requires IsWrite(a)
  {
    if a.runId in s.entries && Holds(s.entries[a.runId].run, a.worker, ReadAt(a))
    then s.(entries := s.entries[a.runId := Written(a, s.entries[a.runId])]) else s
  }

  /** The state after an action, before the clock is advanced. */
  function Effect(s: Store, a: Action): Store {
    match a
    case OpenSession(session, user, _) => s.(sessions := s.sessions[session := user])
    case Enqueue(session, user, runId, maxAttempts, _, previous, now) =>
      if session in s.sessions && s.sessions[session] == user
      then s.(entries := s.entries[runId := Queued(session, now, maxAttempts, Initialised(s, session, previous))])
      else s
    case ClaimNext(worker, leaseSeconds, _, finalised, _, chosen, _, claimAt, now) =>
      var f := FinaliseAll(s, finalised);
      if chosen.None? || chosen.value !in f.entries then f
      else if claimAt + leaseSeconds > now
      then f.(entries := f.entries[chosen.value := Claimed(f.entries[chosen.value], worker, claimAt + leaseSeconds)])
      else s
    case Cancel(runId, user, _) =>
      if runId in s.entries && s.entries[runId].run.session in s.sessions
          && s.sessions[s.entries[runId].run.session] == user
      then s.(entries := s.entries[runId := CancelAsked(s.entries[runId])])
      else s
    case _ => Fenced(s, a)
  }

  function Step(s: Store, a: Action): Store {
    Effect(s, a).(clock := a.now)
  }

  // ---------------------------------------------------------------- runs of the system

  /** The state after a sequence of actions, if each was enabled when it happened. */
  ghost function Replay(trace: seq<Action>): Option<Store> {
    if trace == [] then Some(EMPTY_STORE)
    else
      match Replay(trace[..|trace| - 1])
      case None => None
      case Some(s) => if Enabled(s, trace[|trace| - 1]) then Some(Step(s, trace[|trace| - 1])) else None
  }
}
