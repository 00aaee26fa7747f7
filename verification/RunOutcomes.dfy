/**
  What every step of the protocol leaves on the row it writes, field by field, from the row before it.
  The lemmas name the columns, the events and the fixed codes of the program, not the functions that
  compute the rows.
 */
module RunOutcomes {
  import opened Wrappers
  import opened RunModels
  import opened RunResults
  import opened ResultOutcomes
  import opened RunHistory
  import opened RunProtocol
  import opened RunSafety

  /** The columns a worker's write is judged by. */
  predicate HeldBy(run: Run, worker: WorkerId, at: int) {
    && run.status == RUNNING && run.workerId == Some(worker)
    && run.leaseExpiresAt.Some? && run.leaseExpiresAt.value > at
  }

  /** Nothing but one row and the clock changed. */
  predicate OnlyRow(s: Store, t: Store, id: RunId, now: int) {
    && t.clock == now && t.sessions == s.sessions && t.entries.Keys == s.entries.Keys
    && forall other | other in s.entries && other != id :: t.entries[other] == s.entries[other]
  }

  /** The log grew by one event, which carries the next number. */
  predicate Logged(log: seq<Event>, log1: seq<Event>, kind: EventKind, worker: Option<WorkerId>) {
    log1 == log + [Event(|log| + 1, kind, worker)]
  }

  /** What no step changes, and no step but a claim. */
  predicate SameRun(run: Run, run1: Run) {
    && run1.session == run.session && run1.createdAt == run.createdAt && run1.maxAttempts == run.maxAttempts
    && run1.attemptCount == run.attemptCount && run1.cancelRequested == run.cancelRequested
  }

  /** The row is free, its error is `code` and `message`, and the result shows it. */
  predicate ClosedWith(e: Entry, e1: Entry, status: RunStatus, code: string, message: string, kind: EventKind) {
    && SameRun(e.run, e1.run) && e1.run.status == status
    && e1.run.workerId == None && e1.run.leaseExpiresAt == None
    && e1.run.errorCode == Some(code) && e1.run.errorMessage == Some(message)
    && e1.run.assistantMessage == e.run.assistantMessage
    && FailureShown(e.run.output, e1.run.output, code, message, status != PENDING)
    && Logged(e.log, e1.log, kind, None)
  }

  predicate EndsCancelled(e: Entry, e1: Entry) {
    && ClosedWith(e, e1, CANCELLED, "RUN_CANCELLED", "用户已请求取消任务。", RunCancelled)
    && e1.run.nextRetryAt == e.run.nextRetryAt
  }

  lemma AppendIs(log: seq<Event>, kind: EventKind, worker: Option<WorkerId>)
    requires Numbered(log)
    ensures Logged(log, Append(log, kind, worker), kind, worker)
  {
    NumberedMax(log);
  }

  /** What the store's invariant gives about every row. */
  predicate Intact(e: Entry) {
    && (forall i | 0 <= i < |e.log| :: e.log[i].sequence == i + 1)
    && |e.run.output.sources| <= 100 && |e.run.output.warnings| <= 100
  }

  lemma EveryRowIsIntact(e: Entry)
    requires RowInv(e)
    ensures Intact(e)
  {
  }

  /** So the lemmas below hold of every row of every reachable state. */
  lemma ReachableRowsAreIntact(trace: seq<Action>, id: RunId)
    requires Replay(trace).Some? && id in Replay(trace).value.entries
    ensures Intact(Replay(trace).value.entries[id])
  {
    hide Replay, RowInv, Intact;
    ReachableInv(trace);
    EveryRowIsIntact(Replay(trace).value.entries[id]);
  }

  // ---------------------------------------------------------------- writes of a worker

  /** A write by anyone who does not hold the row changes nothing. */
  lemma OthersChangeNothing(s: Store, a: Action)
    requires a.RecordContext? || a.RecordTool? || a.RecordProgress? || a.Complete? || a.Fail? || a.Renew?
    requires a.runId !in s.entries
          || !HeldBy(s.entries[a.runId].run, a.worker, if a.Renew? then a.readAt else a.now)
    ensures Step(s, a) == Store(a.now, s.sessions, s.entries)
  {
  }

  /** A failure the worker reports: the Run is cancelled if that was asked for; it is retried exactly if the
      failure can be retried and an attempt is left; otherwise it has failed. */
  lemma FailOutcome(s: Store, id: RunId, worker: WorkerId, code: string, message: string, retryable: bool,
                    delay: int, now: int)
    requires id in s.entries && Intact(s.entries[id]) && HeldBy(s.entries[id].run, worker, now)
    ensures var t := Step(s, Fail(id, worker, code, message, retryable, delay, now));
            && OnlyRow(s, t, id, now)
            && var e, e1 := s.entries[id], t.entries[id];
            && (e.run.cancelRequested ==> EndsCancelled(e, e1))
            && (!e.run.cancelRequested && retryable && e.run.attemptCount < e.run.maxAttempts ==>
                  && ClosedWith(e, e1, PENDING, code, message, RunRetryScheduled)
                  && e1.run.nextRetryAt == Some(now + delay))
            && (!e.run.cancelRequested && !(retryable && e.run.attemptCount < e.run.maxAttempts) ==>
                  && ClosedWith(e, e1, FAILED, code, message, RunFailed)
                  && e1.run.nextRetryAt == e.run.nextRetryAt)
  {
    hide FailureApplied, FailureShown, Append, Logged;
    var e := s.entries[id];
    AppendIs(e.log, RunCancelled, None);
    AppendIs(e.log, RunRetryScheduled, None);
    AppendIs(e.log, RunFailed, None);
    FailureIsShown(e.run.output, "RUN_CANCELLED", "用户已请求取消任务。", true);
    FailureIsShown(e.run.output, code, message, false);
    FailureIsShown(e.run.output, code, message, true);
  }

  /** What the result of a successful Run shows of the answer, as `ResultOutcomes.Answered` spells out. */
  ghost predicate AnswerShown(r: RunResult, r1: RunResult, answer: Answer) {
    && r1.assistantAnswer == (if answer.assistantAnswer != "" then answer.assistantAnswer else answer.answer)
    && r1.weatherWindow == r.weatherWindow && r1.itinerary == r.itinerary && r1.warnings == r.warnings
    && PartClosed(r.weather, r1.weather) && PartClosed(r.guide, r1.guide) && PartClosed(r.route, r1.route)
    && exists added, at, steps ::
         ReferencesOf(answer.references, added, at) && TakesSources(r.sources, r1.sources, added, steps)
  }

  /** An answer: the Run is cancelled if that was asked for, and otherwise succeeds with the answer's text as
      the assistant's message. */
  lemma CompleteOutcome(s: Store, id: RunId, worker: WorkerId, answer: Answer, now: int)
    requires id in s.entries && Intact(s.entries[id]) && HeldBy(s.entries[id].run, worker, now)
    ensures var t := Step(s, RunProtocol.Complete(id, worker, answer, now));
            && OnlyRow(s, t, id, now)
            && var e, e1 := s.entries[id], t.entries[id];
            && (e.run.cancelRequested ==> EndsCancelled(e, e1))
            && (!e.run.cancelRequested ==>
                  && SameRun(e.run, e1.run) && e1.run.status == SUCCEEDED
                  && e1.run.workerId == None && e1.run.leaseExpiresAt == None
                  && e1.run.errorCode == None && e1.run.errorMessage == None
                  && e1.run.nextRetryAt == e.run.nextRetryAt
                  && e1.run.assistantMessage
                     == Some(if answer.assistantAnswer != "" then answer.assistantAnswer else answer.answer)
                  && AnswerShown(e.run.output, e1.run.output, answer)
                  && Logged(e.log, e1.log, RunSucceeded, None))
  {
    hide FailureApplied, FailureShown, Append, Logged, Completed, ReferencesOf, TakesSources, PartClosed;
    var e := s.entries[id];
    AppendIs(e.log, RunCancelled, None);
    AppendIs(e.log, RunSucceeded, None);
    FailureIsShown(e.run.output, "RUN_CANCELLED", "用户已请求取消任务。", true);
    var added, at, steps := Answered(e.run.output, answer);
  }

  /** A tool call, a prepared context or a message of progress: one event, and nothing else but the result. */
  predicate OnlyResult(e: Entry, e1: Entry, output: RunResult, kind: EventKind) {
    e1.run == e.run.(output := output) && Logged(e.log, e1.log, kind, None)
  }

  lemma ToolOutcome(s: Store, id: RunId, worker: WorkerId, tool: string, snapshot: Option<Payload>, succeeded: bool,
                    now: int)
    requires id in s.entries && Intact(s.entries[id]) && HeldBy(s.entries[id].run, worker, now)
    ensures var t := Step(s, RecordTool(id, worker, tool, snapshot, succeeded, now));
            && OnlyRow(s, t, id, now)
            && OnlyResult(s.entries[id], t.entries[id],
                          ToolApplied(s.entries[id].run.output, tool, snapshot, succeeded),
                          if succeeded then ToolSucceeded else ToolFailed)
  {
    hide ToolApplied, Append, Logged;
    AppendIs(s.entries[id].log, if succeeded then ToolSucceeded else ToolFailed, None);
  }

  lemma ContextOutcome(s: Store, id: RunId, worker: WorkerId, usage: Usage, now: int)
    requires id in s.entries && Intact(s.entries[id]) && HeldBy(s.entries[id].run, worker, now)
    ensures var t := Step(s, RecordContext(id, worker, usage, now));
            && OnlyRow(s, t, id, now)
            && OnlyResult(s.entries[id], t.entries[id], s.entries[id].run.output.(contextUsage := Some(usage)),
                          ContextPrepared)
  {
    hide Append, Logged;
    AppendIs(s.entries[id].log, ContextPrepared, None);
  }

  lemma ProgressOutcome(s: Store, id: RunId, worker: WorkerId, name: string, now: int)
    requires id in s.entries && Intact(s.entries[id]) && HeldBy(s.entries[id].run, worker, now)
    ensures var t := Step(s, RecordProgress(id, worker, name, now));
            && OnlyRow(s, t, id, now)
            && OnlyResult(s.entries[id], t.entries[id], s.entries[id].run.output, Progress(name))
  {
    hide Append, Logged;
    AppendIs(s.entries[id].log, Progress(name), None);
  }

  /** A renewal moves the end of the lease to its own clock reading plus the lease, and writes nothing else. */
  lemma RenewOutcome(s: Store, id: RunId, worker: WorkerId, leaseSeconds: int, readAt: int, now: int)
    requires id in s.entries && HeldBy(s.entries[id].run, worker, readAt)
    ensures var t := Step(s, Renew(id, worker, leaseSeconds, readAt, now));
            && OnlyRow(s, t, id, now)
            && t.entries[id] == Entry(s.entries[id].run.(leaseExpiresAt := Some(readAt + leaseSeconds)),
                                      s.entries[id].log)
  {
  }

  // ---------------------------------------------------------------- claims

  /** A Run nobody works on any more: its lease ran out. */
  predicate LeaseRanOut(run: Run, at: int) {
    run.status == RUNNING && run.leaseExpiresAt.Some? && run.leaseExpiresAt.value <= at
  }

  /** What a claim ends: cancelled if that was asked for, failed if no attempt is left. */
  predicate EndsExpired(e: Entry, e1: Entry) {
    if e.run.cancelRequested then EndsCancelled(e, e1)
    else
      && ClosedWith(e, e1, FAILED, "MAX_ATTEMPTS_EXCEEDED", "Worker 租约过期且已达到最大尝试次数。", RunFailed)
      && e1.run.nextRetryAt == e.run.nextRetryAt
  }

  lemma FinaliseOutcome(e: Entry)
    requires Intact(e)
    ensures EndsExpired(e, Finalised(e))
  {
    hide FailureApplied, FailureShown, Append, Logged;
    AppendIs(e.log, RunCancelled, None);
    AppendIs(e.log, RunFailed, None);
    FailureIsShown(e.run.output, "RUN_CANCELLED", "用户已请求取消任务。", true);
    FailureIsShown(e.run.output, "MAX_ATTEMPTS_EXCEEDED", "Worker 租约过期且已达到最大尝试次数。", true);
  }

  /** A claimed row: the worker holds it until `until`, one more attempt is counted, and the event says whether
      it is a first attempt, a retry or a takeover. */
  predicate TakenBy(e: Entry, e1: Entry, worker: WorkerId, until: int) {
    && e1.run == e.run.(status := RUNNING, workerId := Some(worker), leaseExpiresAt := Some(until),
                        nextRetryAt := None, attemptCount := e.run.attemptCount + 1)
    && Logged(e.log, e1.log,
              if e.run.status == RUNNING then RunReclaimed
              else if e.run.attemptCount == 0 then RunStarted else RunRetryStarted, Some(worker))
  }

  /** A Run that must end instead of starting again. */
  predicate Spent(run: Run, at: int) {
    LeaseRanOut(run, at) && (run.cancelRequested || run.attemptCount >= run.maxAttempts)
  }

  /** A Run that waits for an attempt: pending with its retry time come, or expired with an attempt left, and
      no cancellation asked for. */
  predicate Waits(run: Run, at: int) {
    && !run.cancelRequested
    && (|| (run.status == PENDING && (run.nextRetryAt.None? || run.nextRetryAt.value <= at))
        || (LeaseRanOut(run, at) && run.attemptCount < run.maxAttempts))
  }

  /** Created earlier, or at the same time with the smaller identifier. */
  predicate Older(s: Store, a: RunId, b: RunId)
    requires a in s.entries && b in s.entries
  {
    var x, y := s.entries[a].run.createdAt, s.entries[b].run.createdAt;
    x < y || (x == y && a < b)
  }

  /** Which Runs a claim ends, and which one it takes, told from the rows before it. */
  ghost predicate ClaimChoice(s: Store, a: Action)
    requires a.ClaimNext?
  {
    && |a.finalised| <= 20
    && (forall id | id in a.finalised :: id in s.entries && id !in a.lockedThen && Spent(s.entries[id].run, a.expireAt))
    && (|a.finalised| < 20 ==>
          forall id | id in s.entries && id !in a.lockedThen && Spent(s.entries[id].run, a.expireAt) ::
              id in a.finalised)
    && (forall id | id in s.entries && id !in a.finalised && id !in a.lockedNow
        && Waits(s.entries[id].run, a.claimAt) ::
          a.chosen.Some?)
    && (a.chosen.Some? ==>
          && var c := a.chosen.value;
          && c in s.entries && c !in a.finalised && c !in a.lockedNow && Waits(s.entries[c].run, a.claimAt)
          && forall id | && id in s.entries && id !in a.finalised && id !in a.lockedNow && id != c
                         && Waits(s.entries[id].run, a.claimAt) :: Older(s, c, id))
  }

  lemma ClaimChoiceIs(s: Store, a: Action)
    requires a.ClaimNext? && Enabled(s, a)
    ensures ClaimChoice(s, a)
  {
    hide FailureApplied, Append;
    var f := FinaliseAll(s, a.finalised);
    forall id | id in s.entries
      ensures Claimable(f.entries[id].run, a.claimAt)
         <==> id !in a.finalised && Waits(s.entries[id].run, a.claimAt)
      ensures f.entries[id].run.createdAt == s.entries[id].run.createdAt
    {
    }
  }

  /** A claim ends the expired Runs it may not restart, takes the oldest Run that waits for an attempt, and
      leaves every other row alone. */
  lemma ClaimOutcome(s: Store, a: Action)
    requires a.ClaimNext? && Enabled(s, a) && forall id | id in s.entries :: Intact(s.entries[id])
    requires a.chosen.Some? ==> a.claimAt + a.leaseSeconds > a.now
    ensures ClaimChoice(s, a)
    ensures var t := Step(s, a);
            && t.clock == a.now && t.sessions == s.sessions && t.entries.Keys == s.entries.Keys
            && (forall id | id in a.finalised :: id in s.entries && EndsExpired(s.entries[id], t.entries[id]))
            && (forall id | id in s.entries && id !in a.finalised && Some(id) != a.chosen ::
                  t.entries[id] == s.entries[id])
            && (a.chosen.Some? ==>
                  && a.chosen.value in s.entries
                  && TakenBy(s.entries[a.chosen.value], t.entries[a.chosen.value], a.worker,
                             a.claimAt + a.leaseSeconds))
  {
    hide Finalised, Claimed, EndsExpired, TakenBy, Waits, Spent, Older, Claimable, Finalisable;
    ClaimChoiceIs(s, a);
    forall id | id in a.finalised ensures EndsExpired(s.entries[id], Finalised(s.entries[id])) {
      FinaliseOutcome(s.entries[id]);
    }
    if a.chosen.Some? {
      TakenOutcome(s.entries[a.chosen.value], a.worker, a.claimAt + a.leaseSeconds);
    }
  }

  /** A claim whose new lease has run out by the time its event is written is rolled back, and so are the
      Runs it would have ended. */
  lemma LateClaimIsRolledBack(s: Store, a: Action)
    requires a.ClaimNext? && Enabled(s, a) && a.chosen.Some? && a.claimAt + a.leaseSeconds <= a.now
    ensures Step(s, a) == Store(a.now, s.sessions, s.entries)
  {
    hide Finalised, Claimed, Claimable;
  }

  lemma TakenOutcome(e: Entry, worker: WorkerId, until: int)
    requires Intact(e)
    ensures TakenBy(e, Claimed(e, worker, until), worker, until)
  {
    hide Append, Logged;
    var kind := if e.run.status == RUNNING then RunReclaimed
                else if e.run.attemptCount > 0 then RunRetryStarted else RunStarted;
    AppendIs(e.log, kind, Some(worker));
  }

  // ---------------------------------------------------------------- users

  /** A cancellation by the owner of a Run that has not ended is remembered. A waiting Run ends at once, any
      other is told by an event. */
  lemma CancelOutcome(s: Store, id: RunId, user: UserId, now: int)
    requires id in s.entries && Intact(s.entries[id])
    requires s.entries[id].run.session in s.sessions && s.sessions[s.entries[id].run.session] == user
    ensures var t := Step(s, Cancel(id, user, now));
            && OnlyRow(s, t, id, now)
            && var e, e1 := s.entries[id], t.entries[id];
               var asked := Entry(e.run.(cancelRequested := true), e.log);
               if e.run.status == SUCCEEDED || e.run.status == FAILED || e.run.status == CANCELLED then e1 == e
               else if e.run.status == PENDING then EndsCancelled(asked, e1)
               else e1.run == asked.run && Logged(e.log, e1.log, CancellationRequested, None)
  {
    hide FailureApplied, FailureShown, Append, Logged;
    var e := s.entries[id];
    AppendIs(e.log, RunCancelled, None);
    AppendIs(e.log, CancellationRequested, None);
    FailureIsShown(e.run.output, "RUN_CANCELLED", "用户已请求取消任务。", true);
  }

  /** Nobody else can cancel a Run, or queue one. */
  lemma StrangersChangeNothing(s: Store, a: Action)
    requires a.Cancel? || a.Enqueue?
    requires a.Cancel? && a.runId in s.entries && s.entries[a.runId].run.session in s.sessions ==>
               s.sessions[s.entries[a.runId].run.session] != a.user
    requires a.Enqueue? && a.session in s.sessions ==> s.sessions[a.session] != a.user
    ensures Step(s, a) == Store(a.now, s.sessions, s.entries)
  {
  }

  /** A message of the session's owner queues a Run with the next revision, no attempt made and one event. It
      starts with nothing, or with the parts of the newest success the query saw. */
  lemma EnqueueOutcome(s: Store, a: Action)
    requires a.Enqueue? && Enabled(s, a) && a.session in s.sessions && s.sessions[a.session] == a.user
    ensures var t := Step(s, a);
            && t.clock == a.now && t.sessions == s.sessions && t.entries.Keys == s.entries.Keys + {a.runId}
            && (forall id | id in s.entries :: t.entries[id] == s.entries[id])
            && var e, r := t.entries[a.runId], t.entries[a.runId].run.output;
            && e.log == [Event(1, RunQueued, None)]
            && e.run == Run(a.session, a.now, PENDING, r, None, None, None, false, None, None, 0, a.maxAttempts, None)
            && r.planRevision == 1 + |set id | id in s.entries && s.entries[id].run.session == a.session|
            && r.supersedes == a.previous && r.resultStatus == Partial && r.assistantAnswer == ""
            && r.contextUsage == None
            && (a.previous.None? ==>
                  && r.weatherWindow == None && r.itinerary == None && r.sources == [] && r.warnings == []
                  && r.weather == Component(Pending, None, None, None) && r.guide == r.weather && r.route == r.weather)
            && (a.previous.Some? ==>
                  && a.previous.value in s.entries
                  && var p := s.entries[a.previous.value].run;
                  && p.session == a.session && p.status == SUCCEEDED
                  && r.weatherWindow == p.output.weatherWindow && r.itinerary == p.output.itinerary
                  && r.sources == p.output.sources && r.warnings == p.output.warnings
                  && PartTakenOver(p.output.weather, r.weather, a.previous.value)
                  && PartTakenOver(p.output.guide, r.guide, a.previous.value)
                  && PartTakenOver(p.output.route, r.route, a.previous.value))
  {
    hide Initial, PartTakenOver, Newer;
    assert Append([], RunQueued, None) == [Event(1, RunQueued, None)];
    var revision := |SessionRuns(s, a.session)| + 1;
    Started(revision, 0, FreshResult(1, None));
    if a.previous.Some? {
      Started(revision, a.previous.value, s.entries[a.previous.value].run.output);
    }
    assert SessionRuns(s, a.session) == set id | id in s.entries && s.entries[id].run.session == a.session;
  }
}
