/**
  What holds of every row in every reachable state: the event log accounts for the row, leases and
  attempts are consistent, cancellation is final, and the stored result agrees with the status.
 */
module RunSafety {
  import opened Wrappers
  import opened RunModels
  import opened Texts
  import opened RunResults
  import opened RunProtocol

  // ---------------------------------------------------------------- the log as an automaton

  /** What a reader of the events alone knows about a Run. */
  datatype Phase = Phase(status: RunStatus, attempts: nat)

  /** The events that may follow, and what they mean. Nothing follows an ending. */
  function Advance(p: Phase, kind: EventKind): Option<Phase> {
    match kind
    case RunQueued => None
    case RunStarted => if p == Phase(PENDING, 0) then Some(Phase(RUNNING, 1)) else None
    case RunRetryStarted => if p.status == PENDING && p.attempts > 0 then Some(Phase(RUNNING, p.attempts + 1)) else None
    case RunReclaimed => if p.status == RUNNING then Some(Phase(RUNNING, p.attempts + 1)) else None
    case RunRetryScheduled => if p.status == RUNNING then Some(p.(status := PENDING)) else None
    case RunSucceeded => if p.status == RUNNING then Some(p.(status := SUCCEEDED)) else None
    case RunFailed => if p.status == RUNNING then Some(p.(status := FAILED)) else None
    case RunCancelled => if p.status == PENDING || p.status == RUNNING then Some(p.(status := CANCELLED)) else None
    case _ => if p.status == RUNNING then Some(p) else None
  }

  /** Folding the events of a Run, from RUN_QUEUED on. */
  function Fold(log: seq<Event>): Option<Phase> {
    if log == [] then None
    else if |log| == 1 then if log[0].kind == RunQueued then Some(Phase(PENDING, 0)) else None
    else
      match Fold(log[..|log| - 1])
      case None => None
      case Some(p) => Advance(p, log[|log| - 1].kind)
  }

  function ClaimCount(log: seq<Event>): nat {
    if log == [] then 0 else ClaimCount(log[..|log| - 1]) + if IsClaim(log[|log| - 1].kind) then 1 else 0
  }

  /** The worker named by the latest claim. */
  function LastClaimant(log: seq<Event>): Option<WorkerId> {
    if log == [] then None
    else if IsClaim(log[|log| - 1].kind) then log[|log| - 1].worker
    else LastClaimant(log[..|log| - 1])
  }

  /** Sequences count from 1 without a gap. */
  ghost predicate Numbered(log: seq<Event>) {
    forall i | 0 <= i < |log| :: log[i].sequence == i + 1
  }

  lemma {:induction false} NumberedMax(log: seq<Event>)
    requires Numbered(log)
    ensures MaxSequence(log) == |log|
  {
    if log != [] {
      NumberedMax(log[..|log| - 1]);
    }
  }

  /** Taking the maximum and adding one keeps the numbering gapless, and moves the reader's view by one event. */
  lemma AppendFacts(log: seq<Event>, kind: EventKind, worker: Option<WorkerId>)
    requires Numbered(log)
    ensures Numbered(Append(log, kind, worker))
    ensures log <= Append(log, kind, worker) && |Append(log, kind, worker)| == |log| + 1
    ensures log != [] && Fold(log).Some? ==> Fold(Append(log, kind, worker)) == Advance(Fold(log).value, kind)
    ensures LastClaimant(Append(log, kind, worker)) == if IsClaim(kind) then worker else LastClaimant(log)
  {
    NumberedMax(log);
    var log1 := Append(log, kind, worker);
    assert log1[..|log1| - 1] == log;
  }

  /** The number of claims in an accepted log is what the fold reports. */
  lemma {:induction false} FoldCountsClaims(log: seq<Event>)
    requires Fold(log).Some?
    ensures Fold(log).value.attempts == ClaimCount(log)
  {
    if |log| > 1 {
      FoldCountsClaims(log[..|log| - 1]);
    } else {
      assert log[..0] == [];
    }
  }

  /** In an accepted log an ending event is the last one, and there is one exactly if the status is terminal. */
  lemma {:induction false} EndingIsLast(log: seq<Event>)
    requires Fold(log).Some?
    ensures forall i | 0 <= i < |log| - 1 :: !IsEnding(log[i].kind)
    ensures IsEnding(log[|log| - 1].kind) <==> Terminal(Fold(log).value.status)
  {
    if |log| > 1 {
      var init := log[..|log| - 1];
      EndingIsLast(init);
      forall i | 0 <= i < |log| - 1 ensures !IsEnding(log[i].kind) {
        assert log[i] == init[i];
      }
    }
  }

  // ---------------------------------------------------------------- the row invariant

  /** The stored result says what the status says. */
  ghost predicate ResultAgrees(run: Run) {
    && Sound(run.output)
    && (run.output.resultStatus == ResultStatus.Failed <==> run.status == FAILED || run.status == CANCELLED)
    && (run.output.resultStatus == ResultStatus.Complete ==>
          && run.status == SUCCEEDED && Strip(run.output.assistantAnswer) != ""
          && run.output.weatherWindow.Some? && run.output.itinerary.Some?)
    && (Terminal(run.status) ==> AllSettled(run.output))
    && (run.assistantMessage.Some? <==> run.status == SUCCEEDED)
    && (run.status == SUCCEEDED ==> run.assistantMessage == Some(run.output.assistantAnswer))
  }

  ghost predicate LeaseAgrees(run: Run) {
    && (run.status == RUNNING <==> run.workerId.Some?)
    && (run.status == RUNNING <==> run.leaseExpiresAt.Some?)
    && run.status != WAITING_FOR_USER
    && 1 <= run.maxAttempts
    && run.attemptCount <= run.maxAttempts
    && (run.status == PENDING ==> run.attemptCount < run.maxAttempts)
    && (run.status == RUNNING ==> run.attemptCount >= 1)
    && (run.cancelRequested ==> run.status == RUNNING || run.status == CANCELLED)
    && (run.status == CANCELLED ==> run.cancelRequested)
  }

  ghost predicate LogAgrees(e: Entry) {
    && Numbered(e.log)
    && Fold(e.log) == Some(Phase(e.run.status, e.run.attemptCount))
    && (e.run.status == RUNNING ==> LastClaimant(e.log) == e.run.workerId)
  }

  ghost predicate RowInv(e: Entry) {
    LogAgrees(e) && LeaseAgrees(e.run) && ResultAgrees(e.run)
  }

  /** What a step may do to a row: identity and plan version stay, events are only appended, attempts
      only grow, an ended Run is frozen, and a requested cancellation stays and stops further claims. */
  ghost predicate RowStep(e: Entry, e1: Entry) {
    && e1.run.session == e.run.session && e1.run.createdAt == e.run.createdAt
    && e1.run.maxAttempts == e.run.maxAttempts
    && e1.run.output.planRevision == e.run.output.planRevision
    && e1.run.output.supersedes == e.run.output.supersedes
    && e.log <= e1.log
    && e.run.attemptCount <= e1.run.attemptCount
    && (Terminal(e.run.status) ==> e1 == e)
    && (e.run.cancelRequested ==> e1.run.cancelRequested && e1.run.attemptCount == e.run.attemptCount)
  }

  lemma RowStepTransitive(a: Entry, b: Entry, c: Entry)
    requires RowStep(a, b) && RowStep(b, c)
    ensures RowStep(a, c)
  {
  }

  /** A transition that is correct for one row. */
  ghost predicate Allowed(e: Entry, e1: Entry) {
    RowInv(e1) && RowStep(e, e1)
  }

  lemma QueuedInv(session: SessionId, now: int, maxAttempts: nat, output: RunResult)
    requires maxAttempts >= 1 && Sound(output) && output.resultStatus == Partial
    ensures RowInv(Queued(session, now, maxAttempts, output))
  {
    hide Sound;
    var log := Append([], RunQueued, None);
    assert log == [Event(1, RunQueued, None)];
  }

  lemma ClaimedAllowed(e: Entry, worker: WorkerId, until: int, now: int)
    requires RowInv(e) && Claimable(e.run, now)
    ensures Allowed(e, Claimed(e, worker, until))
    ensures LastClaimant(Claimed(e, worker, until).log) == Some(worker)
  {
    hide Sound, Fold, Append, Numbered, LastClaimant;
    var kind := if e.run.status == RUNNING then RunReclaimed
                else if e.run.attemptCount > 0 then RunRetryStarted else RunStarted;
    FoldNonEmpty(e.log);
    AppendFacts(e.log, kind, Some(worker));
  }

  lemma FoldNonEmpty(log: seq<Event>)
    ensures Fold(log).Some? ==> log != []
  {
  }

  lemma RenewedAllowed(e: Entry, until: int)
    requires RowInv(e) && e.run.status == RUNNING
    ensures Allowed(e, Renewed(e, until))
  {
    hide Sound, Fold, Numbered, LastClaimant;
  }

  lemma ContextAllowed(e: Entry, usage: Usage)
    requires RowInv(e) && e.run.status == RUNNING
    ensures Allowed(e, ContextRecorded(e, usage))
  {
    hide Sound, Fold, Append, Numbered, LastClaimant;
    FoldNonEmpty(e.log);
    AppendFacts(e.log, ContextPrepared, None);
    ContextAppliedSound(e.run.output, usage);
  }

  lemma ToolAllowed(e: Entry, tool: string, snapshot: Option<Payload>, succeeded: bool)
    requires RowInv(e) && e.run.status == RUNNING
    ensures Allowed(e, ToolRecorded(e, tool, snapshot, succeeded))
  {
    hide Sound, Fold, Append, Numbered, LastClaimant, WeatherSucceeded, WeatherFailed, TripSucceeded, TripFailed;
    FoldNonEmpty(e.log);
    AppendFacts(e.log, if succeeded then ToolSucceeded else ToolFailed, None);
    ToolAppliedSound(e.run.output, tool, snapshot, succeeded);
    ToolKeepsVersion(e.run.output, tool, snapshot, succeeded);
  }

  lemma ToolKeepsVersion(r: RunResult, tool: string, snapshot: Option<Payload>, succeeded: bool)
    ensures ToolApplied(r, tool, snapshot, succeeded).planRevision == r.planRevision
    ensures ToolApplied(r, tool, snapshot, succeeded).supersedes == r.supersedes
  {
  }

  lemma ProgressAllowed(e: Entry, name: string)
    requires RowInv(e) && e.run.status == RUNNING
    ensures Allowed(e, Progressed(e, name))
  {
    hide Sound, Fold, Append, Numbered, LastClaimant;
    FoldNonEmpty(e.log);
    AppendFacts(e.log, Progress(name), None);
  }

  lemma EndedAllowed(e: Entry, status: RunStatus, code: string, message: string)
    requires RowInv(e)
    requires status == FAILED || status == CANCELLED
    requires e.run.status == RUNNING || (e.run.status == PENDING && status == CANCELLED)
    requires status == FAILED ==> !e.run.cancelRequested
    ensures var e1 := Ended(e, status, code, message);
            e.run.cancelRequested || status == FAILED ==> Allowed(e, e1)
    ensures var asked := e.(run := e.run.(cancelRequested := true));
            status == CANCELLED ==> Allowed(e, Ended(asked, CANCELLED, code, message))
  {
    hide Sound, Fold, Append, Numbered, LastClaimant;
    FoldNonEmpty(e.log);
    AppendFacts(e.log, if status == CANCELLED then RunCancelled else RunFailed, None);
    FailureAppliedSound(e.run.output, code, message, true);
  }

  lemma FinalisedAllowed(e: Entry, now: int)
    requires RowInv(e) && Finalisable(e.run, now)
    ensures Allowed(e, Finalised(e))
  {
    hide Allowed, RowInv, Ended;
    RunningParts(e);
    if e.run.cancelRequested {
      EndedAllowed(e, CANCELLED, CANCEL_CODE, CANCEL_MESSAGE);
    } else {
      EndedAllowed(e, FAILED, EXHAUSTED_CODE, EXHAUSTED_MESSAGE);
    }
  }

  lemma RunningParts(e: Entry)
    requires RowInv(e)
    ensures LeaseAgrees(e.run)
  {
  }

  lemma SucceededAllowed(e: Entry, answer: Answer)
    requires RowInv(e) && e.run.status == RUNNING && !e.run.cancelRequested
    ensures Allowed(e, Succeeded(e, answer))
  {
    hide Sound, Fold, Append, Numbered, LastClaimant, Strip;
    FoldNonEmpty(e.log);
    AppendFacts(e.log, RunSucceeded, None);
    CompletedSound(e.run.output, answer);
  }

  lemma FinishedAllowed(e: Entry, answer: Answer)
    requires RowInv(e) && e.run.status == RUNNING
    ensures Allowed(e, Finished(e, answer))
  {
    hide Allowed, RowInv, Ended, Succeeded;
    if e.run.cancelRequested {
      EndedAllowed(e, CANCELLED, CANCEL_CODE, CANCEL_MESSAGE);
    } else {
      SucceededAllowed(e, answer);
    }
  }

  lemma RetryAllowed(e: Entry, code: string, message: string, retryAt: int)
    requires RowInv(e) && e.run.status == RUNNING && !e.run.cancelRequested
    requires e.run.attemptCount < e.run.maxAttempts
    ensures Allowed(e, RetryLater(e, code, message, retryAt))
  {
    hide Sound, Fold, Append, Numbered, LastClaimant;
    FoldNonEmpty(e.log);
    AppendFacts(e.log, RunRetryScheduled, None);
    FailureAppliedSound(e.run.output, code, message, false);
  }

  lemma FailedByAllowed(e: Entry, code: string, message: string, retryable: bool, retryAt: int)
    requires RowInv(e) && e.run.status == RUNNING
    ensures Allowed(e, FailedBy(e, code, message, retryable, retryAt))
  {
    hide Allowed, RowInv, Ended, RetryLater;
    if e.run.cancelRequested {
      EndedAllowed(e, CANCELLED, CANCEL_CODE, CANCEL_MESSAGE);
    } else if retryable && e.run.attemptCount < e.run.maxAttempts {
      RetryAllowed(e, code, message, retryAt);
    } else {
      EndedAllowed(e, FAILED, code, message);
    }
  }

  lemma CancelAllowed(e: Entry)
    requires RowInv(e)
    ensures Allowed(e, CancelAsked(e))
  {
    hide Sound, Fold, Append, Numbered, LastClaimant, Ended;
    if e.run.status == PENDING {
      EndedAllowed(e, CANCELLED, CANCEL_CODE, CANCEL_MESSAGE);
    } else if e.run.status == RUNNING {
      FoldNonEmpty(e.log);
      AppendFacts(e.log, CancellationRequested, None);
    }
  }
}
