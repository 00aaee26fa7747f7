/**
  The transactions of the store, on rows that are updated in place. Each method assigns the fields
  one by one, in the program's order, and is proved to move the store exactly as the protocol's step
  for it does.
 */
module RunStore {
  import opened Wrappers
  import opened RunModels
  import opened RunResults
  import opened ResultObjects
  import opened RunProtocol

  /** A row of `agent_runs`, with the rows of `run_events` that belong to it. */
  class AgentRun {
    const session: SessionId
    const createdAt: int
    const maxAttempts: nat
    var status: RunStatus
    var output: RunResult
    var assistantMessage: Option<string>
    var errorCode: Option<string>
    var errorMessage: Option<string>
    var cancelRequested: bool
    var workerId: Option<WorkerId>
    var leaseExpiresAt: Option<int>
    var attemptCount: nat
    var nextRetryAt: Option<int>
    var events: seq<Event>

    constructor (session: SessionId, createdAt: int, maxAttempts: nat, output: RunResult)
      ensures Row() == Entry(Run(session, createdAt, PENDING, output, None, None, None, false, None, None, 0,
                                 maxAttempts, None), [])
    {
      this.session, this.createdAt, this.maxAttempts, this.output := session, createdAt, maxAttempts, output;
      status, assistantMessage, errorCode, errorMessage := PENDING, None, None, None;
      cancelRequested, workerId, leaseExpiresAt, attemptCount, nextRetryAt, events := false, None, None, 0, None, [];
    }

    function Row(): Entry
      reads this
    {
      Entry(Run(session, createdAt, status, output, assistantMessage, errorCode, errorMessage, cancelRequested,
                workerId, leaseExpiresAt, attemptCount, maxAttempts, nextRetryAt), events)
    }

    /** `append_event_in_session`: the greatest sequence number so far, plus one. */
    method AppendEvent(kind: EventKind, worker: Option<WorkerId>)
      modifies this`events
      ensures events == Append(old(events), kind, worker)
    {
      var latest := 0;
      for n := 0 to |events|
        invariant events == old(events)
        invariant latest == MaxSequence(events[..n])
      {
        assert events[..n + 1][..n] == events[..n];
        if events[n].sequence > latest {
          latest := events[n].sequence;
        }
      }
      assert events[..|events|] == events;
      events := events + [Event(latest + 1, kind, worker)];
    }

    method Claim(worker: WorkerId, until: int)
      modifies this
      ensures Row() == Claimed(old(Row()), worker, until)
    {
      hide Append;
      var reclaimed := status == RUNNING;
      var retrying := attemptCount > 0 && !reclaimed;
      status := RUNNING;
      workerId := Some(worker);
      leaseExpiresAt := Some(until);
      nextRetryAt := None;
      attemptCount := attemptCount + 1;
      AppendEvent(if reclaimed then RunReclaimed else if retrying then RunRetryStarted else RunStarted, Some(worker));
    }

    method Renew(until: int)
      modifies this
      ensures Row() == Renewed(old(Row()), until)
    {
      leaseExpiresAt := Some(until);
    }

    method RecordContext(usage: Usage)
      modifies this
      ensures Row() == ContextRecorded(old(Row()), usage)
    {
      hide ContextApplied, Append;
      output := ApplyContextUsage(output, usage);
      AppendEvent(ContextPrepared, None);
    }

    method RecordTool(tool: string, snapshot: Option<Payload>, succeeded: bool)
      modifies this
      ensures Row() == ToolRecorded(old(Row()), tool, snapshot, succeeded)
    {
      hide ToolApplied, Append;
      output := ApplyToolResult(output, tool, snapshot, succeeded);
      AppendEvent(if succeeded then ToolSucceeded else ToolFailed, None);
    }

    /** Ends the Run without success. */
    method End(newStatus: RunStatus, code: string, message: string)
      modifies this
      ensures Row() == Ended(old(Row()), newStatus, code, message)
    {
      hide Append, FailureApplied;
      status := newStatus;
      errorCode := Some(code);
      errorMessage := Some(message);
      output := FailResult(output, code, message, true);
      workerId := None;
      leaseExpiresAt := None;
      AppendEvent(if newStatus == CANCELLED then RunCancelled else RunFailed, None);
    }

    method Finalise()
      modifies this
      ensures Row() == Finalised(old(Row()))
    {
      hide Ended;
      if cancelRequested {
        End(CANCELLED, CANCEL_CODE, CANCEL_MESSAGE);
      } else {
        End(FAILED, EXHAUSTED_CODE, EXHAUSTED_MESSAGE);
      }
    }

    method Finish(answer: Answer)
      modifies this
      ensures Row() == Finished(old(Row()), answer)
    {
      hide Append, Ended, Completed;
      if cancelRequested {
        End(CANCELLED, CANCEL_CODE, CANCEL_MESSAGE);
        return;
      }
      var finalOutput := CompleteResult(output, answer);
      assistantMessage := Some(finalOutput.assistantAnswer);
      output := finalOutput;
      status := SUCCEEDED;
      errorCode := None;
      errorMessage := None;
      workerId := None;
      leaseExpiresAt := None;
      AppendEvent(RunSucceeded, None);
    }

    method FailOrRetry(code: string, message: string, retryable: bool, retryAt: int)
      modifies this
      ensures Row() == FailedBy(old(Row()), code, message, retryable, retryAt)
    {
      hide Append, FailureApplied;
      var kind: EventKind;
      if cancelRequested {
        status := CANCELLED;
        errorCode := Some(CANCEL_CODE);
        errorMessage := Some(CANCEL_MESSAGE);
        kind := RunCancelled;
      } else if retryable && attemptCount < maxAttempts {
        status := PENDING;
        errorCode := Some(code);
        errorMessage := Some(message);
        nextRetryAt := Some(retryAt);
        kind := RunRetryScheduled;
      } else {
        status := FAILED;
        errorCode := Some(code);
        errorMessage := Some(message);
        kind := RunFailed;
      }
      Settle(errorCode.value, errorMessage.value, kind);
    }

    /** What every failure ends with: the result, the lease and the event. */
    method Settle(code: string, message: string, kind: EventKind)
      modifies this`output, this`workerId, this`leaseExpiresAt, this`events
      ensures output == FailureApplied(old(output), code, message, kind == RunFailed || kind == RunCancelled)
      ensures workerId == None && leaseExpiresAt == None && events == Append(old(events), kind, None)
    {
      hide Append, FailureApplied;
      output := FailResult(output, code, message, kind == RunFailed || kind == RunCancelled);
      workerId := None;
      leaseExpiresAt := None;
      AppendEvent(kind, None);
    }

    method AskCancellation()
      modifies this
      ensures Row() == CancelAsked(old(Row()))
    {
      hide Append, FailureApplied;
      if Terminal(status) {
        return;
      }
      cancelRequested := true;
      if status == PENDING {
        End(CANCELLED, CANCEL_CODE, CANCEL_MESSAGE);
      } else {
        AppendEvent(CancellationRequested, None);
      }
    }
  }

  /** What a transaction reports: done, no such row, or `WorkerLeaseLost`. */
  datatype Outcome = Done | NotFound | LeaseLost

  class Database {
    var sessions: map<SessionId, UserId>
    var runs: map<RunId, AgentRun>

    /** Different identifiers, different rows. */
    ghost predicate Valid()
      reads this`runs
    {
      forall a, b | a in runs && b in runs && a != b :: runs[a] != runs[b]
    }

    function Rows(): map<RunId, Entry>
      reads this`runs, runs.Values
    {
      map id | id in runs :: runs[id].Row()
    }

    /** The store as the protocol sees it when the clock shows `clock`. */
    function State(clock: int): Store
      reads this, runs.Values
    {
      Store(clock, sessions, Rows())
    }

    constructor ()
      ensures Valid() && State(0) == EMPTY_STORE
    {
      sessions, runs := map[], map[];
    }

    /** Only the row of `id` was written. */
    twostate lemma OneRowWritten(id: RunId, new row: Entry)
      requires old(Valid()) && runs == old(runs) && id in runs
      requires runs[id].Row() == row
      requires forall run | run in runs.Values && run != runs[id] :: run.Row() == old(run.Row())
      ensures Rows() == old(Rows())[id := row]
    {
      forall k | k in runs && k != id ensures runs[k].Row() == old(runs[k].Row()) {
        assert runs[k] in runs.Values;
      }
    }

    /** A write by a worker that holds the row. */
    lemma HolderWrites(s: Store, a: Action)
      requires IsWrite(a) && a.runId in s.entries && Holds(s.entries[a.runId].run, a.worker, ReadAt(a))
      ensures Step(s, a) == Store(a.now, s.sessions, s.entries[a.runId := Written(a, s.entries[a.runId])])
    {
    }

    /** A write by anybody else. */
    lemma OthersAreRefused(s: Store, a: Action)
      requires IsWrite(a) && !(a.runId in s.entries && Holds(s.entries[a.runId].run, a.worker, ReadAt(a)))
      ensures Step(s, a) == s.(clock := a.now)
    {
    }

    method CompleteRun(runId: RunId, worker: WorkerId, answer: Answer, now: int, ghost clock: int) returns (r: Outcome)
      requires Valid() && clock <= now
      modifies runs.Values
      ensures Valid() && State(now) == Step(old(State(clock)), RunProtocol.Complete(runId, worker, answer, now))
      ensures r == Done <==> runId in old(runs) && Holds(old(Rows())[runId].run, worker, now)
    {
      hide Step, Finished;
      ghost var a := RunProtocol.Complete(runId, worker, answer, now);
      if runId !in runs {
        OthersAreRefused(old(State(clock)), a);
        return NotFound;
      }
      var run := runs[runId];
      if !Holds(run.Row().run, worker, now) {
        OthersAreRefused(old(State(clock)), a);
        return LeaseLost;
      }
      run.Finish(answer);
      OneRowWritten(runId, run.Row());
      HolderWrites(old(State(clock)), a);
      return Done;
    }

    method FailRun(runId: RunId, worker: WorkerId, code: string, message: string, retryable: bool, retryDelay: int,
                   now: int, ghost clock: int)
      returns (r: Outcome)
      requires Valid() && clock <= now
      modifies runs.Values
      ensures Valid()
      ensures State(now) == Step(old(State(clock)), Fail(runId, worker, code, message, retryable, retryDelay, now))
      ensures r == Done <==> runId in old(runs) && Holds(old(Rows())[runId].run, worker, now)
    {
      hide Step, FailedBy;
      ghost var a := Fail(runId, worker, code, message, retryable, retryDelay, now);
      if runId !in runs {
        OthersAreRefused(old(State(clock)), a);
        return NotFound;
      }
      var run := runs[runId];
      if !Holds(run.Row().run, worker, now) {
        OthersAreRefused(old(State(clock)), a);
        return LeaseLost;
      }
      run.FailOrRetry(code, message, retryable, now + retryDelay);
      OneRowWritten(runId, run.Row());
      HolderWrites(old(State(clock)), a);
      return Done;
    }

    method RecordContextSnapshot(runId: RunId, worker: WorkerId, usage: Usage, now: int, ghost clock: int)
      returns (r: Outcome)
      requires Valid() && clock <= now
      modifies runs.Values
      ensures Valid() && State(now) == Step(old(State(clock)), RecordContext(runId, worker, usage, now))
      ensures r == Done <==> runId in old(runs) && Holds(old(Rows())[runId].run, worker, now)
    {
      hide Step, ContextRecorded;
      ghost var a := Action.RecordContext(runId, worker, usage, now);
      if runId !in runs {
        OthersAreRefused(old(State(clock)), a);
        return NotFound;
      }
      var run := runs[runId];
      if !Holds(run.Row().run, worker, now) {
        OthersAreRefused(old(State(clock)), a);
        return LeaseLost;
      }
      run.RecordContext(usage);
      OneRowWritten(runId, run.Row());
      HolderWrites(old(State(clock)), a);
      return Done;
    }

    method RecordToolSnapshot(runId: RunId, worker: WorkerId, tool: string, snapshot: Option<Payload>,
                              succeeded: bool, now: int, ghost clock: int)
      returns (r: Outcome)
      requires Valid() && clock <= now
      modifies runs.Values
      ensures Valid()
      ensures State(now) == Step(old(State(clock)), RecordTool(runId, worker, tool, snapshot, succeeded, now))
      ensures r == Done <==> runId in old(runs) && Holds(old(Rows())[runId].run, worker, now)
    {
      hide Step, ToolRecorded;
      ghost var a := Action.RecordTool(runId, worker, tool, snapshot, succeeded, now);
      if runId !in runs {
        OthersAreRefused(old(State(clock)), a);
        return NotFound;
      }
      var run := runs[runId];
      if !Holds(run.Row().run, worker, now) {
        OthersAreRefused(old(State(clock)), a);
        return LeaseLost;
      }
      run.RecordTool(tool, snapshot, succeeded);
      OneRowWritten(runId, run.Row());
      HolderWrites(old(State(clock)), a);
      return Done;
    }

    /** `append_event` with an expected worker. */
    method AppendProgress(runId: RunId, worker: WorkerId, name: string, now: int, ghost clock: int) returns (r: Outcome)
      requires Valid() && clock <= now
      modifies runs.Values
      ensures Valid() && State(now) == Step(old(State(clock)), RecordProgress(runId, worker, name, now))
      ensures r == Done <==> runId in old(runs) && Holds(old(Rows())[runId].run, worker, now)
    {
      hide Step, Append;
      ghost var a := RecordProgress(runId, worker, name, now);
      if runId !in runs {
        OthersAreRefused(old(State(clock)), a);
        return NotFound;
      }
      var run := runs[runId];
      if !Holds(run.Row().run, worker, now) {
        OthersAreRefused(old(State(clock)), a);
        return LeaseLost;
      }
      run.AppendEvent(Progress(name), None);
      OneRowWritten(runId, run.Row());
      HolderWrites(old(State(clock)), a);
      return Done;
    }

    /** The clock is read before the row is reached, so the reading may be older than the write. */
    method RenewLease(runId: RunId, worker: WorkerId, leaseSeconds: int, readAt: int, now: int, ghost clock: int)
      returns (renewed: bool)
      requires Valid() && clock <= now && readAt <= now
      modifies runs.Values
      ensures Valid() && State(now) == Step(old(State(clock)), Renew(runId, worker, leaseSeconds, readAt, now))
      ensures renewed <==> runId in old(runs) && Holds(old(Rows())[runId].run, worker, readAt)
    {
      hide Step, Renewed;
      ghost var a := Action.Renew(runId, worker, leaseSeconds, readAt, now);
      if runId !in runs {
        OthersAreRefused(old(State(clock)), a);
        return false;
      }
      var run := runs[runId];
      if !Holds(run.Row().run, worker, readAt) {
        OthersAreRefused(old(State(clock)), a);
        return false;
      }
      run.Renew(readAt + leaseSeconds);
      OneRowWritten(runId, run.Row());
      HolderWrites(old(State(clock)), a);
      return true;
    }

    method RequestCancellation(runId: RunId, user: UserId, now: int, ghost clock: int) returns (found: bool)
      requires Valid() && clock <= now
      modifies runs.Values
      ensures Valid() && State(now) == Step(old(State(clock)), Cancel(runId, user, now))
      ensures found <==>
              && runId in old(runs) && old(runs)[runId].session in sessions
              && sessions[old(runs)[runId].session] == user
    {
      hide Queued, FinaliseAll, Claimed, CancelAsked, ContextRecorded, ToolRecorded, Progressed, Finished, FailedBy,
          Renewed, Initialised;
      if runId !in runs {
        return false;
      }
      var run := runs[runId];
      if run.session !in sessions || sessions[run.session] != user {
        return false;
      }
      run.AskCancellation();
      OneRowWritten(runId, run.Row());
      return true;
    }

    method OpenSession(session: SessionId, user: UserId, now: int, ghost clock: int)
      requires Valid() && clock <= now && session !in sessions
      modifies this`sessions
      ensures Valid() && State(now) == Step(old(State(clock)), RunProtocol.OpenSession(session, user, now))
    {
      sessions := sessions[session := user];
    }

    predicate OlderRow(a: RunId, b: RunId)
      requires a in runs && b in runs
      reads this, runs.Values
    {
      runs[a].createdAt < runs[b].createdAt || (runs[a].createdAt == runs[b].createdAt && a < b)
    }

    /** The newest successful Run of a session, without those that succeeded too late for the query. */
    method NewestSuccess(session: SessionId, late: set<RunId>, ghost clock: int) returns (previous: Option<RunId>)
      ensures LatestSuccess(State(clock), session, late, previous)
    {
      previous := None;
      var rest := runs.Keys;
      while rest != {}
        invariant rest <= runs.Keys
        invariant previous.Some? ==>
                    && previous.value in runs && previous.value !in late
                    && runs[previous.value].session == session && runs[previous.value].status == SUCCEEDED
        invariant forall id | id in runs.Keys - rest - late && runs[id].session == session
            && runs[id].status == SUCCEEDED ::
                    previous.Some? && !OlderRow(previous.value, id)
        decreases rest
      {
        var id :| id in rest;
        rest := rest - {id};
        if id !in late && runs[id].session == session && runs[id].status == SUCCEEDED
           && (previous.None? || OlderRow(previous.value, id)) {
          previous := Some(id);
        }
      }
    }

    method CountRuns(session: SessionId, ghost clock: int) returns (count: nat)
      ensures count == |SessionRuns(State(clock), session)|
    {
      count := 0;
      var rest := runs.Keys;
      ghost var seen: set<RunId> := {};
      while rest != {}
        invariant rest <= runs.Keys
        invariant seen == set id | id in runs.Keys - rest && runs[id].session == session
        invariant count == |seen|
        decreases rest
      {
        var id :| id in rest;
        rest := rest - {id};
        if runs[id].session == session {
          count := count + 1;
          seen := seen + {id};
        }
      }
      assert seen == SessionRuns(State(clock), session);
    }

    /** The snapshot a new Run of the session starts from. */
    method NextResult(session: SessionId, late: set<RunId>, ghost clock: int)
      returns (output: RunResult, previous: Option<RunId>)
      ensures LatestSuccess(State(clock), session, late, previous)
      ensures output == Initialised(State(clock), session, previous)
    {
      hide Initial, LatestSuccess;
      previous := NewestSuccess(session, late, clock);
      PreviousIsStored(session, late, previous, clock);
      var count := CountRuns(session, clock);
      output := BuildInitialResult(count + 1, previous,
                                   if previous.Some? then Some(runs[previous.value].output) else None);
    }

    lemma PreviousIsStored(session: SessionId, late: set<RunId>, previous: Option<RunId>, clock: int)
      requires LatestSuccess(State(clock), session, late, previous)
      ensures previous.Some? ==> previous.value in runs
    {
    }

    method InsertRow(session: SessionId, runId: RunId, maxAttempts: nat, output: RunResult, now: int)
      requires Valid() && runId !in runs
      modifies this`runs
      ensures Valid() && Rows() == old(Rows())[runId := Queued(session, now, maxAttempts, output)]
    {
      hide Append;
      var run := new AgentRun(session, now, maxAttempts, output);
      run.AppendEvent(RunQueued, None);
      assert run !in runs.Values;
      ghost var before := runs;
      runs := runs[runId := run];
      forall k | k in before ensures runs[k] == before[k] && runs[k].Row() == old(runs[k].Row()) {
        assert runs[k] in before.Values;
      }
    }

    lemma NewRowStep(s: Store, a: Action)
      requires a.Enqueue? && s.clock <= a.now && a.runId !in s.entries && a.maxAttempts >= 1
      requires LatestSuccess(s, a.session, a.late, a.previous)
      ensures Enabled(s, a)
      ensures Step(s, a) ==
              if a.session in s.sessions && s.sessions[a.session] == a.user
              then Store(a.now, s.sessions,
                         s.entries[a.runId :=
                                   Queued(a.session, a.now, a.maxAttempts, Initialised(s, a.session, a.previous))])
              else s.(clock := a.now)
    {
    }

    /** A new message: one new row, built on the newest successful Run of the session. The session is locked,
        but its Runs are not: those in `late` succeed after they were queried and before the row is there. */
    method EnqueueMessage(session: SessionId, user: UserId, runId: RunId, maxAttempts: nat, late: set<RunId>,
                          now: int, ghost clock: int)
      returns (created: bool, ghost previous: Option<RunId>)
      requires Valid() && clock <= now && runId !in runs && maxAttempts >= 1
      modifies this`runs
      ensures Valid()
      ensures Enabled(old(State(clock)), Enqueue(session, user, runId, maxAttempts, late, previous, now))
      ensures State(now) == Step(old(State(clock)), Enqueue(session, user, runId, maxAttempts, late, previous, now))
      ensures created <==> session in old(sessions) && old(sessions)[session] == user
    {
      hide LatestSuccess, Initialised, Queued, Step, Enabled;
      var output, found := NextResult(session, late, clock);
      previous := found;
      NewRowStep(State(clock), Enqueue(session, user, runId, maxAttempts, late, previous, now));
      if session !in sessions || sessions[session] != user {
        return false, found;
      }
      InsertRow(session, runId, maxAttempts, output, now);
      return true, found;
    }

    /** Up to twenty expired Runs that must end and that nobody else has locked. */
    method SelectExpired(locked: set<RunId>, now: int, ghost clock: int) returns (finalised: set<RunId>)
      ensures FinalisedSelection(State(clock), locked, finalised, now)
    {
      finalised := {};
      var rest := runs.Keys;
      while rest != {} && |finalised| < FINALISE_LIMIT
        invariant rest <= runs.Keys
        invariant |finalised| <= FINALISE_LIMIT
        invariant forall id | id in finalised ::
            id in runs && id !in locked && id !in rest && Finalisable(runs[id].Row().run, now)
        invariant forall id | id in runs.Keys - rest && id !in locked && Finalisable(runs[id].Row().run, now) ::
            id in finalised
        decreases rest
      {
        var id :| id in rest;
        rest := rest - {id};
        if id !in locked && Finalisable(runs[id].Row().run, now) {
          finalised := finalised + {id};
        }
      }
    }

    /** The oldest claimable Run that is not locked. */
    method OldestClaimableRow(locked: set<RunId>, now: int, ghost clock: int) returns (chosen: Option<RunId>)
      ensures OldestClaimable(State(clock), locked, chosen, now)
    {
      chosen := None;
      var rest := runs.Keys;
      while rest != {}
        invariant rest <= runs.Keys
        invariant chosen.Some?
            ==> chosen.value in runs && chosen.value !in locked && Claimable(runs[chosen.value].Row().run, now)
        invariant forall id | id in runs.Keys - rest && id !in locked && Claimable(runs[id].Row().run, now) ::
                    chosen.Some? && !OlderRow(id, chosen.value)
        decreases rest
      {
        var id :| id in rest;
        rest := rest - {id};
        if id !in locked && Claimable(runs[id].Row().run, now) && (chosen.None? || OlderRow(id, chosen.value)) {
          chosen := Some(id);
        }
      }
    }

    method FinaliseRow(id: RunId)
      requires Valid() && id in runs
      modifies runs.Values
      ensures Valid() && Rows() == old(Rows())[id := Finalised(old(Rows())[id])]
    {
      hide Finalised;
      runs[id].Finalise();
      OneRowWritten(id, runs[id].Row());
    }

    lemma FinaliseOneMore(s: Store, done: set<RunId>, id: RunId)
      requires id in s.entries && id !in done
      ensures var f := FinaliseAll(s, done).entries;
              id in f && FinaliseAll(s, done + {id}).entries == f[id := Finalised(f[id])]
    {
      hide Finalised;
    }

    lemma FinaliseNone(s: Store)
      ensures FinaliseAll(s, {}).entries == s.entries
    {
      hide Finalised;
    }

    /** `_mark_terminal_expired_runs`: ends the selected rows one after the other. */
    method FinaliseRows(finalised: set<RunId>, ghost clock: int)
      requires Valid() && finalised <= runs.Keys
      modifies runs.Values
      ensures Valid() && Rows() == FinaliseAll(old(State(clock)), finalised).entries
    {
      hide Finalised, FinaliseAll;
      ghost var s := State(clock);
      var rest := finalised;
      FinaliseNone(s);
      assert finalised - rest == {};
      while rest != {}
        invariant rest <= finalised && runs == old(runs)
        invariant Rows() == FinaliseAll(s, finalised - rest).entries
        decreases rest
      {
        var id :| id in rest;
        FinaliseOneMore(s, finalised - rest, id);
        assert finalised - (rest - {id}) == (finalised - rest) + {id};
        rest := rest - {id};
        FinaliseRow(id);
      }
      assert finalised - rest == finalised;
    }

    method ClaimRow(id: RunId, worker: WorkerId, until: int)
      requires Valid() && id in runs
      modifies runs.Values
      ensures Valid() && Rows() == old(Rows())[id := Claimed(old(Rows())[id], worker, until)]
    {
      hide Claimed;
      runs[id].Claim(worker, until);
      OneRowWritten(id, runs[id].Row());
    }

    /** Ends the selected rows and claims the chosen one. */
    method CommitClaim(finalised: set<RunId>, chosen: Option<RunId>, worker: WorkerId, until: int, ghost clock: int)
      requires Valid() && finalised <= runs.Keys && (chosen.Some? ==> chosen.value in runs)
      modifies runs.Values
      ensures Valid()
      ensures var f := FinaliseAll(old(State(clock)), finalised).entries;
              Rows() == if chosen.None? then f else f[chosen.value := Claimed(f[chosen.value], worker, until)]
    {
      hide Claimed, Finalised;
      FinaliseRows(finalised, clock);
      if chosen.Some? {
        ClaimRow(chosen.value, worker, until);
      }
    }

    lemma FinalisedAreTaken(s: Store, finalised: set<RunId>, locked: set<RunId>, chosen: Option<RunId>, now: int)
      requires OldestClaimable(s, locked + finalised, chosen, now)
      ensures OldestClaimable(FinaliseAll(s, finalised), locked, chosen, now)
    {
      hide Append, FailureApplied;
      var f := FinaliseAll(s, finalised);
      forall id | id in f.entries && id !in locked && Claimable(f.entries[id].run, now)
        ensures id !in finalised && f.entries[id] == s.entries[id]
      {
      }
    }

    lemma ClaimStep(s: Store, a: Action)
      requires a.ClaimNext? && s.clock <= a.expireAt <= a.claimAt <= a.now
      requires FinalisedSelection(s, a.lockedThen, a.finalised, a.expireAt)
      requires OldestClaimable(s, a.lockedNow + a.finalised, a.chosen, a.claimAt)
      ensures Enabled(s, a)
      ensures a.chosen.Some? ==> a.chosen.value in s.entries && a.chosen.value !in a.finalised
      ensures var f := FinaliseAll(s, a.finalised).entries;
              Step(s, a) ==
              if a.chosen.None? then Store(a.now, s.sessions, f)
              else if a.claimAt + a.leaseSeconds > a.now
              then Store(a.now, s.sessions,
                         f[a.chosen.value := Claimed(f[a.chosen.value], a.worker, a.claimAt + a.leaseSeconds)])
              else s.(clock := a.now)
    {
      hide Claimed, Finalised, FinalisedSelection, Claimable;
      FinalisedAreTaken(s, a.finalised, a.lockedNow, a.chosen, a.claimAt);
    }

    /** What the claim transaction is going to do, decided by its two queries. */
    method PlanClaim(worker: WorkerId, leaseSeconds: int, lockedThen: set<RunId>, lockedNow: set<RunId>,
                     expireAt: int, claimAt: int, now: int, ghost clock: int)
      returns (finalised: set<RunId>, chosen: Option<RunId>, ghost a: Action)
      requires clock <= expireAt <= claimAt <= now
      ensures a == ClaimNext(worker, leaseSeconds, lockedThen, finalised, lockedNow, chosen, expireAt, claimAt, now)
      ensures Enabled(State(clock), a)
      ensures finalised <= runs.Keys && (chosen.Some? ==> chosen.value in runs)
      ensures var f := FinaliseAll(State(clock), finalised).entries;
              Step(State(clock), a) ==
              if chosen.None? then Store(now, sessions, f)
              else if claimAt + leaseSeconds > now
              then Store(now, sessions, f[chosen.value := Claimed(f[chosen.value], worker, claimAt + leaseSeconds)])
              else State(clock).(clock := now)
    {
      hide Step, Enabled, FinalisedSelection, OldestClaimable, FinaliseAll, Claimed;
      finalised := SelectExpired(lockedThen, expireAt, clock);
      chosen := OldestClaimableRow(lockedNow + finalised, claimAt, clock);
      a := ClaimNext(worker, leaseSeconds, lockedThen, finalised, lockedNow, chosen, expireAt, claimAt, now);
      ClaimStep(State(clock), a);
      SelectionExists(State(clock), lockedThen, finalised, expireAt);
    }

    /** One transaction: ends expired Runs, then claims the oldest Run that is ready. If the new lease has
        run out before it is checked, the program raises and the transaction leaves nothing behind. */
    method ClaimNextRun(worker: WorkerId, leaseSeconds: int, lockedThen: set<RunId>, lockedNow: set<RunId>,
                        expireAt: int, claimAt: int, now: int, ghost clock: int)
      returns (claimed: Option<RunId>, ghost a: Action)
      requires Valid() && clock <= expireAt <= claimAt <= now
      modifies runs.Values
      ensures Valid() && Enabled(old(State(clock)), a) && State(now) == Step(old(State(clock)), a)
      ensures a.ClaimNext? && a.worker == worker && a.leaseSeconds == leaseSeconds && a.now == now
          && a.claimAt == claimAt
      ensures claimed == if claimAt + leaseSeconds > now then a.chosen else None
    {
      hide Step, Enabled, FinaliseAll, Claimed;
      var finalised, chosen;
      finalised, chosen, a := PlanClaim(worker, leaseSeconds, lockedThen, lockedNow, expireAt, claimAt, now, clock);
      if chosen.Some? && claimAt + leaseSeconds <= now {
          return None, a;
      }
      CommitClaim(finalised, chosen, worker, claimAt + leaseSeconds, clock);
      return chosen, a;
    }

    lemma SelectionExists(s: Store, locked: set<RunId>, finalised: set<RunId>, now: int)
      requires FinalisedSelection(s, locked, finalised, now)
      ensures finalised <= s.entries.Keys
    {
    }
  }
}
