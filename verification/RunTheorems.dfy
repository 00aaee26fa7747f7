/** The protocol's promises, stated for every reachable state and every interleaving. */
module RunTheorems {
  import opened Wrappers
  import opened RunModels
  import opened Texts
  import opened RunResults
  import opened RunProtocol
  import opened RunSafety
  import opened RunHistory

  /** The store after a run of the system. */
  ghost predicate Reached(trace: seq<Action>, s: Store) {
    Replay(trace) == Some(s)
  }

  // ---------------------------------------------------------------- fencing

  /** Judged by the event log: the worker made the latest claim, the Run is still running, and its
      lease has not expired. */
  ghost predicate OwnsLatestClaim(s: Store, a: Action)
    requires IsWrite(a)
  {
    && a.runId in s.entries
    && var e := s.entries[a.runId];
       && LastClaimant(e.log) == Some(a.worker)
       && Fold(e.log).Some? && Fold(e.log).value.status == RUNNING
       && LeaseActive(e.run.leaseExpiresAt, ReadAt(a))
  }

  lemma RowFacts(trace: seq<Action>, s: Store, id: RunId)
    requires Reached(trace, s) && id in s.entries
    ensures RowInv(s.entries[id])
  {
    hide RowInv, Versioned, Superseding;
    ReachableInv(trace);
  }

  /** A context, tool, progress, completion, failure or renewal write does what it says to its row if its
      worker made the latest claim and the lease was live at the clock reading the write is judged by;
      otherwise it changes nothing. All but renewals then change the row. */
  lemma WritesAreFenced(trace: seq<Action>, s: Store, a: Action)
    requires Reached(trace, s) && IsWrite(a)
    ensures Effect(s, a) == if OwnsLatestClaim(s, a)
                            then s.(entries := s.entries[a.runId := Written(a, s.entries[a.runId])]) else s
    ensures OwnsLatestClaim(s, a) && !a.Renew? ==> Effect(s, a) != s
  {
    hide Sound, Append, Written;
    if a.runId in s.entries {
      RowFacts(trace, s, a.runId);
      var e := s.entries[a.runId];
      assert LastClaimant(e.log) == Some(a.worker) && e.run.status == RUNNING ==> e.run.workerId == Some(a.worker);
      if OwnsLatestClaim(s, a) && !a.Renew? {
        WriteAppends(s, a);
      }
    }
  }

  /** The step makes an expired lease live again. */
  predicate Revives(s: Store, a: Action, id: RunId) {
    && id in s.entries && id in Effect(s, a).entries
    && Expired(s.entries[id].run, a.now)
    && LeaseActive(Effect(s, a).entries[id].run.leaseExpiresAt, a.now)
  }

  /** Only a renewal reads the clock before it reaches the row, so only a renewal can find the lease live
      when it no longer is. It revives the lease exactly when the latest claimant read the clock before the
      expiry, the expiry has passed since, and the new expiry has not. */
  lemma RenewalRevives(trace: seq<Action>, s: Store, a: Action)
    requires Reached(trace, s) && IsWrite(a)
    ensures Revives(s, a, a.runId) <==>
              && a.Renew? && a.runId in s.entries
              && var run := s.entries[a.runId].run;
                 && LastClaimant(s.entries[a.runId].log) == Some(a.worker) && run.status == RUNNING
                 && run.leaseExpiresAt.Some?
                 && a.readAt < run.leaseExpiresAt.value <= a.now < a.readAt + a.leaseSeconds
  {
    hide Finished, FailedBy, ContextRecorded, ToolRecorded, Progressed;
    WritesAreFenced(trace, s, a);
    if a.runId in s.entries {
      RowFacts(trace, s, a.runId);
    }
  }

  /** Such a renewal: the lease of a claim at 0 ran until 10; a renewal that read the clock at 5 reaches the
      row at 12 and extends the lease to 15. */
  lemma LateRenewalRevives() returns (trace: seq<Action>, s: Store, a: Action)
    ensures Reached(trace, s) && Enabled(s, a) && a == Renew(3, "w", 10, 5, 12)
    ensures Revives(s, a, 3) && s.entries[3].run.leaseExpiresAt == Some(10)
    ensures Step(s, a).entries[3].run.leaseExpiresAt == Some(15)
  {
    var open := OpenSession(1, 7, 0);
    var enqueue := Enqueue(1, 7, 3, 1, {}, None, 0);
    var claim := ClaimNext("w", 10, {}, {}, {}, Some(3), 0, 0, 0);
    a := Renew(3, "w", 10, 5, 12);
    trace := [open, enqueue, claim];
    var started := Store(0, map[1 := 7], map[]);
    ReplayExtends([], EMPTY_STORE, open);
    assert [] + [open] == [open] && Step(EMPTY_STORE, open) == started;
    var queued := Step(started, enqueue);
    assert Enabled(started, enqueue);
    ReplayExtends([open], started, enqueue);
    assert [open] + [enqueue] == [open, enqueue];
    FirstClaim(started, queued, claim);
    ReplayExtends([open, enqueue], queued, claim);
    assert [open, enqueue] + [claim] == trace;
    s := Step(queued, claim);
  }

  lemma ReplayExtends(trace: seq<Action>, s: Store, a: Action)
    requires Reached(trace, s) && Enabled(s, a)
    ensures Reached(trace + [a], Step(s, a))
  {
    hide Enabled, Step;
    assert (trace + [a])[..|trace|] == trace;
  }

  lemma FirstClaim(started: Store, queued: Store, claim: Action)
    requires started == Store(0, map[1 := 7], map[])
    requires queued == Step(started, Enqueue(1, 7, 3, 1, {}, None, 0))
    requires claim == ClaimNext("w", 10, {}, {}, {}, Some(3), 0, 0, 0)
    ensures Enabled(queued, claim)
    ensures var s := Step(queued, claim);
            && 3 in s.entries && s.entries[3].run.leaseExpiresAt == Some(10)
            && s.entries[3].run.workerId == Some("w") && s.entries[3].run.status == RUNNING && s.clock == 0
  {
    hide Append, Initial;
    var f := FinaliseAll(queued, {});
    assert queued.entries.Keys == {3} && f.entries == queued.entries;
    assert PendingReady(queued.entries[3].run, 0);
  }

  lemma WriteAppends(s: Store, a: Action)
    requires IsWrite(a) && !a.Renew? && a.runId in s.entries && Holds(s.entries[a.runId].run, a.worker, a.now)
    ensures a.runId in Effect(s, a).entries
    ensures |Effect(s, a).entries[a.runId].log| == |s.entries[a.runId].log| + 1
  {
    hide MaxSequence, ContextApplied, ToolApplied, Completed, FailureApplied;
  }

  /** At position `i` of the run of the system, a claim added this event to the Run's log, behind `k` others:
      the Run was waiting, or its previous lease had expired, and nobody had asked to cancel it. */
  ghost predicate ClaimedAt(trace: seq<Action>, i: nat, id: RunId, event: Event, k: nat) {
    && i < |trace|
    && trace[i].ClaimNext? && trace[i].chosen == Some(id) && event.worker == Some(trace[i].worker)
    && match Replay(trace[..i])
       case None => false
       case Some(s) =>
         && id in s.entries && |s.entries[id].log| == k
         && !s.entries[id].run.cancelRequested
         && (s.entries[id].run.status == PENDING || Expired(s.entries[id].run, trace[i].claimAt))
  }

  lemma ClaimedAtStays(trace: seq<Action>, a: Action, i: nat, id: RunId, event: Event, k: nat)
    requires ClaimedAt(trace, i, id, event, k)
    ensures ClaimedAt(trace + [a], i, id, event, k)
  {
    hide Replay;
    assert (trace + [a])[..i] == trace[..i] && (trace + [a])[i] == trace[i];
  }

  /** Whatever a write appends is not a claim. */
  lemma WriteAddsNoClaim(a: Action, e: Entry)
    requires IsWrite(a)
    ensures var log := Written(a, e).log;
            log == e.log || (|log| == |e.log| + 1 && log[..|e.log|] == e.log && !IsClaim(log[|e.log|].kind))
  {
    hide MaxSequence, ContextApplied, ToolApplied, Completed, FailureApplied;
  }

  lemma CancelAddsNoClaim(e: Entry)
    ensures var log := CancelAsked(e).log;
            log == e.log || (|log| == |e.log| + 1 && log[..|e.log|] == e.log && !IsClaim(log[|e.log|].kind))
  {
    hide MaxSequence, FailureApplied;
  }

  lemma FinaliseAddsNoClaim(e: Entry)
    ensures var log := Finalised(e).log;
            |log| == |e.log| + 1 && log[..|e.log|] == e.log && !IsClaim(log[|e.log|].kind)
    ensures Terminal(Finalised(e).run.status)
  {
    hide MaxSequence, FailureApplied;
  }

  lemma ClaimAddsOne(e: Entry, worker: WorkerId, until: int)
    ensures var log := Claimed(e, worker, until).log;
            |log| == |e.log| + 1 && log[..|e.log|] == e.log && log[|e.log|].worker == Some(worker)
  {
    hide MaxSequence;
  }

  /** A claim event is added by a claim that chose the Run, and only when it was free. */
  lemma ClaimAdded(s: Store, a: Action, id: RunId, k: nat)
    requires Enabled(s, a) && id in s.entries && id in Step(s, a).entries
    requires |s.entries[id].log| <= k < |Step(s, a).entries[id].log| && IsClaim(Step(s, a).entries[id].log[k].kind)
    ensures a.ClaimNext? && a.chosen == Some(id) && Step(s, a).entries[id].log[k].worker == Some(a.worker)
    ensures k == |s.entries[id].log| && !s.entries[id].run.cancelRequested
    ensures s.entries[id].run.status == PENDING || Expired(s.entries[id].run, a.claimAt)
  {
    hide Written, CancelAsked, Finalised, Claimed, Queued, Initialised, IsClaim, FinalisedSelection;
    var e := s.entries[id];
    FinaliseAddsNoClaim(e);
    if IsWrite(a) {
      WriteAddsNoClaim(a, e);
    } else if a.Cancel? {
      CancelAddsNoClaim(e);
    } else if a.ClaimNext? {
      ClaimAddsOne(e, a.worker, a.claimAt + a.leaseSeconds);
    }
  }

  /** Every claim event in a log was added by a claim of that worker, while the Run was waiting or after its
      previous lease had expired: no Run is claimed while a lease is live. */
  lemma {:induction false} EveryClaimFoundTheRunFree(trace: seq<Action>, s: Store, id: RunId, k: nat)
    returns (i: nat)
    requires Reached(trace, s) && id in s.entries
    requires k < |s.entries[id].log| && IsClaim(s.entries[id].log[k].kind)
    ensures ClaimedAt(trace, i, id, s.entries[id].log[k], k)
  {
    hide Enabled, Step, ClaimedAt, RowInv, IsClaim;
    var init, a := trace[..|trace| - 1], trace[|trace| - 1];
    var s0 := Replay(init).value;
    assert init + [a] == trace;
    if id in s0.entries {
      Later(trace, s, |init|, s0);
      assert RowStep(s0.entries[id], s.entries[id]);
      var log0, log := s0.entries[id].log, s.entries[id].log;
      if k < |log0| {
        assert log[k] == log0[k];
        i := EveryClaimFoundTheRunFree(init, s0, id, k);
        ClaimedAtStays(init, a, i, id, log[k], k);
      } else {
        i := |init|;
        ClaimAdded(s0, a, id, k);
        ClaimHappened(trace, s0, id, log[k], k);
      }
    } else {
      OnlyEnqueueAdds(s0, a, id);
      QueuedLog(s0, a, id, k);
    }
  }

  lemma ClaimHappened(trace: seq<Action>, s: Store, id: RunId, event: Event, k: nat)
    requires trace != [] && Reached(trace[..|trace| - 1], s)
    requires var a := trace[|trace| - 1];
             && a.ClaimNext? && a.chosen == Some(id) && event.worker == Some(a.worker)
             && id in s.entries && |s.entries[id].log| == k && !s.entries[id].run.cancelRequested
             && (s.entries[id].run.status == PENDING || Expired(s.entries[id].run, a.claimAt))
    ensures ClaimedAt(trace, |trace| - 1, id, event, k)
  {
    hide Replay;
  }

  lemma QueuedLog(s: Store, a: Action, id: RunId, k: nat)
    requires a.Enqueue? && a.runId == id && id !in s.entries && id in Step(s, a).entries
    ensures k < |Step(s, a).entries[id].log| ==> !IsClaim(Step(s, a).entries[id].log[k].kind)
  {
    hide Initialised, MaxSequence;
  }

  // ---------------------------------------------------------------- the log

  /** The events alone tell a Run's status and number of attempts; they are numbered 1 to n, and an
      ending event stands last, exactly once, if and only if the Run has ended. */
  lemma LogRefinesRow(trace: seq<Action>, s: Store, id: RunId)
    requires Reached(trace, s) && id in s.entries
    ensures var e := s.entries[id];
            && Fold(e.log) == Some(Phase(e.run.status, e.run.attemptCount))
            && ClaimCount(e.log) == e.run.attemptCount
            && (forall i | 0 <= i < |e.log| :: e.log[i].sequence == i + 1)
            && e.log != []
            && (forall i | 0 <= i < |e.log| - 1 :: !IsEnding(e.log[i].kind))
            && (IsEnding(e.log[|e.log| - 1].kind) <==> Terminal(e.run.status))
  {
    hide ResultAgrees, Fold, ClaimCount;
    RowFacts(trace, s, id);
    FoldNonEmpty(s.entries[id].log);
    FoldCountsClaims(s.entries[id].log);
    EndingIsLast(s.entries[id].log);
  }

  // ---------------------------------------------------------------- attempts, cancellation, finality

  /** No Run is claimed more often than allowed, a waiting Run may always be claimed once more, and an
      expired Run is either reclaimed or ended, never both. */
  lemma AttemptsAreBounded(trace: seq<Action>, s: Store, id: RunId, now: int)
    requires Reached(trace, s) && id in s.entries
    ensures ClaimCount(s.entries[id].log) <= s.entries[id].run.maxAttempts
    ensures s.entries[id].run.status == PENDING ==> s.entries[id].run.attemptCount < s.entries[id].run.maxAttempts
    ensures Expired(s.entries[id].run, now) ==>
              (Claimable(s.entries[id].run, now) <==> !Finalisable(s.entries[id].run, now))
  {
    hide ResultAgrees, ClaimCount;
    RowFacts(trace, s, id);
    LogRefinesRow(trace, s, id);
  }

  lemma Later(trace: seq<Action>, s: Store, i: nat, s0: Store)
    requires Reached(trace, s) && i <= |trace| && Reached(trace[..i], s0)
    ensures StoreStep(s0, s)
  {
    hide StoreStep;
    History(trace, i);
  }

  /** Once cancellation is requested, the Run is never claimed again and can only end cancelled;
      and no Run is cancelled without a request. */
  lemma CancellationIsFinal(trace: seq<Action>, s: Store, i: nat, s0: Store, id: RunId)
    requires Reached(trace, s) && i <= |trace| && Reached(trace[..i], s0) && id in s0.entries
    ensures id in s.entries
    ensures s0.entries[id].run.cancelRequested ==>
              && s.entries[id].run.cancelRequested
              && ClaimCount(s.entries[id].log) == ClaimCount(s0.entries[id].log)
              && (s.entries[id].run.status == RUNNING || s.entries[id].run.status == CANCELLED)
    ensures s.entries[id].run.status == CANCELLED ==> s.entries[id].run.cancelRequested
  {
    hide ResultAgrees, ClaimCount;
    Later(trace, s, i, s0);
    assert RowStep(s0.entries[id], s.entries[id]);
    RowFacts(trace, s, id);
    LogRefinesRow(trace, s, id);
    LogRefinesRow(trace[..i], s0, id);
  }

  /** A Run that has ended never changes again: neither status nor result nor events. */
  lemma EndedIsFrozen(trace: seq<Action>, s: Store, i: nat, s0: Store, id: RunId)
    requires Reached(trace, s) && i <= |trace| && Reached(trace[..i], s0)
    requires id in s0.entries && Terminal(s0.entries[id].run.status)
    ensures id in s.entries && s.entries[id] == s0.entries[id]
  {
    hide Reached;
    Later(trace, s, i, s0);
    assert RowStep(s0.entries[id], s.entries[id]);
  }

  // ---------------------------------------------------------------- results

  /** The stored result agrees with the Run's status, re-validates, and is read back unchanged. */
  lemma ResultsAgree(trace: seq<Action>, s: Store, id: RunId)
    requires Reached(trace, s) && id in s.entries
    ensures var run := s.entries[id].run;
            && (forall part: Part ::
                  Usable(ComponentOf(run.output, part).status) <==> PayloadOf(run.output, part).Some?)
            && (Terminal(run.status) ==> forall part: Part :: ComponentOf(run.output, part).status != Pending)
            && (run.output.resultStatus == ResultStatus.Failed <==> run.status == FAILED || run.status == CANCELLED)
            && (run.output.resultStatus == ResultStatus.Complete ==>
                  && run.status == SUCCEEDED && Strip(run.output.assistantAnswer) != ""
                  && run.output.weatherWindow.Some? && run.output.itinerary.Some?)
            && SchemaValid(run.output)
            && Coerced(run.output, run.status) == run.output
  {
    hide LogAgrees, LeaseAgrees, SchemaValid, UniqueSources, Strip;
    RowFacts(trace, s, id);
  }

  // ---------------------------------------------------------------- provenance

  /** At position `i` of the run of the system, a write of the Run's own successful tool call took
      effect and stored this payload. */
  ghost predicate Production(trace: seq<Action>, i: nat, id: RunId, part: Part, payload: Payload) {
    && i < |trace|
    && trace[i].RecordTool? && trace[i].runId == id
    && trace[i].tool == ToolOf(part) && trace[i].succeeded && Stored(trace[i].snapshot) == payload
    && match Replay(trace[..i])
       case None => false
       case Some(s) => id in s.entries && Holds(s.entries[id].run, trace[i].worker, trace[i].now)
  }

  ghost predicate Produced(trace: seq<Action>, id: RunId, part: Part, payload: Payload) {
    exists i: nat :: Production(trace, i, id, part, payload)
  }

  /** A stored payload was produced by this Run itself, or is exactly the payload of the successful
      earlier Run it names, which is also the Run it supersedes. */
  ghost predicate Sourced(trace: seq<Action>, s: Store, id: RunId, part: Part)
    requires id in s.entries
  {
    match Provenance(s.entries[id].run.output, part)
    case (None, from) => from.None?
    case (Some(payload), None) => Produced(trace, id, part, payload)
    case (Some(payload), Some(p)) =>
      && Supersedes(s, id, p)
      && s.entries[id].run.output.supersedes == Some(p)
      && PayloadOf(s.entries[p].run.output, part) == Some(payload)
  }

  ghost predicate AllSourced(trace: seq<Action>, s: Store) {
    forall id, part | id in s.entries :: Sourced(trace, s, id, part)
  }

  lemma ProducedStays(trace: seq<Action>, a: Action, id: RunId, part: Part, payload: Payload)
    requires Produced(trace, id, part, payload)
    ensures Produced(trace + [a], id, part, payload)
  {
    hide Replay;
    var i: nat :| Production(trace, i, id, part, payload);
    assert (trace + [a])[..i] == trace[..i] && (trace + [a])[i] == trace[i];
    assert Production(trace + [a], i, id, part, payload);
  }

  /** A row keeps its provenance, unless this action is its own successful tool call. */
  ghost predicate KeepsProvenance(s: Store, a: Action, id: RunId, part: Part)
    requires id in s.entries && id in Effect(s, a).entries
  {
    || Provenance(Effect(s, a).entries[id].run.output, part) == Provenance(s.entries[id].run.output, part)
    || (&& a.RecordTool? && a.runId == id && a.tool == ToolOf(part) && a.succeeded
        && Holds(s.entries[id].run, a.worker, a.now)
        && Provenance(Effect(s, a).entries[id].run.output, part) == (Some(Stored(a.snapshot)), None))
  }

  lemma EndedProvenance(e: Entry, status: RunStatus, code: string, message: string, part: Part)
    requires PartsAgree(e.run.output)
    ensures Provenance(Ended(e, status, code, message).run.output, part) == Provenance(e.run.output, part)
  {
    hide Completed, FailureApplied, Append;
    EndingProvenance(e.run.output, Answer("", "", []), code, message, true, part);
  }

  lemma FinalisedProvenance(e: Entry, part: Part)
    requires PartsAgree(e.run.output)
    ensures Provenance(Finalised(e).run.output, part) == Provenance(e.run.output, part)
  {
    hide Ended, Provenance;
    EndedProvenance(e, CANCELLED, CANCEL_CODE, CANCEL_MESSAGE, part);
    EndedProvenance(e, FAILED, EXHAUSTED_CODE, EXHAUSTED_MESSAGE, part);
  }

  lemma WriteKeepsProvenance(s: Store, a: Action, part: Part)
    requires IsWrite(a) && a.runId in s.entries && PartsAgree(s.entries[a.runId].run.output)
    ensures a.runId in Effect(s, a).entries && KeepsProvenance(s, a, a.runId, part)
  {
    hide PartsAgree, ToolApplied, Completed, FailureApplied, Append;
    var e := s.entries[a.runId];
    match a
    case RecordTool(_, _, tool, snapshot, succeeded, _) =>
      ToolProvenance(e.run.output, tool, snapshot, succeeded, part);
    case Complete(_, _, answer, _) =>
      EndingProvenance(e.run.output, answer, CANCEL_CODE, CANCEL_MESSAGE, true, part);
    case Fail(_, _, code, message, _, _, _) =>
      EndingProvenance(e.run.output, Answer("", "", []), CANCEL_CODE, CANCEL_MESSAGE, true, part);
      EndingProvenance(e.run.output, Answer("", "", []), code, message, true, part);
      EndingProvenance(e.run.output, Answer("", "", []), code, message, false, part);
    case _ =>
  }

  lemma ClaimKeepsProvenance(s: Store, a: Action, id: RunId, part: Part)
    requires a.ClaimNext? && id in s.entries && PartsAgree(s.entries[id].run.output)
    ensures id in Effect(s, a).entries && KeepsProvenance(s, a, id, part)
  {
    hide PartsAgree, Finalised, Append;
    FinalisedProvenance(s.entries[id], part);
  }

  lemma CancelKeepsProvenance(s: Store, a: Action, id: RunId, part: Part)
    requires a.Cancel? && id in s.entries && PartsAgree(s.entries[id].run.output)
    ensures id in Effect(s, a).entries && KeepsProvenance(s, a, id, part)
  {
    hide PartsAgree, Ended, Append;
    var asked := s.entries[id].(run := s.entries[id].run.(cancelRequested := true));
    EndedProvenance(asked, CANCELLED, CANCEL_CODE, CANCEL_MESSAGE, part);
  }

  lemma EffectKeepsProvenance(s: Store, a: Action, id: RunId, part: Part)
    requires Enabled(s, a) && id in s.entries && PartsAgree(s.entries[id].run.output)
    ensures id in Effect(s, a).entries && KeepsProvenance(s, a, id, part)
  {
    hide PartsAgree, Provenance;
    if a.ClaimNext? {
      ClaimKeepsProvenance(s, a, id, part);
    } else if a.Cancel? {
      CancelKeepsProvenance(s, a, id, part);
    } else if IsWrite(a) {
      if a.runId == id {
        WriteKeepsProvenance(s, a, part);
      }
    }
  }

  /** Sourced rows stay sourced: a frozen origin keeps its payload, and a new payload is this call's own. */
  lemma RowStaysSourced(trace: seq<Action>, s: Store, a: Action, id: RunId, part: Part)
    requires Reached(trace, s) && Enabled(s, a) && id in s.entries
    requires Sourced(trace, s, id, part)
    ensures id in Step(s, a).entries && Sourced(trace + [a], Step(s, a), id, part)
  {
    hide Produced, RowInv, Effect, StoreInv, Enabled;
    ReachableInv(trace);
    StepKeeps(s, a);
    PartsOf(s, id);
    EffectKeepsProvenance(s, a, id, part);
    var s1 := Step(s, a);
    match Provenance(s.entries[id].run.output, part)
    case (None, from) =>
      OwnCall(trace, s, a, id, part);
    case (Some(payload), None) =>
      OwnCall(trace, s, a, id, part);
      ProducedStays(trace, a, id, part, payload);
    case (Some(payload), Some(p)) =>
      OwnCall(trace, s, a, id, part);
      assert RowStep(s.entries[p], s1.entries[p]) && RowStep(s.entries[id], s1.entries[id]);
  }

  lemma PartsOf(s: Store, id: RunId)
    requires StoreInv(s) && id in s.entries
    ensures PartsAgree(s.entries[id].run.output)
  {
  }

  lemma OwnCall(trace: seq<Action>, s: Store, a: Action, id: RunId, part: Part)
    requires Reached(trace, s) && id in s.entries
    ensures && a.RecordTool? && a.runId == id && a.tool == ToolOf(part) && a.succeeded
            && Holds(s.entries[id].run, a.worker, a.now)
            ==> Produced(trace + [a], id, part, Stored(a.snapshot))
  {
    hide Replay;
    assert (trace + [a])[..|trace|] == trace;
    if a.RecordTool? && a.runId == id && a.tool == ToolOf(part) && a.succeeded
        && Holds(s.entries[id].run, a.worker, a.now) {
      assert Production(trace + [a], |trace|, id, part, Stored(a.snapshot));
    }
  }

  /** A new Run's payloads are those of the Run it supersedes. */
  lemma NewRowSourced(trace: seq<Action>, s: Store, a: Action, part: Part)
    requires Reached(trace, s) && Enabled(s, a) && a.Enqueue? && a.runId in Step(s, a).entries
    ensures Sourced(trace + [a], Step(s, a), a.runId, part)
  {
    hide Produced, RowInv, Replay, Superseding, Versioned;
    ReachableInv(trace);
    StepKeeps(s, a);
    assert Superseding(Step(s, a));
    EnqueuedProvenance(s, a, part);
    SupersededRow(Step(s, a), a.runId);
  }

  lemma SupersededRow(s: Store, id: RunId)
    requires Superseding(s) && id in s.entries
    ensures s.entries[id].run.output.supersedes.Some? ==> Supersedes(s, id, s.entries[id].run.output.supersedes.value)
  {
  }

  lemma EnqueuedProvenance(s: Store, a: Action, part: Part)
    requires StoreInv(s) && Enabled(s, a) && a.Enqueue? && a.runId in Step(s, a).entries
    ensures var r := Step(s, a).entries[a.runId].run.output;
            && r.supersedes == a.previous
            && (a.previous.None? ==> Provenance(r, part) == (None, None))
            && (a.previous.Some? ==>
                  && a.previous.value in s.entries
                  && Step(s, a).entries[a.previous.value] == s.entries[a.previous.value]
                  && var payload := PayloadOf(s.entries[a.previous.value].run.output, part);
                     Provenance(r, part) == (payload, if payload.Some? then a.previous else None))
  {
    hide RowsInv, Versioned, Superseding, SessionRuns, PartsAgree;
    InitialisedFacts(s, a.session, a.late, a.previous);
    if a.previous.Some? {
      PartsOf(s, a.previous.value);
      InitialProvenance(|SessionRuns(s, a.session)| + 1, a.previous.value, s.entries[a.previous.value].run.output,
                        part);
    }
  }

  lemma {:induction false} EverythingIsSourced(trace: seq<Action>, s: Store)
    requires Reached(trace, s)
    ensures AllSourced(trace, s)
  {
    hide Sourced, Enabled, Step;
    if trace != [] {
      var init, a := trace[..|trace| - 1], trace[|trace| - 1];
      var s0 := Replay(init).value;
      EverythingIsSourced(init, s0);
      assert init + [a] == trace;
      forall id, part | id in s.entries ensures Sourced(trace, s, id, part) {
        if id in s0.entries {
          assert Sourced(init, s0, id, part);
          RowStaysSourced(init, s0, a, id, part);
        } else {
          OnlyEnqueueAdds(s0, a, id);
          NewRowSourced(init, s0, a, part);
        }
      }
    }
  }

  lemma OnlyEnqueueAdds(s: Store, a: Action, id: RunId)
    requires id in Step(s, a).entries && id !in s.entries
    ensures a.Enqueue? && a.runId == id
  {
    hide Finalised, Claimed, CancelAsked, Renewed, ContextRecorded, ToolRecorded, Progressed, Finished, FailedBy,
        Queued;
  }

  /** Follows the inheritance links of a part. Revisions decrease, so this ends. */
  ghost function Origin(s: Store, id: RunId, part: Part): RunId
    requires id in s.entries
    decreases s.entries[id].run.output.planRevision
  {
    match Provenance(s.entries[id].run.output, part).1
    case None => id
    case Some(p) => if p in s.entries && Revision(s, p) < Revision(s, id) then Origin(s, p, part) else id
  }

  /** Whatever payload a Run shows, following the links leads to a Run of the same session whose own
      successful tool call produced exactly that payload. */
  lemma {:induction false} PayloadsHaveAnOrigin(trace: seq<Action>, s: Store, id: RunId, part: Part)
    requires Reached(trace, s) && id in s.entries
    requires PayloadOf(s.entries[id].run.output, part).Some?
    ensures var o := Origin(s, id, part);
            && o in s.entries && SameSession(s, o, id)
            && Revision(s, o) <= Revision(s, id)
            && PayloadOf(s.entries[o].run.output, part) == PayloadOf(s.entries[id].run.output, part)
            && ComponentOf(s.entries[o].run.output, part).inheritedFrom.None?
            && Produced(trace, o, part, PayloadOf(s.entries[id].run.output, part).value)
    decreases s.entries[id].run.output.planRevision
  {
    hide Reached, Produced;
    EverythingIsSourced(trace, s);
    assert Sourced(trace, s, id, part);
    match Provenance(s.entries[id].run.output, part)
    case (Some(_), Some(p)) => PayloadsHaveAnOrigin(trace, s, p, part);
    case _ =>
  }

  /** Plan revisions of a session are distinct numbers from 1 to the number of its Runs, in creation
      order, and a superseded Run is an earlier successful one of the session. */
  lemma RevisionsCountRuns(trace: seq<Action>, s: Store, a: RunId, b: RunId)
    requires Reached(trace, s) && a in s.entries && b in s.entries && SameSession(s, a, b)
    ensures 1 <= Revision(s, a) <= |SessionRuns(s, s.entries[a].run.session)|
    ensures a != b ==> Revision(s, a) != Revision(s, b)
    ensures Revision(s, a) < Revision(s, b) ==> s.entries[a].run.createdAt <= s.entries[b].run.createdAt
    ensures s.entries[a].run.output.supersedes.Some? ==> Supersedes(s, a, s.entries[a].run.output.supersedes.value)
  {
    hide RowsInv;
    ReachableInv(trace);
  }

  ghost function RevisionsOf(s: Store, ids: set<RunId>): set<nat>
    requires ids <= s.entries.Keys
  {
    set id | id in ids :: Revision(s, id)
  }

  lemma {:induction false} DistinctRevisions(s: Store, ids: set<RunId>)
    requires ids <= s.entries.Keys
    requires forall a, b | a in ids && b in ids && a != b :: Revision(s, a) != Revision(s, b)
    ensures |RevisionsOf(s, ids)| == |ids|
  {
    if ids != {} {
      var id :| id in ids;
      DistinctRevisions(s, ids - {id});
      assert RevisionsOf(s, ids) == RevisionsOf(s, ids - {id}) + {Revision(s, id)};
    }
  }

  lemma {:induction false} NumbersFill(numbers: set<nat>, n: nat)
    requires forall x | x in numbers :: 1 <= x <= n
    ensures |numbers| <= n
    ensures |numbers| == n ==> forall x: nat | 1 <= x <= n :: x in numbers
  {
    if n > 0 {
      NumbersFill(numbers - {n}, n - 1);
      if |numbers| == n {
        assert n in numbers;
        forall x: nat | 1 <= x <= n ensures x in numbers {
          assert x == n || x in numbers - {n};
        }
      }
    }
  }

  /** No revision number is skipped. */
  lemma EveryRevisionExists(trace: seq<Action>, s: Store, session: SessionId, r: nat) returns (id: RunId)
    requires Reached(trace, s)
    requires 1 <= r <= |SessionRuns(s, session)|
    ensures id in SessionRuns(s, session) && Revision(s, id) == r
  {
    hide RowsInv, Superseding;
    ReachableInv(trace);
    var ids := SessionRuns(s, session);
    DistinctRevisions(s, ids);
    NumbersFill(RevisionsOf(s, ids), |ids|);
    assert r in RevisionsOf(s, ids);
    id :| id in ids && Revision(s, id) == r;
  }
}
