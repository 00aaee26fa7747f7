/**
  Theorems about every run of the system: whatever the interleaving of workers, users and API
  processes, each reachable store satisfies the invariant, and rows only move forward.
 */
module RunHistory {
  import opened Wrappers
  import opened RunModels
  import opened RunResults
  import opened RunProtocol
  import opened RunSafety

  function Revision(s: Store, id: RunId): nat
    requires id in s.entries
  {
    s.entries[id].run.output.planRevision
  }

  predicate SameSession(s: Store, a: RunId, b: RunId)
    requires a in s.entries && b in s.entries
  {
    s.entries[a].run.session == s.entries[b].run.session
  }

  ghost predicate RowsInv(s: Store) {
    forall id | id in s.entries ::
      && RowInv(s.entries[id])
      && s.entries[id].run.session in s.sessions
      && s.entries[id].run.createdAt <= s.clock
  }

  /** Within a session, plan revisions are the numbers from 1 to the number of Runs, in order of creation. */
  ghost predicate Versioned(s: Store) {
    && (forall a | a in s.entries :: 1 <= Revision(s, a) <= |SessionRuns(s, s.entries[a].run.session)|)
    && (forall a, b | a in s.entries && b in s.entries && SameSession(s, a, b) && a != b ::
          && Revision(s, a) != Revision(s, b)
          && (Revision(s, a) < Revision(s, b) ==> s.entries[a].run.createdAt <= s.entries[b].run.createdAt))
  }

  /** A Run supersedes an earlier successful Run of its session. */
  ghost predicate Supersedes(s: Store, id: RunId, p: RunId)
    requires id in s.entries
  {
    && p in s.entries && SameSession(s, p, id)
    && s.entries[p].run.status == SUCCEEDED
    && Revision(s, p) < Revision(s, id)
  }

  ghost predicate Superseding(s: Store) {
    forall id | id in s.entries && s.entries[id].run.output.supersedes.Some? ::
      Supersedes(s, id, s.entries[id].run.output.supersedes.value)
  }

  ghost predicate StoreInv(s: Store) {
    RowsInv(s) && Versioned(s) && Superseding(s)
  }

  /** No row disappears, every row moves forward, the clock does not run back. */
  ghost predicate StoreStep(s: Store, s1: Store) {
    && s.clock <= s1.clock
    && s.sessions.Keys <= s1.sessions.Keys
    && s.entries.Keys <= s1.entries.Keys
    && (forall id | id in s.entries :: RowStep(s.entries[id], s1.entries[id]))
  }

  lemma StoreStepTransitive(a: Store, b: Store, c: Store)
    requires StoreStep(a, b) && StoreStep(b, c)
    ensures StoreStep(a, c)
  {
    forall id | id in a.entries ensures RowStep(a.entries[id], c.entries[id]) {
      RowStepTransitive(a.entries[id], b.entries[id], c.entries[id]);
    }
  }

  // ---------------------------------------------------------------- steps that add no row

  /** The same rows, each changed as its own rules allow or not at all. */
  ghost predicate Evolved(s: Store, s1: Store) {
    && s.clock <= s1.clock
    && s.sessions.Keys <= s1.sessions.Keys
    && s1.entries.Keys == s.entries.Keys
    && (forall id | id in s.entries :: Allowed(s.entries[id], s1.entries[id]))
  }

  lemma SameSessionRuns(s: Store, s1: Store, session: SessionId)
    requires s1.entries.Keys == s.entries.Keys
    requires forall id | id in s.entries :: s1.entries[id].run.session == s.entries[id].run.session
    ensures SessionRuns(s1, session) == SessionRuns(s, session)
  {
  }

  lemma EvolvedKeeps(s: Store, s1: Store)
    requires StoreInv(s) && Evolved(s, s1)
    ensures StoreInv(s1) && StoreStep(s, s1)
  {
    hide RowInv, Versioned, Superseding, RowStep, Allowed;
    EvolvedVersions(s, s1);
    VersionsKept(s, s1);
    SupersedingKept(s, s1);
  }

  /** What the ranking of a session's Runs depends on does not change. */
  ghost predicate SameVersions(s: Store, s1: Store) {
    && s1.entries.Keys == s.entries.Keys
    && (forall id | id in s.entries ::
          && s1.entries[id].run.session == s.entries[id].run.session
          && s1.entries[id].run.createdAt == s.entries[id].run.createdAt
          && Revision(s1, id) == Revision(s, id)
          && s1.entries[id].run.output.supersedes == s.entries[id].run.output.supersedes
          && (s.entries[id].run.status == SUCCEEDED ==> s1.entries[id].run.status == SUCCEEDED))
  }

  lemma EvolvedVersions(s: Store, s1: Store)
    requires RowsInv(s) && Evolved(s, s1)
    ensures RowsInv(s1) && StoreStep(s, s1) && SameVersions(s, s1)
  {
    hide RowInv;
  }

  lemma VersionsKept(s: Store, s1: Store)
    requires Versioned(s) && SameVersions(s, s1)
    ensures Versioned(s1)
  {
    hide Revision;
    forall a | a in s1.entries ensures 1 <= Revision(s1, a) <= |SessionRuns(s1, s1.entries[a].run.session)| {
      SameSessionRuns(s, s1, s1.entries[a].run.session);
      assert Revision(s1, a) == Revision(s, a);
    }
    forall a, b | a in s1.entries && b in s1.entries && SameSession(s1, a, b) && a != b
      ensures Revision(s1, a) != Revision(s1, b)
      ensures Revision(s1, a) < Revision(s1, b) ==> s1.entries[a].run.createdAt <= s1.entries[b].run.createdAt
    {
      assert SameSession(s, a, b);
    }
  }

  lemma SupersedingKept(s: Store, s1: Store)
    requires Superseding(s) && SameVersions(s, s1)
    ensures Superseding(s1)
  {
    hide Revision;
    forall id | id in s1.entries && s1.entries[id].run.output.supersedes.Some?
      ensures Supersedes(s1, id, s1.entries[id].run.output.supersedes.value)
    {
      assert Supersedes(s, id, s1.entries[id].run.output.supersedes.value);
    }
  }

  lemma UnchangedAllowed(e: Entry)
    requires RowInv(e)
    ensures Allowed(e, e)
  {
  }

  lemma RowReplaced(s: Store, id: RunId, e: Entry)
    requires RowsInv(s) && id in s.entries && Allowed(s.entries[id], e)
    ensures Evolved(s, s.(entries := s.entries[id := e]))
  {
    hide RowInv, RowStep;
    forall k | k in s.entries ensures Allowed(s.entries[k], s.entries[id := e][k]) {
      if k != id {
        assert RowInv(s.entries[k]);
        UnchangedAllowed(s.entries[k]);
      }
    }
  }

  lemma NothingChanged(s: Store)
    requires RowsInv(s)
    ensures Evolved(s, s)
  {
    hide RowInv, RowStep;
    forall k | k in s.entries ensures Allowed(s.entries[k], s.entries[k]) {
      UnchangedAllowed(s.entries[k]);
    }
  }

  lemma FinaliseEvolves(s: Store, finalised: set<RunId>, now: int)
    requires RowsInv(s)
    requires forall id | id in finalised :: id in s.entries && Finalisable(s.entries[id].run, now)
    ensures Evolved(s, FinaliseAll(s, finalised))
  {
    hide Allowed, RowInv, Finalised, Finalisable;
    forall k | k in s.entries ensures Allowed(s.entries[k], FinaliseAll(s, finalised).entries[k]) {
      assert RowInv(s.entries[k]);
      if k in finalised {
        FinalisedAllowed(s.entries[k], now);
      } else {
        UnchangedAllowed(s.entries[k]);
      }
    }
  }

  lemma EvolvedRows(s: Store, s1: Store)
    requires RowsInv(s) && Evolved(s, s1)
    ensures RowsInv(s1)
  {
    hide RowInv;
  }

  lemma EvolvedTransitive(a: Store, b: Store, c: Store)
    requires Evolved(a, b) && Evolved(b, c)
    ensures Evolved(a, c)
  {
    hide RowInv, RowStep;
    forall id | id in a.entries ensures Allowed(a.entries[id], c.entries[id]) {
      assert Allowed(a.entries[id], b.entries[id]) && Allowed(b.entries[id], c.entries[id]);
      RowStepTransitive(a.entries[id], b.entries[id], c.entries[id]);
    }
  }

  lemma ClaimEvolves(s: Store, a: Action)
    requires RowsInv(s) && Enabled(s, a) && a.ClaimNext?
    ensures Evolved(s, Effect(s, a))
  {
    hide Allowed, RowInv, Claimed, Claimable, Finalisable, Evolved, RowsInv;
    var f := FinaliseAll(s, a.finalised);
    FinaliseEvolves(s, a.finalised, a.expireAt);
    EvolvedRows(s, f);
    NothingChanged(s);
    if a.chosen.Some? {
      RowOf(f, a.chosen.value);
      var e := f.entries[a.chosen.value];
      ClaimedAllowed(e, a.worker, a.claimAt + a.leaseSeconds, a.claimAt);
      RowReplaced(f, a.chosen.value, Claimed(e, a.worker, a.claimAt + a.leaseSeconds));
      EvolvedTransitive(s, f,
                        f.(entries := f.entries[a.chosen.value := Claimed(e, a.worker, a.claimAt + a.leaseSeconds)]));
    }
  }

  lemma RowOf(s: Store, id: RunId)
    requires RowsInv(s) && id in s.entries
    ensures RowInv(s.entries[id])
  {
  }

  /** Every action but a new message changes existing rows only, each within its rules. */
  lemma EffectEvolves(s: Store, a: Action)
    requires RowsInv(s) && Enabled(s, a) && !a.Enqueue?
    ensures Evolved(s, Effect(s, a))
  {
    hide Allowed, RowInv, RowsInv, Evolved, FinalisedSelection, OldestClaimable, FinaliseAll, Fenced, CancelAsked;
    match a
    case OpenSession(session, user, _) =>
      SessionOpened(s, session, user);
    case ClaimNext(_, _, _, _, _, _, _, _, _) =>
      ClaimEvolves(s, a);
    case Cancel(runId, _, _) =>
      NothingChanged(s);
      if runId in s.entries {
        RowOf(s, runId);
        CancelAllowed(s.entries[runId]);
        RowReplaced(s, runId, CancelAsked(s.entries[runId]));
      }
    case _ =>
      WriteEvolves(s, a);
  }

  lemma SessionOpened(s: Store, session: SessionId, user: UserId)
    requires RowsInv(s)
    ensures Evolved(s, s.(sessions := s.sessions[session := user]))
  {
    hide RowInv, RowStep;
    NothingChanged(s);
  }

  lemma WrittenAllowed(a: Action, e: Entry)
    requires IsWrite(a) && RowInv(e) && e.run.status == RUNNING
    ensures Allowed(e, Written(a, e))
  {
    hide Allowed, RowInv, Renewed, ContextRecorded, ToolRecorded, Progressed, Finished, FailedBy;
    match a
    case Renew(_, _, leaseSeconds, readAt, _) => RenewedAllowed(e, readAt + leaseSeconds);
    case RecordContext(_, _, usage, _) => ContextAllowed(e, usage);
    case RecordTool(_, _, tool, snapshot, succeeded, _) => ToolAllowed(e, tool, snapshot, succeeded);
    case RecordProgress(_, _, name, _) => ProgressAllowed(e, name);
    case Complete(_, _, answer, _) => FinishedAllowed(e, answer);
    case Fail(_, _, code, message, retryable, delay, now) => FailedByAllowed(e, code, message, retryable, now + delay);
  }

  lemma WriteEvolves(s: Store, a: Action)
    requires RowsInv(s) && IsWrite(a)
    ensures Evolved(s, Fenced(s, a))
  {
    hide Allowed, RowInv, RowsInv, Evolved, Written;
    NothingChanged(s);
    if a.runId in s.entries && Holds(s.entries[a.runId].run, a.worker, ReadAt(a)) {
      RowOf(s, a.runId);
      WrittenAllowed(a, s.entries[a.runId]);
      RowReplaced(s, a.runId, Written(a, s.entries[a.runId]));
    }
  }

  // ---------------------------------------------------------------- the step that adds a row

  /** A new row with the next revision, superseding nothing or a successful Run of its session. */
  lemma NewRowKeeps(s: Store, s1: Store, session: SessionId, id: RunId, e: Entry)
    requires StoreInv(s) && id !in s.entries && session in s.sessions
    requires s1.sessions == s.sessions && s1.entries == s.entries[id := e] && s.clock <= s1.clock
    requires RowInv(e) && e.run.session == session && e.run.createdAt == s1.clock
    requires e.run.output.planRevision == |SessionRuns(s, session)| + 1
    requires e.run.output.supersedes.Some? ==>
               var p := e.run.output.supersedes.value;
               p in s.entries && s.entries[p].run.session == session && s.entries[p].run.status == SUCCEEDED
    ensures StoreInv(s1) && StoreStep(s, s1)
  {
    hide RowInv, SessionRuns, Versioned;
    forall k | k in s.entries ensures RowStep(s.entries[k], s1.entries[k]) {
      assert s1.entries[k] == s.entries[k];
    }
    VersionsGrow(s, s1, session, id);
    forall k | k in s1.entries && s1.entries[k].run.output.supersedes.Some?
      ensures Supersedes(s1, k, s1.entries[k].run.output.supersedes.value)
    {
      if k != id {
        assert Supersedes(s, k, s.entries[k].run.output.supersedes.value);
      }
    }
  }

  lemma EnqueueKeeps(s: Store, a: Action)
    requires StoreInv(s) && Enabled(s, a) && a.Enqueue?
    ensures StoreInv(Step(s, a)) && StoreStep(s, Step(s, a))
  {
    hide RowInv, Sound, Versioned, Superseding, RowsInv, StoreStep, SessionRuns, Initial, Queued, LatestSuccess;
    if a.session in s.sessions && s.sessions[a.session] == a.user {
      var r := Initialised(s, a.session, a.previous);
      InitialisedFacts(s, a.session, a.late, a.previous);
      QueuedInv(a.session, a.now, a.maxAttempts, r);
      QueuedFacts(a.session, a.now, a.maxAttempts, r);
      NewRowKeeps(s, Step(s, a), a.session, a.runId, Queued(a.session, a.now, a.maxAttempts, r));
    } else {
      NothingChanged(s);
      ClockAdvances(s, s, a.now);
      EvolvedKeeps(s, Step(s, a));
    }
  }

  lemma QueuedFacts(session: SessionId, now: int, maxAttempts: nat, output: RunResult)
    ensures var run := Queued(session, now, maxAttempts, output).run;
            run.session == session && run.createdAt == now && run.output == output
  {
  }

  lemma InitialisedFacts(s: Store, session: SessionId, late: set<RunId>, previous: Option<RunId>)
    requires RowsInv(s) && LatestSuccess(s, session, late, previous)
    ensures var r := Initialised(s, session, previous);
            && Sound(r) && r.resultStatus == Partial
            && r.planRevision == |SessionRuns(s, session)| + 1 && r.supersedes == previous
    ensures previous.Some? ==>
              && previous.value in s.entries && s.entries[previous.value].run.session == session
              && s.entries[previous.value].run.status == SUCCEEDED
  {
    hide RowInv, Sound;
    if previous.Some? {
      assert previous.value in SessionRuns(s, session);
      RowSound(s, previous.value);
      InitialSound(|SessionRuns(s, session)| + 1, previous, Some(s.entries[previous.value].run.output));
    } else {
      InitialSound(|SessionRuns(s, session)| + 1, None, None);
    }
  }

  lemma RowSound(s: Store, id: RunId)
    requires RowsInv(s) && id in s.entries
    ensures Sound(s.entries[id].run.output)
  {
  }

  lemma SessionGrows(s: Store, s1: Store, session: SessionId, id: RunId)
    requires id !in s.entries && s1.entries.Keys == s.entries.Keys + {id}
    requires s1.entries[id].run.session == session
    requires forall k | k in s.entries :: s1.entries[k] == s.entries[k]
    ensures SessionRuns(s1, session) == SessionRuns(s, session) + {id}
    ensures |SessionRuns(s1, session)| == |SessionRuns(s, session)| + 1
    ensures forall other | other != session :: SessionRuns(s1, other) == SessionRuns(s, other)
  {
    assert SessionRuns(s1, session) == SessionRuns(s, session) + {id};
  }

  lemma VersionsGrow(s: Store, s1: Store, session: SessionId, id: RunId)
    requires Versioned(s) && RowsInv(s)
    requires id !in s.entries && s1.entries.Keys == s.entries.Keys + {id}
    requires s1.entries[id].run.session == session && s1.entries[id].run.createdAt >= s.clock
    requires Revision(s1, id) == |SessionRuns(s, session)| + 1
    requires forall k | k in s.entries :: s1.entries[k] == s.entries[k]
    ensures Versioned(s1)
    ensures forall k | k in s.entries && s.entries[k].run.session == session :: Revision(s1, k) < Revision(s1, id)
  {
    hide RowInv, SessionRuns;
    SessionGrows(s, s1, session, id);
    forall a | a in s1.entries ensures 1 <= Revision(s1, a) <= |SessionRuns(s1, s1.entries[a].run.session)| {
      if a != id {
        assert Revision(s1, a) == Revision(s, a);
      }
    }
    forall a, b | a in s1.entries && b in s1.entries && SameSession(s1, a, b) && a != b
      ensures Revision(s1, a) != Revision(s1, b)
      ensures Revision(s1, a) < Revision(s1, b) ==> s1.entries[a].run.createdAt <= s1.entries[b].run.createdAt
    {
      VersionsGrowPair(s, s1, session, id, a, b);
    }
    forall k | k in s.entries && s.entries[k].run.session == session ensures Revision(s1, k) < Revision(s1, id) {
      assert Revision(s1, k) == Revision(s, k);
    }
  }

  lemma VersionsGrowPair(s: Store, s1: Store, session: SessionId, id: RunId, a: RunId, b: RunId)
    requires Versioned(s) && RowsInv(s)
    requires id !in s.entries && s1.entries.Keys == s.entries.Keys + {id}
    requires s1.entries[id].run.session == session && s1.entries[id].run.createdAt >= s.clock
    requires Revision(s1, id) == |SessionRuns(s, session)| + 1
    requires forall k | k in s.entries :: s1.entries[k] == s.entries[k]
    requires a in s1.entries && b in s1.entries && SameSession(s1, a, b) && a != b
    ensures Revision(s1, a) != Revision(s1, b)
    ensures Revision(s1, a) < Revision(s1, b) ==> s1.entries[a].run.createdAt <= s1.entries[b].run.createdAt
  {
    hide RowInv, SessionRuns;
    if a != id && b != id {
      assert SameSession(s, a, b) && Revision(s1, a) == Revision(s, a) && Revision(s1, b) == Revision(s, b);
    } else {
      var k := if a == id then b else a;
      assert Revision(s1, k) == Revision(s, k) <= |SessionRuns(s, session)|;
    }
  }

  // ---------------------------------------------------------------- every reachable state

  /** One step, whichever it is, keeps the invariant and moves the store forward. */
  lemma StepKeeps(s: Store, a: Action)
    requires StoreInv(s) && Enabled(s, a)
    ensures StoreInv(Step(s, a)) && StoreStep(s, Step(s, a))
  {
    hide RowsInv, Versioned, Superseding, Effect, StoreStep;
    if a.Enqueue? {
      EnqueueKeeps(s, a);
    } else {
      EffectEvolves(s, a);
      ClockAdvances(s, Effect(s, a), a.now);
      EvolvedKeeps(s, Step(s, a));
    }
  }

  lemma ClockAdvances(s: Store, s1: Store, now: int)
    requires Evolved(s, s1) && s.clock <= now
    ensures Evolved(s, s1.(clock := now))
  {
    hide Allowed;
  }

  lemma {:induction false} ReachableInv(trace: seq<Action>)
    requires Replay(trace).Some?
    ensures StoreInv(Replay(trace).value)
  {
    hide StoreInv, Enabled, Step;
    if trace == [] {
      EmptyStoreInv();
    } else {
      ReachableInv(trace[..|trace| - 1]);
      StepKeeps(Replay(trace[..|trace| - 1]).value, trace[|trace| - 1]);
    }
  }

  lemma EmptyStoreInv()
    ensures StoreInv(EMPTY_STORE)
  {
  }

  /** Every earlier state of a run of the system exists, and later states only move forward from it. */
  lemma {:induction false} History(trace: seq<Action>, i: nat)
    requires Replay(trace).Some? && i <= |trace|
    ensures Replay(trace[..i]).Some?
    ensures StoreStep(Replay(trace[..i]).value, Replay(trace).value)
  {
    hide StoreInv, Enabled, Step, StoreStep;
    if i == |trace| {
      assert trace[..i] == trace;
      SameStore(Replay(trace).value);
    } else {
      var init := trace[..|trace| - 1];
      History(init, i);
      assert init[..i] == trace[..i];
      ReachableInv(init);
      StepKeeps(Replay(init).value, trace[|trace| - 1]);
      StoreStepTransitive(Replay(trace[..i]).value, Replay(init).value, Replay(trace).value);
    }
  }

  lemma SameStore(s: Store)
    ensures StoreStep(s, s)
  {
  }
}
