/**
  The server-sent event stream of a Run: it polls status and events at two separate moments while
  writers run, and resumes after the identifier a client names (Last-Event-ID, section 9.2 of the
  WHATWG HTML Standard).
 */
module EventStream {
  import opened RunModels
  import opened RunProtocol
  import opened RunSafety
  import opened RunHistory
  import opened RunTheorems

  /** The events with a greater sequence number, in order. */
  function EventsAfter(log: seq<Event>, after: nat): seq<Event> {
    if log == [] then []
    else
      var last := log[|log| - 1];
      EventsAfter(log[..|log| - 1], after) + if last.sequence > after then [last] else []
  }

  /** What is left of a log after the first `after` events. */
  function Tail(log: seq<Event>, after: nat): seq<Event> {
    if after <= |log| then log[after..] else []
  }

  /** On a gapless log, selecting by sequence number is skipping by position. */
  lemma {:induction false} SelectionIsTail(log: seq<Event>, after: nat)
    requires Numbered(log)
    ensures EventsAfter(log, after) == Tail(log, after)
  {
    if log != [] {
      var earlier, last := log[..|log| - 1], log[|log| - 1];
      SelectionIsTail(earlier, after);
      assert last.sequence == |log|;
      if after < |log| {
        assert log[after..] == earlier[after..] + [last];
      }
    }
  }

  /** `read_events_after`: the status is read first, the events at a later moment. */
  datatype Poll = Poll(status: RunStatus, log: seq<Event>)

  /** The polls saw the Run at these moments of a run of the system: status at `at[k].0`, events at
      `at[k].1`, and time does not run backwards. */
  ghost predicate Observed(trace: seq<Action>, id: RunId, polls: seq<Poll>, at: seq<(nat, nat)>) {
    && |at| == |polls|
    && (forall k | 0 <= k < |at| :: at[k].0 <= at[k].1 <= |trace|)
    && (forall k | 0 < k < |at| :: at[k - 1].1 <= at[k].0)
    && (forall k | 0 <= k < |at| ::
        SawStatus(trace, id, at[k].0, polls[k].status) && SawLog(trace, id, at[k].1, polls[k].log))
  }

  ghost predicate SawStatus(trace: seq<Action>, id: RunId, i: nat, status: RunStatus) {
    i <= |trace| && match Replay(trace[..i])
                    case None => false
                    case Some(s) => id in s.entries && s.entries[id].run.status == status
  }

  ghost predicate SawLog(trace: seq<Action>, id: RunId, i: nat, log: seq<Event>) {
    i <= |trace| && match Replay(trace[..i])
                    case None => false
                    case Some(s) => id in s.entries && s.entries[id].log == log
  }

  lemma Prefixes(trace: seq<Action>, i: nat, j: nat)
    requires i <= j <= |trace| && Replay(trace[..j]).Some?
    ensures Replay(trace[..i]).Some?
    ensures StoreStep(Replay(trace[..i]).value, Replay(trace[..j]).value)
  {
    hide Replay, StoreStep;
    assert trace[..j][..i] == trace[..i];
    History(trace[..j], i);
  }

  /** A log read later extends one read earlier, and every log read is gapless. */
  lemma LogsGrow(trace: seq<Action>, id: RunId, i: nat, log: seq<Event>, j: nat, log1: seq<Event>)
    requires i <= j && SawLog(trace, id, i, log) && SawLog(trace, id, j, log1)
    ensures log <= log1 && Numbered(log) && Numbered(log1)
  {
    hide Replay, RowInv, Fold;
    Prefixes(trace, i, j);
    var s, s1 := Replay(trace[..i]).value, Replay(trace[..j]).value;
    assert RowStep(s.entries[id], s1.entries[id]);
    LogRefinesRow(trace[..i], s, id);
    LogRefinesRow(trace[..j], s1, id);
  }

  /** A terminal status was read: whatever is read afterwards ends with the ending event, and nothing
      will ever follow it. */
  lemma TerminalSeen(trace: seq<Action>, id: RunId, i: nat, status: RunStatus, j: nat, log: seq<Event>)
    requires i <= j && SawStatus(trace, id, i, status) && Terminal(status) && SawLog(trace, id, j, log)
    ensures log != [] && IsEnding(log[|log| - 1].kind)
    ensures forall k: nat, later | j <= k && SawLog(trace, id, k, later) :: later == log
  {
    hide Replay, RowInv, Fold;
    Prefixes(trace, i, j);
    var s, s1 := Replay(trace[..i]).value, Replay(trace[..j]).value;
    assert RowStep(s.entries[id], s1.entries[id]);
    LogRefinesRow(trace[..j], s1, id);
    forall k: nat, later | j <= k && SawLog(trace, id, k, later) ensures later == log {
      Prefixes(trace, j, k);
      assert RowStep(s1.entries[id], Replay(trace[..k]).value.entries[id]);
    }
  }

  /** One poll continues exactly where the previous one stopped. */
  lemma PollContinues(log: seq<Event>, log1: seq<Event>, after: nat, cursor: nat)
    requires log <= log1 && Numbered(log1)
    requires cursor == if after <= |log| then |log| else after
    ensures Tail(log, after) + EventsAfter(log1, cursor) == Tail(log1, after)
    ensures EventsAfter(log1, cursor) != [] ==>
              EventsAfter(log1, cursor)[|EventsAfter(log1, cursor)| - 1].sequence == |log1| && cursor <= |log1|
    ensures EventsAfter(log1, cursor) == [] ==> cursor == if after <= |log1| then |log1| else after
  {
    hide EventsAfter;
    SelectionIsTail(log1, cursor);
  }

  /** The log as of the first `count` polls. */
  function LogAt(polls: seq<Poll>, count: nat): seq<Event>
    requires count <= |polls|
  {
    if count == 0 then [] else polls[count - 1].log
  }

  /** Everything after the starting cursor has been delivered, each event once and in order, and the
      cursor stands behind the last one. */
  ghost predicate CaughtUp(log: seq<Event>, after: nat, delivered: seq<Event>, cursor: nat) {
    && delivered == Tail(log, after)
    && cursor == if after <= |log| then |log| else after
  }

  /** The log is final: it ends with the ending event, which was delivered or already behind the
      cursor, and no later reading differs. */
  ghost predicate Concluded(trace: seq<Action>, id: RunId, i: nat, log: seq<Event>, after: nat, delivered: seq<Event>) {
    && log != [] && IsEnding(log[|log| - 1].kind)
    && (after < |log| ==> delivered != [] && delivered[|delivered| - 1] == log[|log| - 1])
    && (forall k: nat, later | i <= k && SawLog(trace, id, k, later) :: later == log)
  }

  function Advanced(cursor: nat, events: seq<Event>): nat {
    if events != [] then events[|events| - 1].sequence else cursor
  }

  lemma PollStep(trace: seq<Action>, id: RunId, polls: seq<Poll>, at: seq<(nat, nat)>, count: nat, after: nat,
                 delivered: seq<Event>, cursor: nat)
    requires Observed(trace, id, polls, at) && count < |polls|
    requires CaughtUp(LogAt(polls, count), after, delivered, cursor)
    ensures var events := EventsAfter(polls[count].log, cursor);
            && CaughtUp(polls[count].log, after, delivered + events, Advanced(cursor, events))
            && (Terminal(polls[count].status) ==>
                  Concluded(trace, id, at[count].1, polls[count].log, after, delivered + events))
  {
    hide EventsAfter, SawLog, SawStatus, Fold;
    var poll := polls[count];
    assert SawLog(trace, id, at[count].1, poll.log) && SawStatus(trace, id, at[count].0, poll.status);
    if count > 0 {
      assert SawLog(trace, id, at[count - 1].1, polls[count - 1].log);
      LogsGrow(trace, id, at[count - 1].1, polls[count - 1].log, at[count].1, poll.log);
    } else {
      LogsGrow(trace, id, at[count].1, poll.log, at[count].1, poll.log);
    }
    PollContinues(LogAt(polls, count), poll.log, after, cursor);
    if Terminal(poll.status) {
      TerminalSeen(trace, id, at[count].0, poll.status, at[count].1, poll.log);
    }
  }

  /** The polling loop. Joined together, the polls deliver exactly the events after the starting
      cursor; the stream ends by itself exactly when a poll reads a terminal status, and then the
      log it has delivered is final. */
  method StreamRunEvents(after: nat, polls: seq<Poll>, ghost id: RunId, ghost trace: seq<Action>,
                         ghost at: seq<(nat, nat)>)
    returns (delivered: seq<Event>, cursor: nat, ended: bool, count: nat)
    requires Observed(trace, id, polls, at)
    ensures count <= |polls| && (count == |polls| || ended)
    ensures CaughtUp(LogAt(polls, count), after, delivered, cursor)
    ensures ended ==> count > 0 && Concluded(trace, id, at[count - 1].1, LogAt(polls, count), after, delivered)
    ensures ended <==> exists k :: 0 <= k < |polls| && Terminal(polls[k].status)
  {
    hide EventsAfter, Observed, CaughtUp, Concluded;
    delivered, cursor, ended, count := [], after, false, 0;
    NothingYet(after);
    LengthsAgree(trace, id, polls, at);
    while count < |polls|
      invariant count <= |polls| && !ended
      invariant CaughtUp(LogAt(polls, count), after, delivered, cursor)
      invariant forall k | 0 <= k < count :: !Terminal(polls[k].status)
    {
      PollStep(trace, id, polls, at, count, after, delivered, cursor);
      ghost var delivered0, cursor0 := delivered, cursor;
      var status, events := polls[count].status, EventsAfter(polls[count].log, cursor);
      for n := 0 to |events|
        invariant delivered == delivered0 + events[..n]
        invariant cursor == Advanced(cursor0, events[..n])
      {
        delivered := delivered + [events[n]];
        cursor := events[n].sequence;
        assert events[..n + 1] == events[..n] + [events[n]];
      }
      assert events[..|events|] == events;
      count := count + 1;
      if Terminal(status) {
        ended := true;
        return;
      }
    }
  }

  lemma NothingYet(after: nat)
    ensures CaughtUp([], after, [], after)
  {
  }

  lemma LengthsAgree(trace: seq<Action>, id: RunId, polls: seq<Poll>, at: seq<(nat, nat)>)
    requires Observed(trace, id, polls, at)
    ensures |at| == |polls|
  {
  }
}
