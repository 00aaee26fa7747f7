/**
  Assembly of a conversation's context for one run: which earlier messages are shown in full, which
  are moved into the rolling summary, and how the session's summary cursor advances.
 */
module Context {
  import opened Summaries
  import opened Texts
  import opened Tokens
  import opened Wrappers

  datatype Policy = Policy(
    maxInput: int, systemReserved: int, toolReserved: int, outputReserved: int,
    recentMessageLimit: int, summaryMax: int, memoryMax: int, minimumRecent: int)

  datatype Note = Note(role: string, content: string)

  datatype Usage = Usage(
    maxInput: int, estimatedInput: int, currentMessage: nat, history: nat, summary: nat, longTermMemory: nat,
    systemReserved: int, toolReserved: int, outputReserved: int,
    historyMessagesUsed: nat, memoriesRecalled: nat, messagesSummarized: nat, messagesTruncated: nat,
    summaryPresent: bool, summaryUpdated: bool, overBudget: bool)

  datatype Prepared = Prepared(
    history: seq<Note>, summary: Option<string>, longTermMemory: Option<string>, usage: Usage)

  datatype Missing = SessionMissing | MessageMissing

  /** The session's summary columns. */
  datatype Rolling = Rolling(text: Option<string>, through: Option<nat>, count: int, tokens: int)

  datatype Outcome = Outcome(prepared: Prepared, after: Rolling)

  class Conversation {
    var summaryText: Option<string>
    var summaryThrough: Option<nat>
    var summaryCount: int
    var summaryTokenCount: int

    function State(): Rolling
      reads this
    {
      Rolling(summaryText, summaryThrough, summaryCount, summaryTokenCount)
    }

    /** The body of the transaction, once the session row is locked and the current message is found. */
    method Prepare(previous: seq<Message>, prompt: string, policy: Policy, memories: seq<string>)
      returns (prepared: Prepared)
      modifies this
      ensures Outcome(prepared, State()) == Preparation(old(State()), previous, prompt, policy, memories)
    {
      hide Count, Truncated, Absorbed, SummaryBudget, RecentBudget, NotesTotal, MemoryLines, Fill, Join, Dropped,
          Covered;
      var covered := CoveredCount(previous, summaryThrough);
      var unsummarized := previous[covered..];
      var currentTokens := Count(prompt);
      var memoryLines := MemoryLines(memories);
      var longTermMemory := Truncate(Join("\n", memoryLines), policy.memoryMax);
      var longTermMemoryTokens := Count(longTermMemory);
      var rawHistoryBudget :=
        policy.maxInput - policy.systemReserved - policy.toolReserved - currentTokens - longTermMemoryTokens;
      var historyBudget := Max(policy.minimumRecent, rawHistoryBudget);

      var dropped, filled, summaryBudget := ChooseHistory(summaryText, unsummarized, policy, historyBudget);
      MoveIntoSummary(unsummarized, dropped, summaryBudget);

      var summary := summaryText;
      var summaryTokens := Count(TextOf(summary));
      var historyTokens := NotesTotal(filled.history);
      var estimatedInput := policy.systemReserved + policy.toolReserved + currentTokens + summaryTokens
                            + historyTokens + longTermMemoryTokens;
      var usage := Usage(
        policy.maxInput, estimatedInput, currentTokens, historyTokens, summaryTokens, longTermMemoryTokens,
        policy.systemReserved, policy.toolReserved, policy.outputReserved,
        |filled.history|, |memoryLines|, dropped, filled.truncated,
        TextOf(summary) != "", dropped > 0, estimatedInput > policy.maxInput);
      prepared :=
        Prepared(filled.history, summary, if longTermMemory == "" then None else Some(longTermMemory), usage);
    }

    /** Moves the first `dropped` messages into the summary and the cursor behind them. */
    method MoveIntoSummary(recent: seq<Message>, dropped: nat, summaryBudget: int)
      requires dropped <= |recent|
      modifies this
      ensures State() == Absorbed(old(State()), recent, dropped, summaryBudget)
    {
      hide Count, Summary;
      if dropped > 0 {
        var summary := Summarize(summaryText, recent[..dropped], Max(64, summaryBudget));
        summaryText := Some(summary);
        summaryThrough := Some(recent[dropped - 1].id);
        summaryCount := summaryCount + dropped;
        summaryTokenCount := Count(summary);
      }
    }
  }

  // ---- Positions -----------------------------------------------------------------------------------

  /** The first position from `i` on of the message with this id. */
  function IndexFrom(messages: seq<Message>, id: nat, i: nat): (r: Option<nat>)
    requires i <= |messages|
    ensures r.Some? ==> i <= r.value < |messages| && messages[r.value].id == id
    ensures r.Some? ==> forall k | i <= k < r.value :: messages[k].id != id
    ensures r.None? ==> forall k | i <= k < |messages| :: messages[k].id != id
    decreases |messages| - i
  {
    if i == |messages| then None
    else if messages[i].id == id then Some(i)
    else IndexFrom(messages, id, i + 1)
  }

  method FindIndex(messages: seq<Message>, id: nat) returns (r: Option<nat>)
    ensures r == IndexFrom(messages, id, 0)
  {
    var i := 0;
    while i < |messages|
      invariant 0 <= i <= |messages|
      invariant IndexFrom(messages, id, 0) == IndexFrom(messages, id, i)
    {
      if messages[i].id == id {
        return Some(i);
      }
      i := i + 1;
    }
    return None;
  }

  /** How many of the messages are covered by the cursor: none when it is unset or not among them. */
  function Covered(previous: seq<Message>, through: Option<nat>): (r: nat)
    ensures r <= |previous|
  {
    if through.Some? && IndexFrom(previous, through.value, 0).Some?
    then IndexFrom(previous, through.value, 0).value + 1
    else 0
  }

  method CoveredCount(previous: seq<Message>, through: Option<nat>) returns (covered: nat)
    ensures covered == Covered(previous, through)
  {
    hide IndexFrom;
    var summarizedIndex: int := -1;
    if through.Some? {
      var found := FindIndex(previous, through.value);
      if found.Some? {
        summarizedIndex := found.value;
      }
    }
    covered := summarizedIndex + 1;
  }

  // ---- Budgets -------------------------------------------------------------------------------------

  function Total(messages: seq<Message>): nat {
    if messages == [] then 0 else Count(messages[0].content) + Total(messages[1..])
  }

  function NotesTotal(notes: seq<Note>): nat {
    if notes == [] then 0 else Count(notes[0].content) + NotesTotal(notes[1..])
  }

  function MemoryLines(memories: seq<string>): seq<string> {
    if memories == [] then []
    else (if Strip(memories[0]) == "" then [] else ["- " + Normalized(memories[0])]) + MemoryLines(memories[1..])
  }

  function MemoryText(policy: Policy, memories: seq<string>): string {
    Truncated(Join("\n", MemoryLines(memories)), policy.memoryMax)
  }

  function RawBudget(policy: Policy, prompt: string, memories: seq<string>): int {
    policy.maxInput - policy.systemReserved - policy.toolReserved - Count(prompt)
    - Count(MemoryText(policy, memories))
  }

  function HistoryBudget(policy: Policy, prompt: string, memories: seq<string>): int {
    Max(policy.minimumRecent, RawBudget(policy, prompt, memories))
  }

  predicate NeedsSummarySpace(text: Option<string>, recent: seq<Message>, policy: Policy, historyBudget: int) {
    || TextOf(text) != ""
    || |recent| > policy.recentMessageLimit
    || Total(recent) > historyBudget
  }

  /** `recent` is the part of the conversation no summary covers yet. */
  function SummaryBudget(text: Option<string>, recent: seq<Message>, policy: Policy, historyBudget: int): int {
    if NeedsSummarySpace(text, recent, policy, historyBudget)
    then Min(policy.summaryMax, Max(64, historyBudget / 3))
    else 0
  }

  function RecentBudget(text: Option<string>, recent: seq<Message>, policy: Policy, historyBudget: int): int {
    Max(policy.minimumRecent, historyBudget - SummaryBudget(text, recent, policy, historyBudget))
  }

  // ---- The two greedy loops ------------------------------------------------------------------------

  /** The first loop, from the newest message back: with `recent[from..]` taken, where it will stop. */
  function SelectFrom(recent: seq<Message>, from: nat, limit: int, budget: int): (r: nat)
    requires from <= |recent|
    ensures r <= from
  {
    if from == 0 || |recent| - from >= limit then from
    else
      var withNext := Total(recent[from..]) + Count(recent[from - 1].content);
      if from < |recent| && withNext > budget then from
      else if withNext >= budget then from - 1
      else SelectFrom(recent, from - 1, limit, budget)
  }

  function Dropped(recent: seq<Message>, limit: int, budget: int): (r: nat)
    ensures r <= |recent|
  {
    SelectFrom(recent, |recent|, limit, budget)
  }

  method SelectRecent(recent: seq<Message>, limit: int, budget: int) returns (dropped: nat)
    ensures dropped == Dropped(recent, limit, budget)
  {
    hide Count;
    dropped := |recent|;
    var selectedTokens := 0;
    while dropped > 0
      invariant dropped <= |recent|
      invariant selectedTokens == Total(recent[dropped..])
      invariant Dropped(recent, limit, budget) == SelectFrom(recent, dropped, limit, budget)
    {
      if |recent| - dropped >= limit {
        break;
      }
      var messageTokens := Count(recent[dropped - 1].content);
      if dropped < |recent| && selectedTokens + messageTokens > budget {
        break;
      }
      TotalFrom(recent, dropped - 1);
      dropped := dropped - 1;
      selectedTokens := selectedTokens + messageTokens;
      if selectedTokens >= budget {
        break;
      }
    }
  }

  lemma TotalFrom(messages: seq<Message>, i: nat)
    requires i < |messages|
    ensures Total(messages[i..]) == Count(messages[i].content) + Total(messages[i + 1..])
  {
    hide Count;
    assert messages[i..][1..] == messages[i + 1..];
  }

  datatype Filled = Filled(history: seq<Note>, truncated: nat)

  function NoteOf(message: Message): Note {
    Note(message.role, message.content)
  }

  /** The second loop, over the selected messages in order, from the `i`-th on. */
  function Fill(selected: seq<Message>, i: nat, remaining: int, minimum: int): Filled
    requires i <= |selected|
    decreases |selected| - i
  {
    if i == |selected| then Filled([], 0)
    else
      var message := selected[i];
      if Count(message.content) <= Max(0, remaining) then
        var rest := Fill(selected, i + 1, remaining - Count(message.content), minimum);
        Filled([NoteOf(message)] + rest.history, rest.truncated)
      else if i < |selected| - 1 then
        Fill(selected, i + 1, remaining, minimum)
      else
        Filled([Note(message.role, Truncated(message.content, Max(minimum, Max(0, remaining))))], 1)
  }

  method FillHistory(selected: seq<Message>, budget: int, minimum: int) returns (filled: Filled)
    ensures filled == Fill(selected, 0, budget, minimum)
  {
    hide Count, Truncated;
    var history: seq<Note> := [];
    var truncated := 0;
    var remaining := budget;
    var i := 0;
    while i < |selected|
      invariant 0 <= i <= |selected|
      invariant var rest := Fill(selected, i, remaining, minimum);
                Fill(selected, 0, budget, minimum) == Filled(history + rest.history, truncated + rest.truncated)
    {
      var content := selected[i].content;
      var messageTokens := Count(content);
      var isLatest := i == |selected| - 1;
      var allowed := Max(0, remaining);
      if messageTokens > allowed {
        if !isLatest {
          i := i + 1;
          continue;
        }
        allowed := Max(minimum, allowed);
        content := Truncate(content, allowed);
        messageTokens := Count(content);
        truncated := truncated + 1;
      }
      history := history + [Note(selected[i].role, content)];
      remaining := remaining - messageTokens;
      i := i + 1;
    }
    filled := Filled(history, truncated);
  }

  // ---- The whole preparation -----------------------------------------------------------------------

  /** The summary columns once the first `dropped` messages of `recent` are moved into the summary. */
  function Absorbed(before: Rolling, recent: seq<Message>, dropped: nat, summaryBudget: int): Rolling
    requires dropped <= |recent|
  {
    if dropped == 0 then before
    else
      var summary := Summary(before.text, recent[..dropped], Max(64, summaryBudget));
      Rolling(Some(summary), Some(recent[dropped - 1].id), before.count + dropped, Count(summary))
  }

  function UsageOf(policy: Policy, prompt: string, memories: seq<string>,
                   filled: Filled, dropped: nat, summary: Option<string>): Usage
  {
    var memoryTokens := Count(MemoryText(policy, memories));
    var estimated := policy.systemReserved + policy.toolReserved + Count(prompt)
                     + Count(TextOf(summary)) + NotesTotal(filled.history) + memoryTokens;
    Usage(policy.maxInput, estimated, Count(prompt), NotesTotal(filled.history), Count(TextOf(summary)), memoryTokens,
          policy.systemReserved, policy.toolReserved, policy.outputReserved,
          |filled.history|, |MemoryLines(memories)|, dropped, filled.truncated,
          TextOf(summary) != "", dropped > 0, estimated > policy.maxInput)
  }

  /** What one call returns and leaves behind, when the messages before the current one are `previous`. */
  function Preparation(before: Rolling, previous: seq<Message>, prompt: string, policy: Policy, memories: seq<string>)
    : Outcome
  {
    var recent := previous[Covered(previous, before.through)..];
    var budget := HistoryBudget(policy, prompt, memories);
    var recentBudget := RecentBudget(before.text, recent, policy, budget);
    var dropped := Dropped(recent, policy.recentMessageLimit, recentBudget);
    var filled := Fill(recent[dropped..], 0, recentBudget, policy.minimumRecent);
    var after := Absorbed(before, recent, dropped, SummaryBudget(before.text, recent, policy, budget));
    var memory := MemoryText(policy, memories);
    Outcome(Prepared(filled.history, after.text, if memory == "" then None else Some(memory),
                     UsageOf(policy, prompt, memories, filled, dropped, after.text)),
            after)
  }

  method ChooseHistory(text: Option<string>, recent: seq<Message>, policy: Policy, historyBudget: int)
    returns (dropped: nat, filled: Filled, summaryBudget: int)
    ensures summaryBudget == SummaryBudget(text, recent, policy, historyBudget)
    ensures var budget := RecentBudget(text, recent, policy, historyBudget);
            && dropped == Dropped(recent, policy.recentMessageLimit, budget)
            && filled == Fill(recent[dropped..], 0, budget, policy.minimumRecent)
  {
    hide Count, Truncated, Total, SelectFrom, Fill, Dropped;
    var needsSummarySpace :=
      || TextOf(text) != ""
      || |recent| > policy.recentMessageLimit
      || Total(recent) > historyBudget;
    summaryBudget := if needsSummarySpace then Min(policy.summaryMax, Max(64, historyBudget / 3)) else 0;
    var recentBudget := Max(policy.minimumRecent, historyBudget - summaryBudget);
    dropped := SelectRecent(recent, policy.recentMessageLimit, recentBudget);
    filled := FillHistory(recent[dropped..], recentBudget, policy.minimumRecent);
  }

  method PrepareSessionContext(conversation: Conversation?, messages: seq<Message>, currentId: nat, prompt: string,
                               policy: Policy, memories: seq<string>)
    returns (r: Result<Prepared, Missing>)
    modifies conversation
    ensures conversation == null ==> r == Failure(SessionMissing)
    ensures conversation != null ==>
      var current := IndexFrom(messages, currentId, 0);
      && (current.None? ==> r == Failure(MessageMissing) && conversation.State() == old(conversation.State()))
      && (current.Some? ==>
            var outcome := Preparation(old(conversation.State()), messages[..current.value], prompt, policy, memories);
            r == Success(outcome.prepared) && conversation.State() == outcome.after)
  {
    hide Preparation;
    if conversation == null {
      return Failure(SessionMissing);
    }
    var current := FindIndex(messages, currentId);
    if current.None? {
      return Failure(MessageMissing);
    }
    var prepared := conversation.Prepare(messages[..current.value], prompt, policy, memories);
    r := Success(prepared);
  }
}
