/**
  What one preparation of a context returns and stores, number by number and text by text, from the
  conversation, the prompt, the limits and the recalled memories.
 */
module ContextOutcomes {
  import opened Context
  import opened ContextTheorems
  import opened Sequences
  import opened Summaries
  import opened Texts
  import opened Tokens
  import opened Wrappers

  // ---- Sums ----------------------------------------------------------------------------------------

  function Counts(messages: seq<Message>): seq<int> {
    seq(|messages|, i requires 0 <= i < |messages| => Count(messages[i].content))
  }

  function NoteCounts(notes: seq<Note>): seq<int> {
    seq(|notes|, i requires 0 <= i < |notes| => Count(notes[i].content))
  }

  lemma {:induction false} TotalIsSum(messages: seq<Message>)
    ensures Total(messages) == SumInts(Counts(messages))
  {
    hide Count;
    if messages != [] {
      TotalIsSum(messages[1..]);
      assert Counts(messages)[1..] == Counts(messages[1..]);
    }
  }

  lemma {:induction false} NotesTotalIsSum(notes: seq<Note>)
    ensures NotesTotal(notes) == SumInts(NoteCounts(notes))
  {
    hide Count;
    if notes != [] {
      NotesTotalIsSum(notes[1..]);
      assert NoteCounts(notes)[1..] == NoteCounts(notes[1..]);
    }
  }

  // ---- Memories ------------------------------------------------------------------------------------

  /** A dash, a blank and the memory with every run of white space made one blank. */
  ghost predicate IsMemoryLine(line: string, memory: string) {
    exists words: seq<string>, gaps: seq<string> ::
      line == "- " + Join(" ", words) && Separates(words, gaps) && Laid(words, gaps) == memory
  }

  /** One line for each memory at the positions `at`: all that are not blank, in order. */
  ghost predicate Listed(memories: seq<string>, lines: seq<string>, at: seq<nat>) {
    && |lines| == |at| && Increasing(at, |memories|)
    && (forall j: nat | j < |memories| :: j in at <==> !Blank(memories[j]))
    && (forall i | 0 <= i < |at| :: IsMemoryLine(lines[i], memories[at[i]]))
  }

  lemma LineIs(memory: string)
    ensures IsMemoryLine("- " + Normalized(memory), memory)
  {
    hide Separates, Laid, Join, Words;
    var gaps := WordsAre(memory);
    assert Normalized(memory) == Join(" ", Words(memory));
  }

  lemma {:induction false} OneMoreLine(memories: seq<string>, memory: string)
    ensures MemoryLines(memories + [memory])
         == MemoryLines(memories) + if Strip(memory) == "" then [] else ["- " + Normalized(memory)]
  {
    hide Strip, Normalized, Join, Words;
    if memories == [] {
      assert [memory][1..] == [];
      assert memories + [memory] == [memory];
    } else {
      OneMoreLine(memories[1..], memory);
      assert (memories + [memory])[1..] == memories[1..] + [memory] && (memories + [memory])[0] == memories[0];
      var first := if Strip(memories[0]) == "" then [] else ["- " + Normalized(memories[0])];
      assert MemoryLines(memories + [memory]) == first + MemoryLines(memories[1..] + [memory]);
      assert MemoryLines(memories) == first + MemoryLines(memories[1..]);
    }
  }

  lemma {:induction false} LinesAre(memories: seq<string>) returns (at: seq<nat>)
    ensures Listed(memories, MemoryLines(memories), at)
  {
    hide Strip, Normalized, Listed, Blank, MemoryLines;
    at := [];
    if memories == [] {
      NoLines(memories);
    } else {
      var init, last := memories[..|memories| - 1], memories[|memories| - 1];
      at := LinesAre(init);
      assert memories == init + [last];
      OneMoreLine(init, last);
      OneMoreListed(init, last, MemoryLines(init), at);
      BlankIs(last);
      if Strip(last) == "" {
        assert MemoryLines(init) + [] == MemoryLines(init);
      } else {
        at := at + [|init|];
      }
    }
  }

  lemma NoLines(memories: seq<string>)
    requires memories == []
    ensures Listed(memories, MemoryLines(memories), [])
  {
  }

  lemma OneMoreListed(memories: seq<string>, memory: string, lines: seq<string>, at: seq<nat>)
    requires Listed(memories, lines, at)
    ensures if Blank(memory) then Listed(memories + [memory], lines, at)
            else Listed(memories + [memory], lines + ["- " + Normalized(memory)], at + [|memories|])
  {
    hide Blank, Normalized, IsMemoryLine;
    LineIs(memory);
    var more := memories + [memory];
    forall j: nat | j < |more| ensures j in at + [|memories|] <==> j in at || j == |memories| {
    }
    forall i | 0 <= i < |at| ensures more[at[i]] == memories[at[i]] {
    }
  }

  lemma LinesAreNotEmpty(lines: seq<string>)
    requires forall i | 0 <= i < |lines| :: lines[i] != ""
    ensures Join("\n", lines) == "" <==> lines == []
  {
  }

  /** Every memory that is not blank reaches the prepared context, in order, one to a line. The lines are
      cut only when they count more than the limit, and then only as far as needed. */
  lemma MemoriesAreShown(before: Rolling, previous: seq<Message>, prompt: string, policy: Policy,
                         memories: seq<string>)
    returns (lines: seq<string>, at: seq<nat>)
    ensures Listed(memories, lines, at)
    ensures var p := Preparation(before, previous, prompt, policy, memories).prepared;
            var text := Join("\n", lines);
            && p.usage.memoriesRecalled == |lines|
            && p.usage.longTermMemory == Count(if p.longTermMemory.Some? then p.longTermMemory.value else "")
            && (policy.memoryMax <= 0 ==> p.longTermMemory.None?)
            && (0 < policy.memoryMax && Count(text) <= policy.memoryMax ==>
                  p.longTermMemory == if lines == [] then None else Some(text))
            && (0 < policy.memoryMax < Count(text) ==>
                  p.longTermMemory.Some? && CutTo(text, p.longTermMemory.value, policy.memoryMax))
  {
    hide Count, Truncated, Join, Absorbed, Fill, Dropped, Covered, NotesTotal, MemoryLines, CutTo, HistoryBudget,
         RecentBudget, SummaryBudget, IsMemoryLine, TextOf;
    lines := MemoryLines(memories);
    at := LinesAre(memories);
    LinesBegin(memories, lines, at);
    LinesAreNotEmpty(lines);
    TruncatedIs(Join("\n", lines), policy.memoryMax);
    CutIsNotEmpty(Join("\n", lines), MemoryText(policy, memories), policy.memoryMax);
  }

  lemma CutIsNotEmpty(text: string, cut: string, maxTokens: int)
    ensures CutTo(text, cut, maxTokens) ==> cut != ""
  {
    hide Count;
  }

  lemma LinesBegin(memories: seq<string>, lines: seq<string>, at: seq<nat>)
    requires Listed(memories, lines, at)
    ensures forall i | 0 <= i < |lines| :: lines[i] != ""
  {
    hide Join, Separates, Laid, Blank;
    forall i | 0 <= i < |lines| ensures lines[i] != "" {
      assert IsMemoryLine(lines[i], memories[at[i]]);
    }
  }

  // ---- Shares of the input limit ---------------------------------------------------------------------

  /** The messages no summary covers start behind the first one with the cursor's id, or at the first. */
  predicate BehindCursor(previous: seq<Message>, through: Option<nat>, covered: nat) {
    && covered <= |previous|
    && (covered > 0 ==>
          && through == Some(previous[covered - 1].id)
          && forall k | 0 <= k < covered - 1 :: previous[k].id != previous[covered - 1].id)
    && (covered == 0 && through.Some? ==> forall k | 0 <= k < |previous| :: previous[k].id != through.value)
  }

  /** How the room for the conversation is shared: a third for the summary, within its own limits, if there
      is one already or the messages need one, and the rest for recent messages. */
  predicate Shares(text: Option<string>, recent: seq<Message>, policy: Policy, room: int, summaryShare: int,
                   recentShare: int)
  {
    var needed := || (text.Some? && text.value != "") || |recent| > policy.recentMessageLimit
                  || SumInts(Counts(recent)) > room;
    var third := if room / 3 >= 64 then room / 3 else 64;
    && summaryShare == (if !needed then 0 else if policy.summaryMax <= third then policy.summaryMax else third)
    && recentShare
       == (if policy.minimumRecent >= room - summaryShare then policy.minimumRecent else room - summaryShare)
  }

  lemma SharesAre(text: Option<string>, recent: seq<Message>, policy: Policy, room: int)
    ensures Shares(text, recent, policy, room, SummaryBudget(text, recent, policy, room),
                   RecentBudget(text, recent, policy, room))
  {
    hide Count, Total, Counts, SumInts;
    TotalIsSum(recent);
  }

  lemma CursorIs(previous: seq<Message>, through: Option<nat>)
    ensures BehindCursor(previous, through, Covered(previous, through))
  {
    hide IndexFrom;
  }

  /** What is stored: nothing new if no message is dropped, else the summary of the dropped ones, written with
      its share of the budget, and the cursor behind them. */
  predicate Stores(before: Rolling, recent: seq<Message>, dropped: nat, summaryShare: int, after: Rolling)
    requires dropped <= |recent|
  {
    if dropped == 0 then after == before
    else
      && after.text == Some(Summary(before.text, recent[..dropped], if summaryShare >= 64 then summaryShare else 64))
      && after.through == Some(recent[dropped - 1].id) && after.count == before.count + dropped
      && after.tokens == Count(after.text.value)
  }

  lemma StoredIs(before: Rolling, recent: seq<Message>, dropped: nat, summaryShare: int)
    requires dropped <= |recent|
    ensures Stores(before, recent, dropped, summaryShare, Absorbed(before, recent, dropped, summaryShare))
  {
    hide Count, Summary;
  }

  /** What is shown: every other message with its role, whole unless it is the only one and too long. */
  predicate Shown(recent: seq<Message>, dropped: nat, policy: Policy, recentShare: int, history: seq<Note>,
                  truncated: nat)
    requires dropped <= |recent|
  {
    && |history| == |recent| - dropped
    && (forall i | 0 <= i < |history| ::
          && history[i].role == recent[dropped + i].role
          && (truncated == 0 ==> history[i].content == recent[dropped + i].content))
    && (truncated != 0 ==>
          && truncated == 1 && |history| == 1 && Count(recent[dropped].content) > recentShare
          && history[0].content
             == Truncated(recent[dropped].content, Max(policy.minimumRecent, Max(0, recentShare))))
  }

  lemma ShownIs(recent: seq<Message>, policy: Policy, recentShare: int)
    ensures var dropped := Dropped(recent, policy.recentMessageLimit, recentShare);
            var filled := Fill(recent[dropped..], 0, recentShare, policy.minimumRecent);
            Shown(recent, dropped, policy, recentShare, filled.history, filled.truncated)
  {
    hide Count, Truncated, Fill, Dropped;
    SelectedAreShown(recent, policy.recentMessageLimit, recentShare, policy.minimumRecent);
  }

  /** One call: the messages behind the cursor are shared out between the summary, which takes the oldest
      that the greedy choice leaves, and the history. */
  lemma CallOutcome(before: Rolling, previous: seq<Message>, prompt: string, policy: Policy, memories: seq<string>)
    returns (covered: nat, room: int, summaryShare: int, recentShare: int)
    ensures BehindCursor(previous, before.through, covered)
    ensures var outcome := Preparation(before, previous, prompt, policy, memories);
            var p, u := outcome.prepared, outcome.prepared.usage;
            var rest := policy.maxInput - policy.systemReserved - policy.toolReserved - Count(prompt)
                        - u.longTermMemory;
            && room == (if policy.minimumRecent >= rest then policy.minimumRecent else rest)
            && var recent, dropped := previous[covered..], u.messagesSummarized;
            && Shares(before.text, recent, policy, room, summaryShare, recentShare)
            && dropped <= |recent| && IsGreedy(recent, dropped, policy.recentMessageLimit, recentShare)
            && Stores(before, recent, dropped, summaryShare, outcome.after) && p.summary == outcome.after.text
            && Shown(recent, dropped, policy, recentShare, p.history, u.messagesTruncated)
  {
    hide Count, Truncated, Absorbed, Covered, Fill, IsGreedy, NotesTotal, MemoryLines, MemoryText, Dropped, Shares,
         Stores, Shown, BehindCursor, SummaryBudget, RecentBudget;
    covered := Covered(previous, before.through);
    CursorIs(previous, before.through);
    var recent := previous[covered..];
    room := HistoryBudget(policy, prompt, memories);
    summaryShare := SummaryBudget(before.text, recent, policy, room);
    recentShare := RecentBudget(before.text, recent, policy, room);
    SharesAre(before.text, recent, policy, room);
    NothingTaken(recent, policy.recentMessageLimit, recentShare);
    StoredIs(before, recent, Dropped(recent, policy.recentMessageLimit, recentShare), summaryShare);
    ShownIs(recent, policy, recentShare);
  }

  /** The reported usage: every share counted on what is returned, their sum as the estimate, and a warning
      exactly when the sum exceeds the limit. */
  lemma UsageIs(before: Rolling, previous: seq<Message>, prompt: string, policy: Policy, memories: seq<string>)
    ensures var p := Preparation(before, previous, prompt, policy, memories).prepared;
            var u, summary := p.usage, if p.summary.Some? then p.summary.value else "";
            && u.currentMessage == Count(prompt) && u.summary == Count(summary)
            && u.history == SumInts(NoteCounts(p.history)) && u.historyMessagesUsed == |p.history|
            && u.estimatedInput == u.systemReserved + u.toolReserved + u.currentMessage + u.summary + u.history
                                   + u.longTermMemory
            && u.systemReserved == policy.systemReserved && u.toolReserved == policy.toolReserved
            && u.outputReserved == policy.outputReserved && u.maxInput == policy.maxInput
            && (u.overBudget <==> u.estimatedInput > policy.maxInput)
            && (u.summaryPresent <==> summary != "") && (u.summaryUpdated <==> u.messagesSummarized > 0)
  {
    hide Count, Absorbed, Fill, Dropped, Covered, NotesTotal, MemoryLines, MemoryText, HistoryBudget, RecentBudget,
         SummaryBudget, NoteCounts, SumInts;
    NotesTotalIsSum(Preparation(before, previous, prompt, policy, memories).prepared.history);
  }
}
