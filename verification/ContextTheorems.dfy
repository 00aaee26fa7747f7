/**
  What the context assembly guarantees: no message is lost, the token budget holds, the summary cursor
  counts what it covers, and exactly when repeating a call changes nothing.
 */
module ContextTheorems {
  import opened Context
  import opened Summaries
  import opened Tokens
  import opened Wrappers

  // ---- The greedy selection, said without its loop --------------------------------------------------

  /** Keeping `recent[d..]` is the greedy choice: within the limits, unless it is a single message, never
      continued past the budget, and stopped only for a reason. */
  predicate IsGreedy(recent: seq<Message>, d: nat, limit: int, budget: int)
    requires d <= |recent|
  {
    && |recent| - d <= Max(0, limit)
    && (d + 2 <= |recent| ==> Total(recent[d..]) <= budget)
    && (forall k {:trigger recent[k..]} | d < k < |recent| :: Total(recent[k..]) < budget)
    && (d > 0 ==>
          || |recent| - d >= limit
          || (d < |recent| && (Total(recent[d..]) >= budget || Total(recent[d - 1..]) > budget)))
  }

  lemma {:induction false} SelectFromIsGreedy(recent: seq<Message>, from: nat, limit: int, budget: int)
    requires from <= |recent|
    requires |recent| - from <= Max(0, limit)
    requires from + 2 <= |recent| ==> Total(recent[from..]) <= budget
    requires forall k {:trigger recent[k..]} | from <= k < |recent| :: Total(recent[k..]) < budget
    ensures IsGreedy(recent, SelectFrom(recent, from, limit, budget), limit, budget)
    decreases from
  {
    hide Count;
    if from > 0 && |recent| - from < limit {
      TotalFrom(recent, from - 1);
      var withNext := Total(recent[from - 1..]);
      if !(from < |recent| && withNext > budget) && withNext < budget {
        SelectFromIsGreedy(recent, from - 1, limit, budget);
      }
    }
  }

  lemma GreedyIsUnique(recent: seq<Message>, d: nat, e: nat, limit: int, budget: int)
    requires d <= e <= |recent|
    requires IsGreedy(recent, d, limit, budget) && IsGreedy(recent, e, limit, budget)
    ensures d == e
  {
    hide Total;
  }

  /** The first loop keeps exactly the greedy choice. */
  lemma SelectionIsGreedy(recent: seq<Message>, d: nat, limit: int, budget: int)
    requires d <= |recent|
    ensures d == Dropped(recent, limit, budget) <==> IsGreedy(recent, d, limit, budget)
  {
    hide Total, IsGreedy;
    var chosen := Dropped(recent, limit, budget);
    NothingTaken(recent, limit, budget);
    if IsGreedy(recent, d, limit, budget) {
      if d <= chosen {
        GreedyIsUnique(recent, d, chosen, limit, budget);
      } else {
        GreedyIsUnique(recent, chosen, d, limit, budget);
      }
    }
  }

  lemma NothingTaken(recent: seq<Message>, limit: int, budget: int)
    ensures IsGreedy(recent, Dropped(recent, limit, budget), limit, budget)
  {
    hide Total, IsGreedy;
    SelectFromIsGreedy(recent, |recent|, limit, budget);
  }

  // ---- The second loop keeps everything the first selected -----------------------------------------

  function NotesOf(messages: seq<Message>): (r: seq<Note>)
    ensures |r| == |messages|
    ensures forall i | 0 <= i < |messages| :: r[i] == NoteOf(messages[i])
  {
    if messages == [] then [] else [NoteOf(messages[0])] + NotesOf(messages[1..])
  }

  lemma {:induction false} FillKeepsAll(selected: seq<Message>, i: nat, remaining: int, minimum: int)
    requires i <= |selected| && Total(selected[i..]) <= Max(0, remaining)
    ensures Fill(selected, i, remaining, minimum) == Filled(NotesOf(selected[i..]), 0)
    decreases |selected| - i
  {
    hide Count, Truncated;
    if i < |selected| {
      TotalFrom(selected, i);
      FillKeepsAll(selected, i + 1, remaining - Count(selected[i].content), minimum);
      assert selected[i..][1..] == selected[i + 1..];
    }
  }

  /** The latest message is cut when it is the only one kept and exceeds the budget by itself. */
  predicate LatestIsCut(selected: seq<Message>, budget: int) {
    |selected| == 1 && Count(selected[0].content) > Max(0, budget)
  }

  /** The second loop never skips a message, and cuts nothing but a sole oversized one. */
  lemma SelectedAreShown(recent: seq<Message>, limit: int, budget: int, minimum: int)
    ensures var selected := recent[Dropped(recent, limit, budget)..];
            Fill(selected, 0, budget, minimum) ==
              if LatestIsCut(selected, budget)
              then Filled([Note(selected[0].role, Truncated(selected[0].content, Max(minimum, Max(0, budget))))], 1)
              else Filled(NotesOf(selected), 0)
  {
    hide Count, Truncated, Dropped;
    var d := Dropped(recent, limit, budget);
    var selected := recent[d..];
    NothingTaken(recent, limit, budget);
    if |selected| == 1 {
      TotalFrom(selected, 0);
    }
    assert selected[0..] == selected;
    if !LatestIsCut(selected, budget) {
      FillKeepsAll(selected, 0, budget, minimum);
    }
  }

  // ---- No message is lost --------------------------------------------------------------------------

  predicate DistinctIds(messages: seq<Message>) {
    forall i, j | 0 <= i < j < |messages| :: messages[i].id != messages[j].id
  }

  /** With distinct ids, the cursor at the n-th message covers exactly n messages, in every longer list. */
  lemma CoveredUpTo(messages: seq<Message>, n: nat)
    requires DistinctIds(messages) && 0 < n <= |messages|
    ensures Covered(messages, Some(messages[n - 1].id)) == n
  {
    var found := IndexFrom(messages, messages[n - 1].id, 0);
    assert found.Some?;
  }

  /** One call advances the cursor by what it drops, and by nothing else. */
  lemma CursorAdvances(before: Rolling, previous: seq<Message>, prompt: string, policy: Policy, memories: seq<string>)
    requires DistinctIds(previous)
    ensures var outcome := Preparation(before, previous, prompt, policy, memories);
            && Covered(previous, outcome.after.through)
               == Covered(previous, before.through) + outcome.prepared.usage.messagesSummarized
            && outcome.after.count == before.count + outcome.prepared.usage.messagesSummarized
  {
    hide Count, Truncated, Summary, Fill, SelectFrom, Total, MemoryText, HistoryBudget, RecentBudget, SummaryBudget;
    var d := Preparation(before, previous, prompt, policy, memories).prepared.usage.messagesSummarized;
    if d > 0 {
      CoveredUpTo(previous, Covered(previous, before.through) + d);
    }
  }

  /** Where the messages shown in full begin: right behind the cursor, which never moves backwards. */
  predicate ShownBehindCursor(previous: seq<Message>, covered: nat, history: seq<Note>) {
    && covered + |history| == |previous|
    && (forall i | 0 <= i < |history| :: history[i].role == previous[covered + i].role)
    && (|history| != 1 ==> history == NotesOf(previous[covered..]))
  }

  /** The messages the cursor covers after the call, followed by those in the history, are all earlier
      messages in order. All of them are shown whole, except that a sole oversized message is cut. */
  lemma NoMessageLost(before: Rolling, previous: seq<Message>, prompt: string, policy: Policy, memories: seq<string>)
    requires DistinctIds(previous)
    ensures var outcome := Preparation(before, previous, prompt, policy, memories);
            var covered := Covered(previous, outcome.after.through);
            && covered >= Covered(previous, before.through)
            && ShownBehindCursor(previous, covered, outcome.prepared.history)
            && (outcome.prepared.usage.messagesTruncated == 0 ==>
                  outcome.prepared.history == NotesOf(previous[covered..]))
            && (outcome.prepared.usage.messagesTruncated > 0 ==> |outcome.prepared.history| == 1)
  {
    hide Count, Truncated, Absorbed, Fill, Dropped, MemoryText, HistoryBudget, RecentBudget, SummaryBudget,
         Covered, NotesTotal, MemoryLines, TextOf, DistinctIds;
    CursorAdvances(before, previous, prompt, policy, memories);
    var start := Covered(previous, before.through);
    var recent := previous[start..];
    var budget := RecentBudget(before.text, recent, policy, HistoryBudget(policy, prompt, memories));
    SelectedAreShown(recent, policy.recentMessageLimit, budget, policy.minimumRecent);
    var d := Dropped(recent, policy.recentMessageLimit, budget);
    assert recent[d..] == previous[start + d..];
  }

  // ---- The token budget ----------------------------------------------------------------------------

  lemma {:induction false} NotesTotalIs(messages: seq<Message>)
    ensures NotesTotal(NotesOf(messages)) == Total(messages)
  {
    hide Count;
    if messages != [] {
      NotesTotalIs(messages[1..]);
    }
  }

  lemma NoteTotal(note: Note)
    ensures NotesTotal([note]) == Count(note.content)
  {
    hide Count;
    assert [note][1..] == [];
  }

  /** The shown messages stay within a positive budget, unless a sole message is cut to a budget that has
      no room for the truncation marker. */
  lemma HistoryFits(recent: seq<Message>, limit: int, budget: int, minimum: int)
    requires 0 < budget && minimum <= budget
    ensures var selected := recent[Dropped(recent, limit, budget)..];
            NotesTotal(Fill(selected, 0, budget, minimum).history) <= budget <==>
              || !LatestIsCut(selected, budget)
              || budget > SUFFIX_TOKENS
              || (budget == SUFFIX_TOKENS && IsCjk(selected[0].content[0]))
  {
    hide Count, Truncated, Dropped, Fill, IsCjk;
    var d := Dropped(recent, limit, budget);
    var selected := recent[d..];
    SelectedAreShown(recent, limit, budget, minimum);
    NothingTaken(recent, limit, budget);
    if LatestIsCut(selected, budget) {
      EmptyCount();
      TruncationFits(selected[0].content, budget);
      NoteTotal(Note(selected[0].role, Truncated(selected[0].content, budget)));
    } else {
      NotesTotalIs(selected);
      if |selected| == 1 {
        TotalFrom(selected, 0);
        assert selected[0..] == selected;
      }
    }
  }

  /** A summary written by the call counts at most `max(64, summaryBudget)`. */
  lemma WrittenSummaryFits(before: Rolling, recent: seq<Message>, dropped: nat, summaryBudget: int)
    requires 0 < dropped <= |recent|
    ensures var after := Absorbed(before, recent, dropped, summaryBudget);
            && after.tokens == Count(TextOf(after.text)) <= Max(64, summaryBudget)
            && TextOf(after.text) != ""
  {
    hide Count, Summary;
    SummaryFits(before.text, recent[..dropped], Max(64, summaryBudget));
  }

  /** The estimate stays within the input limit whenever the limit leaves room for the minimum of recent
      messages besides the summary, and the summary in use fits its share. */
  lemma WithinBudget(before: Rolling, previous: seq<Message>, prompt: string, policy: Policy, memories: seq<string>)
    requires var recent := previous[Covered(previous, before.through)..];
             var share := SummaryBudget(before.text, recent, policy, HistoryBudget(policy, prompt, memories));
             && share >= 0 && policy.minimumRecent > SUFFIX_TOKENS
             && RawBudget(policy, prompt, memories) >= policy.minimumRecent + share
             && Preparation(before, previous, prompt, policy, memories).prepared.usage.summary <= share
    ensures !Preparation(before, previous, prompt, policy, memories).prepared.usage.overBudget
  {
    hide Count, MemoryText, Absorbed, Covered, SummaryBudget, Fill, Dropped, LatestIsCut, NotesTotal, MemoryLines;
    var recent := previous[Covered(previous, before.through)..];
    var budget := RecentBudget(before.text, recent, policy, HistoryBudget(policy, prompt, memories));
    HistoryFits(recent, policy.recentMessageLimit, budget, policy.minimumRecent);
  }

  // ---- Repeating a call ----------------------------------------------------------------------------

  /** Without a summary, a message is moved into one only when the budget is used up to the last token and
      the oldest message counts no token at all. */
  predicate QuietlyDrops(recent: seq<Message>, historyBudget: int) {
    recent != [] && Count(recent[0].content) == 0 && Total(recent) == historyBudget
  }

  lemma {:induction false} LaterTotal(recent: seq<Message>, k: nat)
    requires k <= |recent|
    ensures Total(recent[k..]) <= Total(recent)
    ensures k > 0 ==> Total(recent[k..]) + Count(recent[0].content) <= Total(recent)
  {
    hide Count;
    if k == 0 {
      assert recent[0..] == recent;
    } else if k == 1 {
    } else {
      LaterTotal(recent[1..], k - 1);
      assert recent[1..][k - 1..] == recent[k..];
    }
  }

  lemma DropsWithoutNeed(text: Option<string>, recent: seq<Message>, policy: Policy, historyBudget: int)
    requires historyBudget > 0 && policy.minimumRecent <= historyBudget
    requires !NeedsSummarySpace(text, recent, policy, historyBudget)
    ensures RecentBudget(text, recent, policy, historyBudget) == historyBudget
    ensures Dropped(recent, policy.recentMessageLimit, historyBudget) > 0 <==> QuietlyDrops(recent, historyBudget)
    ensures var d := Dropped(recent, policy.recentMessageLimit, historyBudget);
            d > 0 ==> Total(recent[d..]) == historyBudget && d < |recent|
  {
    hide Count, Total, Dropped, TextOf;
    var d := Dropped(recent, policy.recentMessageLimit, historyBudget);
    NothingTaken(recent, policy.recentMessageLimit, historyBudget);
    LaterTotal(recent, d);
    if d > 0 {
      LaterTotal(recent, d - 1);
      WholeTotal(recent);
    } else if QuietlyDrops(recent, historyBudget) {
      WholeTotal(recent);
      if |recent| == 1 {
        NoTotal(recent[1..]);
      }
    }
  }

  lemma WholeTotal(recent: seq<Message>)
    requires recent != []
    ensures Total(recent) == Count(recent[0].content) + Total(recent[1..])
    ensures recent[0..] == recent
  {
  }

  lemma NoTotal(messages: seq<Message>)
    requires messages == []
    ensures Total(messages) == 0
  {
  }

  function DroppedFor(text: Option<string>, recent: seq<Message>, policy: Policy, historyBudget: int): (r: nat)
    ensures r <= |recent|
  {
    Dropped(recent, policy.recentMessageLimit, RecentBudget(text, recent, policy, historyBudget))
  }

  function ShownFor(text: Option<string>, recent: seq<Message>, policy: Policy, historyBudget: int): seq<Note> {
    Fill(recent[DroppedFor(text, recent, policy, historyBudget)..], 0,
         RecentBudget(text, recent, policy, historyBudget), policy.minimumRecent).history
  }

  /** A caller can tell before the call whether a repetition will return the same history: it will not when
      this call starts a summary without needing one, and that summary then takes room from the messages. */
  predicate Repeatable(text: Option<string>, recent: seq<Message>, policy: Policy, historyBudget: int) {
    || NeedsSummarySpace(text, recent, policy, historyBudget)
    || !QuietlyDrops(recent, historyBudget)
    || policy.summaryMax <= 0
    || historyBudget <= policy.minimumRecent
  }

  /** What is kept under one budget is kept again under it, or under any other that it fits. */
  lemma KeptAgain(recent: seq<Message>, limit: int, budget: int, again: int)
    requires var kept := recent[Dropped(recent, limit, budget)..];
             budget == again || (budget <= again && Total(kept) <= again)
    ensures Dropped(recent[Dropped(recent, limit, budget)..], limit, again) == 0
  {
    hide Count, Total, Dropped;
    var d := Dropped(recent, limit, budget);
    NothingTaken(recent, limit, budget);
    var kept := recent[d..];
    assert kept[0..] == kept;
    forall k {:trigger kept[k..]} | 0 < k < |kept| ensures Total(kept[k..]) < again {
      assert kept[k..] == recent[d + k..];
    }
    SelectionIsGreedy(kept, 0, limit, again);
  }

  lemma SummaryTakesRoom(text: Option<string>, recent: seq<Message>, policy: Policy, historyBudget: int)
    requires TextOf(text) != "" && policy.minimumRecent <= historyBudget
    ensures var budget := RecentBudget(text, recent, policy, historyBudget);
            && budget >= policy.minimumRecent
            && (budget < historyBudget <==> policy.summaryMax > 0 && policy.minimumRecent < historyBudget)
  {
    hide TextOf, Total, Count;
  }

  /** The shown messages when the kept ones fit the budget. */
  lemma ShownWhole(selected: seq<Message>, budget: int, minimum: int)
    requires Total(selected) <= budget
    ensures Fill(selected, 0, budget, minimum).history == NotesOf(selected)
  {
    hide Count, Truncated, Fill, Total;
    assert selected[0..] == selected;
    FillKeepsAll(selected, 0, budget, minimum);
  }

  /** Case 1: the first call already had a summary in view. */
  lemma RepeatedWithNeed(text: Option<string>, later: Option<string>, recent: seq<Message>, policy: Policy, budget: int)
    requires TextOf(later) != "" && NeedsSummarySpace(text, recent, policy, budget)
    ensures var kept := recent[DroppedFor(text, recent, policy, budget)..];
            && DroppedFor(later, kept, policy, budget) == 0
            && ShownFor(later, kept, policy, budget) == ShownFor(text, recent, policy, budget)
  {
    hide Count, Total, Dropped, Fill, TextOf;
    KeptAgain(recent, policy.recentMessageLimit, RecentBudget(text, recent, policy, budget),
              RecentBudget(text, recent, policy, budget));
    var kept := recent[DroppedFor(text, recent, policy, budget)..];
    assert kept[0..] == kept;
  }

  /** Case 2: the first call dropped messages without needing a summary. */
  lemma RepeatedWithoutNeed(text: Option<string>, later: Option<string>, recent: seq<Message>, policy: Policy,
                            budget: int)
    requires TextOf(later) != "" && !NeedsSummarySpace(text, recent, policy, budget)
    requires SUFFIX_TOKENS < policy.minimumRecent <= budget
    requires DroppedFor(text, recent, policy, budget) > 0
    ensures var kept := recent[DroppedFor(text, recent, policy, budget)..];
            && (Repeatable(text, recent, policy, budget) ==> DroppedFor(later, kept, policy, budget) == 0)
            && (ShownFor(later, kept, policy, budget) == ShownFor(text, recent, policy, budget) <==>
                Repeatable(text, recent, policy, budget))
  {
    hide Count, Total, Dropped, Fill, TextOf, NeedsSummarySpace, QuietlyDrops, RecentBudget, LatestIsCut, NotesTotal;
    DropsWithoutNeed(text, recent, policy, budget);
    var kept := recent[DroppedFor(text, recent, policy, budget)..];
    var again := RecentBudget(later, kept, policy, budget);
    SummaryTakesRoom(later, kept, policy, budget);
    ShownWhole(kept, budget, policy.minimumRecent);
    NotesTotalIs(kept);
    if again < budget {
      HistoryFits(kept, policy.recentMessageLimit, again, policy.minimumRecent);
    } else {
      KeptAgain(recent, policy.recentMessageLimit, budget, again);
      assert kept[0..] == kept;
      ShownWhole(kept, again, policy.minimumRecent);
    }
  }

  /** Repeating a call with the same message, memories and policy returns the same history exactly when the
      first call was repeatable; then it also drops nothing more and leaves the summary as it is. */
  lemma RetryIsIdempotent(before: Rolling, previous: seq<Message>, prompt: string, policy: Policy,
                          memories: seq<string>)
    requires DistinctIds(previous) && policy.minimumRecent > SUFFIX_TOKENS
    ensures var first := Preparation(before, previous, prompt, policy, memories);
            var second := Preparation(first.after, previous, prompt, policy, memories);
            var repeatable := Repeatable(before.text, previous[Covered(previous, before.through)..], policy,
                                         HistoryBudget(policy, prompt, memories));
            && (second.prepared.history == first.prepared.history <==> repeatable)
            && (repeatable ==> second.after == first.after && second.prepared.usage.messagesSummarized == 0)
  {
    hide Count, MemoryText, RawBudget, Covered, RecentBudget, SummaryBudget, Dropped, Fill, NotesTotal, MemoryLines,
         Absorbed, TextOf, NeedsSummarySpace, QuietlyDrops, Repeatable;
    var budget := HistoryBudget(policy, prompt, memories);
    var covered := Covered(previous, before.through);
    var recent := previous[covered..];
    var d := DroppedFor(before.text, recent, policy, budget);
    var first := Preparation(before, previous, prompt, policy, memories);
    CursorAdvances(before, previous, prompt, policy, memories);
    assert recent[d..] == previous[covered + d..];
    RetryCases(before, recent, policy, budget);
  }

  lemma RetryCases(before: Rolling, recent: seq<Message>, policy: Policy, budget: int)
    requires SUFFIX_TOKENS < policy.minimumRecent <= budget
    ensures var d := DroppedFor(before.text, recent, policy, budget);
            var after := Absorbed(before, recent, d, SummaryBudget(before.text, recent, policy, budget));
            && (ShownFor(after.text, recent[d..], policy, budget) == ShownFor(before.text, recent, policy, budget) <==>
                Repeatable(before.text, recent, policy, budget))
            && (Repeatable(before.text, recent, policy, budget) ==>
                  DroppedFor(after.text, recent[d..], policy, budget) == 0)
            && Absorbed(after, recent[d..], 0, SummaryBudget(after.text, recent[d..], policy, budget)) == after
  {
    hide Count, Dropped, Fill, TextOf, NeedsSummarySpace, QuietlyDrops, SummaryBudget, Summary, Total;
    var d := DroppedFor(before.text, recent, policy, budget);
    var after := Absorbed(before, recent, d, SummaryBudget(before.text, recent, policy, budget));
    if d == 0 {
      assert recent[d..] == recent;
      if !NeedsSummarySpace(before.text, recent, policy, budget) {
        DropsWithoutNeed(before.text, recent, policy, budget);
      }
    } else {
      WrittenSummaryFits(before, recent, d, SummaryBudget(before.text, recent, policy, budget));
      if NeedsSummarySpace(before.text, recent, policy, budget) {
        RepeatedWithNeed(before.text, after.text, recent, policy, budget);
      } else {
        RepeatedWithoutNeed(before.text, after.text, recent, policy, budget);
      }
    }
  }

  /** When every message counts at least one token, every call is repeatable. */
  lemma CountedMessagesAreRepeatable(text: Option<string>, recent: seq<Message>, policy: Policy, historyBudget: int)
    requires forall i | 0 <= i < |recent| :: Count(recent[i].content) >= 1
    ensures Repeatable(text, recent, policy, historyBudget)
  {
  }

  /** Why the first message has to count: in a conversation the program never stores, with an empty answer as its
      first message, the repeated call loses the long message it first showed. */
  lemma RetryCanDiffer() returns (policy: Policy, previous: seq<Message>)
    ensures policy == Policy(12000, 1400, 3200, 1800, 8, 1200, 800, 128)
    ensures DistinctIds(previous) && |previous| == 2
    ensures var first := Preparation(Rolling(None, None, 0, 0), previous, "hi", policy, []);
            var second := Preparation(first.after, previous, "hi", policy, []);
            first.prepared.history == NotesOf(previous[1..]) && second.prepared.history != first.prepared.history
  {
    policy := Policy(12000, 1400, 3200, 1800, 8, 1200, 800, 128);
    var answer := seq(29596, i => 'a');
    previous := [Message(1, "ASSISTANT", ""), Message(2, "ASSISTANT", answer)];
    CjkUniform(answer, false);
    CjkUniform("hi", false);
    EmptyCount();
    DefaultBudget(policy);
    TwoTotal(previous[0], previous[1]);
    var before := Rolling(None, None, 0, 0);
    assert previous[0..] == previous;
    assert QuietlyDrops(previous, 7399);
    RetryIsIdempotent(before, previous, "hi", policy, []);
    DropsWithoutNeed(None, previous, policy, 7399);
    ShownWhole(previous[1..], 7399, policy.minimumRecent);
  }

  lemma DefaultBudget(policy: Policy)
    requires policy == Policy(12000, 1400, 3200, 1800, 8, 1200, 800, 128)
    ensures HistoryBudget(policy, "hi", []) == 7399
  {
    CjkUniform("hi", false);
    EmptyCount();
    assert MemoryLines([]) == [];
  }

  lemma TwoTotal(a: Message, b: Message)
    ensures Total([a, b]) == Count(a.content) + Count(b.content)
  {
    WholeTotal([a, b]);
    WholeTotal([b]);
    NoTotal([b][1..]);
    assert [a, b][1..] == [b];
  }

  // ---- The cursor over many calls ------------------------------------------------------------------

  /** The cursor, if set, is at a message of the conversation, and the count is what it covers. */
  predicate CursorExact(state: Rolling, messages: seq<Message>) {
    && state.count == Covered(messages, state.through)
    && (state.through.Some? ==> state.count > 0)
  }

  lemma CoveredInPrefix(messages: seq<Message>, p: nat, through: Option<nat>)
    requires DistinctIds(messages) && p <= |messages|
    ensures Covered(messages[..p], through)
         == if Covered(messages, through) <= p then Covered(messages, through) else 0
  {
    if through.Some? {
      var whole := IndexFrom(messages, through.value, 0);
      if whole.Some? && whole.value < p {
        assert messages[..p][whole.value].id == through.value;
      }
    }
  }

  /** Everything before the current message is kept: few enough messages, a single one or all of them
      within the budget, and the budget not used up before the oldest. */
  predicate KeepsAll(recent: seq<Message>, limit: int, budget: int) {
    && |recent| <= Max(0, limit)
    && (|recent| >= 2 ==> Total(recent) <= budget && Total(recent[1..]) < budget)
  }

  lemma KeepsAllIsGreedy(recent: seq<Message>, limit: int, budget: int)
    ensures KeepsAll(recent, limit, budget) <==> Dropped(recent, limit, budget) == 0
  {
    hide Count, Total, Dropped;
    SelectionIsGreedy(recent, 0, limit, budget);
    assert recent[0..] == recent;
    if KeepsAll(recent, limit, budget) && |recent| >= 2 {
      forall k {:trigger recent[k..]} | 0 < k < |recent| ensures Total(recent[k..]) < budget {
        LaterTotal(recent[1..], k - 1);
        assert recent[1..][k - 1..] == recent[k..];
      }
    }
  }

  /** The recent budget of a call that finds no message covered: every message before the current one is
      up for selection. */
  function BudgetFromStart(before: Rolling, previous: seq<Message>, prompt: string, policy: Policy,
                           memories: seq<string>): int
  {
    RecentBudget(before.text, previous, policy, HistoryBudget(policy, prompt, memories))
  }

  /** One call keeps the count exact if and only if the cursor was not past the current message, or all
      messages before that one fit. Otherwise the messages it drops are counted twice. */
  lemma CursorStep(before: Rolling, messages: seq<Message>, position: nat, prompt: string, policy: Policy,
                   memories: seq<string>)
    requires DistinctIds(messages) && position <= |messages| && CursorExact(before, messages)
    ensures var previous := messages[..position];
            CursorExact(Preparation(before, previous, prompt, policy, memories).after, messages) <==>
              || before.count <= position
              || KeepsAll(previous, policy.recentMessageLimit,
                          BudgetFromStart(before, previous, prompt, policy, memories))
  {
    hide Preparation, Covered, KeepsAll, BudgetFromStart;
    var previous := messages[..position];
    var outcome := Preparation(before, previous, prompt, policy, memories);
    CursorAdvances(before, previous, prompt, policy, memories);
    CoveredInPrefix(messages, position, before.through);
    CoveredInPrefix(messages, position, outcome.after.through);
    OutcomeCursor(before, previous, prompt, policy, memories);
    if before.count > position {
      DropsFromStart(before, previous, prompt, policy, memories);
    }
  }

  lemma DropsFromStart(before: Rolling, previous: seq<Message>, prompt: string, policy: Policy, memories: seq<string>)
    requires Covered(previous, before.through) == 0
    ensures KeepsAll(previous, policy.recentMessageLimit, BudgetFromStart(before, previous, prompt, policy, memories))
       <==> Preparation(before, previous, prompt, policy, memories).prepared.usage.messagesSummarized == 0
  {
    hide Count, Fill, Dropped, MemoryText, HistoryBudget, RecentBudget, SummaryBudget, Absorbed, Covered, KeepsAll,
         NotesTotal, MemoryLines;
    assert previous[0..] == previous;
    KeepsAllIsGreedy(previous, policy.recentMessageLimit,
                     BudgetFromStart(before, previous, prompt, policy, memories));
  }

  /** The cursor stays, or moves to one of the earlier messages. */
  lemma OutcomeCursor(before: Rolling, previous: seq<Message>, prompt: string, policy: Policy, memories: seq<string>)
    requires DistinctIds(previous)
    ensures var outcome := Preparation(before, previous, prompt, policy, memories);
            if outcome.prepared.usage.messagesSummarized == 0 then outcome.after == before
            else outcome.after.through.Some? && 0 < Covered(previous, outcome.after.through) <= |previous|
  {
    hide Count, Truncated, Summary, Fill, Dropped, MemoryText, HistoryBudget, RecentBudget, SummaryBudget, Covered;
    CursorAdvances(before, previous, prompt, policy, memories);
  }

  datatype Call = Call(messages: seq<Message>, position: nat, prompt: string, policy: Policy, memories: seq<string>)

  /** The calls of one session: its message list only grows at the end, and no call is for an earlier
      message than the one before it. */
  predicate InOrder(calls: seq<Call>) {
    && (forall i | 0 <= i < |calls| :: DistinctIds(calls[i].messages) && calls[i].position <= |calls[i].messages|)
    && (forall i {:trigger calls[i + 1]} | 0 <= i < |calls| - 1 ::
          calls[i].messages <= calls[i + 1].messages && calls[i].position <= calls[i + 1].position)
  }

  /** The messages before the one the call is for. */
  function PreviousOf(call: Call): seq<Message> {
    if call.position <= |call.messages| then call.messages[..call.position] else call.messages
  }

  function PreparedBy(before: Rolling, call: Call): Outcome {
    Preparation(before, PreviousOf(call), call.prompt, call.policy, call.memories)
  }

  /** The summary columns after a session's calls, in whatever order their messages stand. */
  function AfterCalls(calls: seq<Call>): Rolling {
    if calls == [] then Rolling(None, None, 0, 0)
    else PreparedBy(AfterCalls(calls[..|calls| - 1]), calls[|calls| - 1]).after
  }

  /** Over a session's calls in order, the stored count is the cursor's position plus one. */
  lemma {:induction false} CountIsCursorPosition(calls: seq<Call>)
    requires InOrder(calls) && calls != []
    ensures var call := calls[|calls| - 1];
            && AfterCalls(calls).count == Covered(call.messages[..call.position], AfterCalls(calls).through)
            && CursorExact(AfterCalls(calls), call.messages)
  {
    hide Preparation, Covered, CursorExact;
    var call := calls[|calls| - 1];
    var earlier := calls[..|calls| - 1];
    var before := AfterCalls(earlier);
    StartExact(call.messages);
    if earlier != [] {
      CountIsCursorPosition(earlier);
      var i := |calls| - 2;
      var previous := calls[i];
      assert earlier[|earlier| - 1] == previous && calls[i + 1] == call;
      StillExact(before, previous.messages, call.messages);
      ExactBound(before, previous.messages, previous.position);
    }
    CursorStep(before, call.messages, call.position, call.prompt, call.policy, call.memories);
    ExactAt(before, call);
  }

  lemma StartExact(messages: seq<Message>)
    ensures CursorExact(Rolling(None, None, 0, 0), messages)
  {
  }

  lemma StillExact(state: Rolling, messages: seq<Message>, longer: seq<Message>)
    requires DistinctIds(longer) && messages <= longer && CursorExact(state, messages)
    ensures CursorExact(state, longer)
  {
    assert longer[..|messages|] == messages;
    CoveredInPrefix(longer, |messages|, state.through);
    if state.through.Some? {
      assert IndexFrom(messages, state.through.value, 0).Some?;
      assert longer[state.count - 1].id == state.through.value;
    }
  }

  lemma ExactBound(state: Rolling, messages: seq<Message>, position: nat)
    requires position <= |messages| && state.count == Covered(messages[..position], state.through)
    ensures 0 <= state.count <= position
  {
    hide Covered;
  }

  lemma ExactAt(before: Rolling, call: Call)
    requires DistinctIds(call.messages) && call.position <= |call.messages|
    requires CursorExact(before, call.messages) && 0 <= before.count <= call.position
    ensures var after :=
        Preparation(before, call.messages[..call.position], call.prompt, call.policy, call.memories).after;
            after.count == Covered(call.messages[..call.position], after.through)
  {
    hide Preparation, Covered;
    CursorAdvances(before, call.messages[..call.position], call.prompt, call.policy, call.memories);
    CoveredInPrefix(call.messages, call.position, before.through);
  }

  /** A call out of order under the default policy: twenty short messages, a first call for the last of
      them and a second one for the tenth. The second call drops messages the first already counted, and
      the count no longer is what the cursor covers. */
  lemma OutOfOrderMiscounts() returns (policy: Policy, messages: seq<Message>)
    ensures policy == Policy(12000, 1400, 3200, 1800, 8, 1200, 800, 128)
    ensures |messages| == 20 && DistinctIds(messages)
    ensures var first := Preparation(Rolling(None, None, 0, 0), messages[..19], "hi", policy, []).after;
            var second := Preparation(first, messages[..9], "hi", policy, []).after;
            && CursorExact(first, messages) && first.count >= 11
            && !CursorExact(second, messages) && second.count > Covered(messages, second.through)
  {
    policy := Policy(12000, 1400, 3200, 1800, 8, 1200, 800, 128);
    messages := seq(20, (i: nat) => Message(i, "USER", "a"));
    var start := Rolling(None, None, 0, 0);
    StartExact(messages);
    CursorStep(start, messages, 19, "hi", policy, []);
    var first := Preparation(start, messages[..19], "hi", policy, []).after;
    AtMostLimitShown(start, messages[..19], "hi", policy, []);
    CoveredInPrefix(messages, 19, first.through);
    CursorStep(first, messages, 9, "hi", policy, []);
    CountBehindCursor(first, messages, 9, "hi", policy, []);
  }

  lemma AtMostLimitShown(before: Rolling, previous: seq<Message>, prompt: string, policy: Policy,
                         memories: seq<string>)
    requires DistinctIds(previous)
    ensures var outcome := Preparation(before, previous, prompt, policy, memories);
            && outcome.after.count == before.count + outcome.prepared.usage.messagesSummarized
            && |previous| - Covered(previous, outcome.after.through) <= Max(0, policy.recentMessageLimit)
  {
    hide Count, Fill, Dropped, MemoryText, HistoryBudget, RecentBudget, SummaryBudget, Absorbed, Covered, Total,
         NotesTotal, MemoryLines;
    CursorAdvances(before, previous, prompt, policy, memories);
    var recent := previous[Covered(previous, before.through)..];
    NothingTaken(recent, policy.recentMessageLimit,
                 RecentBudget(before.text, recent, policy, HistoryBudget(policy, prompt, memories)));
  }

  /** A call behind the cursor counts again what it drops. */
  lemma CountBehindCursor(before: Rolling, messages: seq<Message>, position: nat, prompt: string, policy: Policy,
                          memories: seq<string>)
    requires DistinctIds(messages) && position <= |messages| && CursorExact(before, messages)
    requires before.count > position
    ensures var outcome := Preparation(before, messages[..position], prompt, policy, memories);
            outcome.prepared.usage.messagesSummarized > 0 ==>
              outcome.after.count == before.count + Covered(messages, outcome.after.through)
  {
    hide Preparation, Covered;
    var previous := messages[..position];
    var outcome := Preparation(before, previous, prompt, policy, memories);
    CursorAdvances(before, previous, prompt, policy, memories);
    CoveredInPrefix(messages, position, before.through);
    CoveredInPrefix(messages, position, outcome.after.through);
    OutcomeCursor(before, previous, prompt, policy, memories);
  }

  // ---- Repeating a call within a session -----------------------------------------------------------

  /** Without a summary text there is no cursor. */
  predicate CursorNeedsText(state: Rolling) {
    TextOf(state.text) == "" ==> state.through == None
  }

  lemma CallKeepsCursorText(before: Rolling, call: Call)
    requires CursorNeedsText(before)
    ensures CursorNeedsText(PreparedBy(before, call).after)
  {
    hide Count, Truncated, Fill, Dropped, MemoryText, HistoryBudget, RecentBudget, SummaryBudget, Covered, TextOf,
         NotesTotal, MemoryLines, Absorbed;
    var previous := PreviousOf(call);
    var recent := previous[Covered(previous, before.through)..];
    var budget := HistoryBudget(call.policy, call.prompt, call.memories);
    var d := Dropped(recent, call.policy.recentMessageLimit, RecentBudget(before.text, recent, call.policy, budget));
    AbsorbedHasText(before, recent, d, SummaryBudget(before.text, recent, call.policy, budget));
  }

  lemma AbsorbedHasText(before: Rolling, recent: seq<Message>, dropped: nat, summaryBudget: int)
    requires dropped <= |recent|
    ensures var after := Absorbed(before, recent, dropped, summaryBudget);
            after == before || TextOf(after.text) != ""
  {
    hide Count, Summary;
    if dropped > 0 {
      WrittenSummaryFits(before, recent, dropped, summaryBudget);
    }
  }

  lemma {:induction false} SessionsKeepCursorText(calls: seq<Call>)
    ensures CursorNeedsText(AfterCalls(calls))
  {
    hide PreparedBy, CursorNeedsText;
    if calls == [] {
      StartHasNoCursor();
    } else {
      SessionsKeepCursorText(calls[..|calls| - 1]);
      CallKeepsCursorText(AfterCalls(calls[..|calls| - 1]), calls[|calls| - 1]);
    }
  }

  lemma StartHasNoCursor()
    ensures CursorNeedsText(Rolling(None, None, 0, 0))
  {
  }

  /** Nothing is dropped without need when the oldest message counts. */
  lemma CountedStartKeepsAll(text: Option<string>, recent: seq<Message>, policy: Policy, historyBudget: int)
    requires policy.minimumRecent <= historyBudget
    requires !NeedsSummarySpace(text, recent, policy, historyBudget)
    requires recent != [] ==> Count(recent[0].content) >= 1
    ensures DroppedFor(text, recent, policy, historyBudget) == 0
  {
    hide Count, Total, Dropped, TextOf;
    if recent != [] {
      WholeTotal(recent);
    }
    KeepsAllIsGreedy(recent, policy.recentMessageLimit, historyBudget);
  }

  lemma StableCases(before: Rolling, recent: seq<Message>, policy: Policy, budget: int)
    requires NeedsSummarySpace(before.text, recent, policy, budget)
        || DroppedFor(before.text, recent, policy, budget) == 0
    ensures var d := DroppedFor(before.text, recent, policy, budget);
            var after := Absorbed(before, recent, d, SummaryBudget(before.text, recent, policy, budget));
            && ShownFor(after.text, recent[d..], policy, budget) == ShownFor(before.text, recent, policy, budget)
            && DroppedFor(after.text, recent[d..], policy, budget) == 0
            && Absorbed(after, recent[d..], 0, SummaryBudget(after.text, recent[d..], policy, budget)) == after
  {
    hide Count, Dropped, Fill, TextOf, NeedsSummarySpace, SummaryBudget, Summary, Total;
    var d := DroppedFor(before.text, recent, policy, budget);
    var after := Absorbed(before, recent, d, SummaryBudget(before.text, recent, policy, budget));
    if d == 0 {
      assert recent[d..] == recent;
    } else {
      WrittenSummaryFits(before, recent, d, SummaryBudget(before.text, recent, policy, budget));
      RepeatedWithNeed(before.text, after.text, recent, policy, budget);
    }
  }

  /** A state in which a repeated call changes nothing: the first call needs a summary anyway, or drops
      nothing. */
  lemma StableCallRepeats(before: Rolling, call: Call)
    requires DistinctIds(PreviousOf(call))
    requires var recent := PreviousOf(call)[Covered(PreviousOf(call), before.through)..];
             var budget := HistoryBudget(call.policy, call.prompt, call.memories);
             NeedsSummarySpace(before.text, recent, call.policy, budget)
             || DroppedFor(before.text, recent, call.policy, budget) == 0
    ensures var first := PreparedBy(before, call);
            var second := PreparedBy(first.after, call);
            && second.prepared.history == first.prepared.history && second.after == first.after
            && second.prepared.usage.messagesSummarized == 0
  {
    hide Count, MemoryText, RawBudget, Covered, RecentBudget, SummaryBudget, Dropped, Fill, NotesTotal, MemoryLines,
         Absorbed, TextOf, NeedsSummarySpace;
    var previous := PreviousOf(call);
    var covered := Covered(previous, before.through);
    var budget := HistoryBudget(call.policy, call.prompt, call.memories);
    var d := DroppedFor(before.text, previous[covered..], call.policy, budget);
    CursorAdvances(before, previous, call.prompt, call.policy, call.memories);
    assert previous[covered..][d..] == previous[covered + d..];
    StableCases(before, previous[covered..], call.policy, budget);
  }

  /** After any calls of a session, for any messages in any order and under any policies, repeating a call
      returns the same history, drops nothing more and leaves the summary, its cursor and its count as they
      are: all that is asked is that the session's first message counts at least one token. */
  lemma EveryRetryIsIdempotent(calls: seq<Call>, call: Call)
    requires DistinctIds(PreviousOf(call))
    requires PreviousOf(call) != [] ==> Count(PreviousOf(call)[0].content) >= 1
    ensures var first := PreparedBy(AfterCalls(calls), call);
            var second := PreparedBy(first.after, call);
            && second.prepared.history == first.prepared.history && second.after == first.after
            && second.prepared.usage.messagesSummarized == 0
  {
    hide Count, PreparedBy, AfterCalls, RawBudget, Total, Dropped, DistinctIds;
    var before := AfterCalls(calls);
    var previous := PreviousOf(call);
    var budget := HistoryBudget(call.policy, call.prompt, call.memories);
    SessionsKeepCursorText(calls);
    var recent := previous[Covered(previous, before.through)..];
    if !NeedsSummarySpace(before.text, recent, call.policy, budget) {
      assert Covered(previous, before.through) == 0 && recent == previous;
      CountedStartKeepsAll(before.text, recent, call.policy, budget);
    }
    StableCallRepeats(before, call);
  }
}
