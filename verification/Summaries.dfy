/**
  The deterministic rolling summary: the previous summary, cut to half of the budget, followed by
  the newly covered messages, newest first, all cut to the budget.
 */
module Summaries {
  import opened Texts
  import opened Tokens
  import opened Wrappers

  datatype Message = Message(id: nat, role: string, content: string)

  const PREVIOUS_HEADER := "既有摘要:\n"
  const NEW_HEADER := "新增历史（由新到旧）:\n"

  function TextOf(text: Option<string>): string {
    if text.Some? then text.value else ""
  }

  function RoleLabel(role: string): string {
    match role
    case "USER" => "用户"
    case "ASSISTANT" => "助手"
    case "SYSTEM" => "系统"
    case _ => role
  }

  function Line(message: Message): string {
    RoleLabel(message.role) + ": " + Normalized(message.content)
  }

  /** One line per message, the newest first. */
  function NewLines(messages: seq<Message>): (r: seq<string>)
    ensures |r| == |messages|
  {
    if messages == [] then [] else [Line(messages[|messages| - 1])] + NewLines(messages[..|messages| - 1])
  }

  function NewText(messages: seq<Message>): string {
    Join("\n", NewLines(messages))
  }

  /** The part that carries the previous summary over, if there is one. */
  function PreviousPart(previous: string, maxTokens: int): seq<string> {
    if previous == "" then [] else [PREVIOUS_HEADER + Truncated(previous, Max(16, maxTokens / 2))]
  }

  function RemainingBudget(previous: string, maxTokens: int): (r: int)
    ensures r >= 16
  {
    Max(16, maxTokens - Count(Join("\n", PreviousPart(previous, maxTokens))))
  }

  function Untruncated(previous: string, messages: seq<Message>, maxTokens: int): string {
    Join("\n", PreviousPart(previous, maxTokens)
               + [NEW_HEADER + Truncated(NewText(messages), RemainingBudget(previous, maxTokens))])
  }

  /** What `ExtractiveSummarizer.summarize` returns. */
  function Summary(previous: Option<string>, messages: seq<Message>, maxTokens: int): string {
    if messages == [] then Truncated(TextOf(previous), maxTokens)
    else Truncated(Untruncated(TextOf(previous), messages, maxTokens), maxTokens)
  }

  method ReversedLines(messages: seq<Message>) returns (newLines: seq<string>)
    ensures newLines == NewLines(messages)
  {
    hide Line;
    newLines := [];
    var i := |messages|;
    assert messages[..i] == messages;
    while i > 0
      invariant 0 <= i <= |messages|
      invariant newLines + NewLines(messages[..i]) == NewLines(messages)
    {
      i := i - 1;
      assert messages[..i + 1][..i] == messages[..i];
      newLines := newLines + [Line(messages[i])];
    }
  }

  method Summarize(previous: Option<string>, messages: seq<Message>, maxTokens: int) returns (r: string)
    ensures r == Summary(previous, messages, maxTokens)
  {
    hide Count, Truncated, Join, NewLines;
    if messages == [] {
      r := Truncate(TextOf(previous), maxTokens);
      return;
    }
    var hasPrevious := previous.Some? && previous.value != "";
    var previousBudget := if hasPrevious then maxTokens / 2 else 0;
    var parts: seq<string> := [];
    if hasPrevious {
      var kept := Truncate(previous.value, Max(16, previousBudget));
      parts := [PREVIOUS_HEADER + kept];
    }
    var remainingBudget := Max(16, maxTokens - Count(Join("\n", parts)));
    var newLines := ReversedLines(messages);
    var recent := Truncate(Join("\n", newLines), remainingBudget);
    r := Truncate(Join("\n", parts + [NEW_HEADER + recent]), maxTokens);
  }

  /** What stands before the new lines. */
  function Head(previous: string, maxTokens: int): string {
    if previous == "" then NEW_HEADER
    else PreviousPart(previous, maxTokens)[0] + "\n" + NEW_HEADER
  }

  lemma CountOf(text: string)
    requires text != ""
    ensures Count(text) == CjkCount(text) + Max(1, (|text| - CjkCount(text) + 3) / 4)
  {
    hide CjkCount;
  }

  lemma PreviousHeaderCount()
    ensures Count(PREVIOUS_HEADER) == 5 && Count("\n") == 1
  {
    hide CjkCount, Count;
    CjkUniform("既有摘要", true);
    CjkUniform(":\n", false);
    CjkSplit("既有摘要", ":\n");
    assert PREVIOUS_HEADER == "既有摘要" + ":\n";
    CountOf(PREVIOUS_HEADER);
    CjkUniform("\n", false);
    CountOf("\n");
  }

  lemma NewHeaderCount()
    ensures Count(NEW_HEADER) == 9
  {
    hide CjkCount, Count;
    var a, b, c, d := "新增历史", "（", "由新到旧", "）:\n";
    CjkUniform(a, true);
    CjkUniform(b, false);
    CjkUniform(c, true);
    CjkUniform(d, false);
    CjkSplit(a, b);
    CjkSplit(a + b, c);
    CjkSplit(a + b + c, d);
    assert NEW_HEADER == a + b + c + d;
    CountOf(NEW_HEADER);
  }

  lemma UntruncatedShape(previous: string, messages: seq<Message>, maxTokens: int)
    ensures Untruncated(previous, messages, maxTokens)
         == Head(previous, maxTokens) + Truncated(NewText(messages), RemainingBudget(previous, maxTokens))
  {
    hide Count, Truncated, NewText;
    var new_ := NEW_HEADER + Truncated(NewText(messages), RemainingBudget(previous, maxTokens));
    if previous == "" {
      assert PreviousPart(previous, maxTokens) + [new_] == [new_];
    } else {
      var old_ := PreviousPart(previous, maxTokens)[0];
      assert ([old_] + [new_])[1..] == [new_];
      assert Join("\n", [old_] + [new_]) == old_ + "\n" + new_;
    }
  }

  lemma HeadCount(previous: string, maxTokens: int)
    requires maxTokens >= 32
    ensures Count(Head(previous, maxTokens)) <= maxTokens / 2 + 15
    ensures RemainingBudget(previous, maxTokens) >= maxTokens - maxTokens / 2 - 5
  {
    hide Count, Truncated, CjkCount;
    PreviousHeaderCount();
    NewHeaderCount();
    if previous != "" {
      var kept := Truncated(previous, Max(16, maxTokens / 2));
      TruncationFits(previous, Max(16, maxTokens / 2));
      CountJoin(PREVIOUS_HEADER, kept);
      CountJoin(PREVIOUS_HEADER + kept, "\n");
      CountJoin(PREVIOUS_HEADER + kept + "\n", NEW_HEADER);
    } else {
      EmptyCount();
    }
  }

  lemma EmptyCount()
    ensures Count("") == 0
  {
  }

  /** A summary of at least one message is never empty, and never above a budget of eleven or more. */
  lemma SummaryFits(previous: Option<string>, messages: seq<Message>, maxTokens: int)
    requires maxTokens > SUFFIX_TOKENS
    ensures Count(Summary(previous, messages, maxTokens)) <= maxTokens
    ensures messages != [] ==> Summary(previous, messages, maxTokens) != ""
  {
    hide Count, Untruncated, CjkCount;
    if messages == [] {
      TruncationFits(TextOf(previous), maxTokens);
    } else {
      TruncationFits(Untruncated(TextOf(previous), messages, maxTokens), maxTokens);
      UntruncatedShape(TextOf(previous), messages, maxTokens);
    }
  }

  /** The newest message comes first. */
  lemma {:induction false} NewestFirst(messages: seq<Message>, i: nat)
    requires i < |messages|
    ensures NewLines(messages)[i] == Line(messages[|messages| - 1 - i])
  {
    hide Line;
    if i > 0 {
      NewestFirst(messages[..|messages| - 1], i - 1);
    }
  }

  /** A message's line: its role's label and its content with every run of white space made one blank. */
  ghost predicate IsLineOf(line: string, message: Message) {
    exists name: string, words: seq<string>, gaps: seq<string> ::
      && line == name + ": " + Join(" ", words)
      && Separates(words, gaps) && Laid(words, gaps) == message.content
      && name == match message.role
                  case "USER" => "用户"
                  case "ASSISTANT" => "助手"
                  case "SYSTEM" => "系统"
                  case other => other
  }

  lemma LineShows(message: Message)
    ensures IsLineOf(Line(message), message)
  {
    hide Separates, Laid, Join, Words;
    var gaps := WordsAre(message.content);
    assert Line(message) == RoleLabel(message.role) + ": " + Join(" ", Words(message.content));
  }

  /** What a summary with room for it opens with: the previous summary, cut to half of the budget, if there
      is one, and the headers. */
  predicate IsHead(head: string, previous: string, maxTokens: int) {
    if previous == "" then head == "新增历史（由新到旧）:\n"
    else head == "既有摘要:\n" + Truncated(previous, Max(16, maxTokens / 2)) + "\n" + "新增历史（由新到旧）:\n"
  }

  /** The `k` newest messages, the newest first, one to a line. */
  ghost predicate ShowsNewest(text: string, messages: seq<Message>, k: nat)
    requires k <= |messages|
  {
    exists lines: seq<string> ::
      && |lines| == k && text == Join("\n", lines)
      && forall i | 0 <= i < k :: IsLineOf(lines[i], messages[|messages| - 1 - i])
  }

  /** Truncation takes from the oldest: the `k` newest of the messages, whole and newest first, stand right
      after the head whenever their lines count at most half of the budget less 25 tokens. */
  lemma NewestFactsSurvive(previous: Option<string>, messages: seq<Message>, maxTokens: int, k: nat)
    returns (head: string, newest: string)
    requires messages != [] && maxTokens >= 32 && k <= |messages|
    ensures IsHead(head, TextOf(previous), maxTokens) && ShowsNewest(newest, messages, k)
    ensures Count(newest) <= maxTokens / 2 - 25 ==> head + newest <= Summary(previous, messages, maxTokens)
  {
    hide Count, Head, Line, IsLineOf, Summary;
    head := Head(TextOf(previous), maxTokens);
    HeadIs(TextOf(previous), maxTokens);
    var lines := NewLines(messages)[..k];
    newest := Join("\n", lines);
    forall i | 0 <= i < k ensures IsLineOf(lines[i], messages[|messages| - 1 - i]) {
      NewestFirst(messages, i);
      LineShows(messages[|messages| - 1 - i]);
    }
    JoinPrefix("\n", NewLines(messages), k);
    assert NewText(messages)[..|newest|] == newest;
    if Count(newest) <= maxTokens / 2 - 25 {
      OpeningSurvives(previous, messages, maxTokens, |newest|);
    }
  }

  lemma HeadIs(previous: string, maxTokens: int)
    ensures IsHead(Head(previous, maxTokens), previous, maxTokens)
  {
    hide Truncated;
  }

  /** A previous summary within half of the budget is carried over whole. */
  lemma PreviousSurvives(previous: string, maxTokens: int)
    requires previous != "" && maxTokens >= 32 && Count(previous) <= maxTokens / 2
    ensures Truncated(previous, Max(16, maxTokens / 2)) == previous
  {
  }

  lemma OpeningSurvives(previous: Option<string>, messages: seq<Message>, maxTokens: int, k: nat)
    requires messages != [] && maxTokens >= 32
    requires k <= |NewText(messages)| && Count(NewText(messages)[..k]) <= maxTokens / 2 - 25
    ensures Head(TextOf(previous), maxTokens) + NewText(messages)[..k] <= Summary(previous, messages, maxTokens)
  {
    hide Count, NewText, Untruncated, Head, CjkCount;
    var text, head := NewText(messages), Head(TextOf(previous), maxTokens);
    var budget := RemainingBudget(TextOf(previous), maxTokens);
    HeadCount(TextOf(previous), maxTokens);
    UntruncatedShape(TextOf(previous), messages, maxTokens);
    PrefixSurvives(text, budget, k);
    var whole := head + Truncated(text, budget);
    assert whole[..|head| + k] == head + text[..k];
    CountJoin(head, text[..k]);
    PrefixSurvives(whole, maxTokens, |head| + k);
  }

  lemma PrefixSurvives(text: string, maxTokens: int, k: nat)
    requires maxTokens > 0
    requires k <= |text| && Count(text[..k]) <= BodyBudget(maxTokens)
    ensures text[..k] <= Truncated(text, maxTokens)
  {
    hide Count, CjkCount;
    if Count(text) > maxTokens {
      TruncationIsTight(text, maxTokens, k);
    }
  }
}
