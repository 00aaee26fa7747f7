/**
  The fallback token estimator and its truncation: about one token per CJK character and one per
  four other characters.
 */
module Tokens {

  predicate IsCjk(c: char) {
    '\U{3400}' <= c <= '\U{9fff}'
  }

  function CjkCount(text: string): (r: nat)
    ensures r <= |text|
  {
    if text == "" then 0 else CjkCount(text[..|text| - 1]) + if IsCjk(text[|text| - 1]) then 1 else 0
  }

  function Max(a: int, b: int): int {
    if a >= b then a else b
  }

  function Min(a: int, b: int): int {
    if a <= b then a else b
  }

  function Count(text: string): nat {
    if text == "" then 0
    else
      var cjk := CjkCount(text);
      cjk + Max(1, (|text| - cjk + 3) / 4)
  }

  const SUFFIX := "\n…[已按上下文预算截断]"
  const SUFFIX_TOKENS: nat := 10

  lemma {:induction false} CjkSplit(a: string, b: string)
    ensures CjkCount(a + b) == CjkCount(a) + CjkCount(b)
  {
    if b == "" {
      assert a + b == a;
    } else {
      assert (a + b)[..|a + b| - 1] == a + b[..|b| - 1];
      CjkSplit(a, b[..|b| - 1]);
    }
  }

  /** Longer texts never count less, and joining texts never costs extra. */
  lemma CountJoin(a: string, b: string)
    ensures Count(a) <= Count(a + b) <= Count(a) + Count(b)
  {
    CjkSplit(a, b);
    if a == "" {
      assert a + b == b;
    }
    if b == "" {
      assert a + b == a;
    }
  }

  lemma CountPrefix(text: string, i: nat, j: nat)
    requires i <= j <= |text|
    ensures Count(text[..i]) <= Count(text[..j])
  {
    assert text[..j] == text[..i] + text[i..j];
    CountJoin(text[..i], text[i..j]);
  }

  /** A text all of one kind counts all of its characters, or none. */
  lemma {:induction false} CjkUniform(text: string, cjk: bool)
    requires forall i | 0 <= i < |text| :: IsCjk(text[i]) == cjk
    ensures CjkCount(text) == if cjk then |text| else 0
  {
    if text == "" {
    } else {
      CjkUniform(text[..|text| - 1], cjk);
    }
  }

  /** The estimate for texts of one kind: one token a character from U+3400 to U+9FFF, one for every four
      others, rounded up. */
  lemma UniformCount(text: string)
    ensures (forall i | 0 <= i < |text| :: '\U{3400}' <= text[i] <= '\U{9fff}')
        ==> text == "" || Count(text) == |text| + 1
    ensures (forall i | 0 <= i < |text| :: text[i] < '\U{3400}' || text[i] > '\U{9fff}')
        ==> Count(text) == (|text| + 3) / 4
  {
    if forall i | 0 <= i < |text| :: IsCjk(text[i]) {
      CjkUniform(text, true);
    }
    if forall i | 0 <= i < |text| :: !IsCjk(text[i]) {
      CjkUniform(text, false);
    }
  }

  lemma SuffixCount()
    ensures CjkCount(SUFFIX) == 9 && |SUFFIX| == 13
    ensures Count(SUFFIX) == SUFFIX_TOKENS
  {
    var a, b, c := "\n…[", "已按上下文预算截断", "]";
    CjkUniform(a, false);
    CjkUniform(b, true);
    CjkUniform(c, false);
    CjkSplit(a, b);
    CjkSplit(a + b, c);
    assert SUFFIX == a + b + c;
  }

  lemma CjkStep(text: string, c: char)
    ensures CjkCount(text + [c]) == CjkCount(text) + if IsCjk(c) then 1 else 0
  {
    assert (text + [c])[..|text + [c]| - 1] == text;
  }

  /** The longest prefix that counts at most `budget`, searched from `k` characters down. */
  function LongestFit(text: string, budget: nat, k: nat): (r: nat)
    requires k <= |text|
    ensures r <= k && Count(text[..r]) <= budget
    ensures forall i | r < i <= k :: Count(text[..i]) > budget
  {
    if Count(text[..k]) <= budget then k
    else
      assert k > 0 by { assert text[..0] == ""; }
      LongestFit(text, budget, k - 1)
  }

  function BodyBudget(maxTokens: int): (r: nat)
    ensures r >= 1
  {
    Max(1, maxTokens - SUFFIX_TOKENS)
  }

  /** `truncate`: the text if it fits, else its longest prefix for the body budget and a marker. */
  function Truncated(text: string, maxTokens: int): string {
    if maxTokens <= 0 then ""
    else if Count(text) <= maxTokens then text
    else text[..LongestFit(text, BodyBudget(maxTokens), |text|)] + SUFFIX
  }

  /** The binary search finds exactly the longest prefix, because counts never fall along a text. */
  method Truncate(text: string, maxTokens: int) returns (r: string)
    ensures r == Truncated(text, maxTokens)
  {
    hide Count, CjkCount, IsCjk;
    if maxTokens <= 0 {
      return "";
    }
    if Count(text) <= maxTokens {
      return text;
    }
    SuffixCount();
    var suffixTokens := Count(SUFFIX);
    var bodyBudget := Max(1, maxTokens - suffixTokens);
    ghost var best := LongestFit(text, bodyBudget, |text|);
    var low, high := 0, |text|;
    while low < high
      invariant low <= best <= high <= |text|
    {
      var middle := (low + high + 1) / 2;
      if Count(text[..middle]) <= bodyBudget {
        low := middle;
      } else {
        if best >= middle {
          CountPrefix(text, middle, best);
        }
        high := middle - 1;
      }
    }
    return text[..low] + SUFFIX;
  }

  /** Truncation keeps the limit exactly when there is room for the marker: always above ten tokens, at
      ten only if not even the first character is kept, and never in between. Below one token the empty
      text is returned. */
  lemma TruncationFits(text: string, maxTokens: int)
    ensures Count(Truncated(text, maxTokens)) <= maxTokens <==>
              || maxTokens == 0
              || (maxTokens > 0 && Count(text) <= maxTokens)
              || maxTokens > SUFFIX_TOKENS
              || (maxTokens == SUFFIX_TOKENS && text != "" && IsCjk(text[0]))
  {
    if maxTokens > 0 && Count(text) > maxTokens {
      SuffixCount();
      var k := LongestFit(text, BodyBudget(maxTokens), |text|);
      CountJoin(text[..k], SUFFIX);
      if maxTokens <= SUFFIX_TOKENS {
        FirstCharacter(text);
        CjkSplit(text[..k], SUFFIX);
        if IsCjk(text[0]) {
          if k > 0 {
            CountPrefix(text, 1, k);
          }
          assert text[..0] + SUFFIX == SUFFIX;
        } else {
          assert k >= 1;
        }
      }
    }
  }

  lemma FirstCharacter(text: string)
    requires text != ""
    ensures Count(text[..1]) == if IsCjk(text[0]) then 2 else 1
  {
    assert text[..1] == [text[0]];
    CjkStep("", text[0]);
    assert "" + [text[0]] == [text[0]];
  }

  /** Among the prefixes within the body budget, truncation keeps the longest. */
  lemma TruncationIsTight(text: string, maxTokens: int, k: nat)
    requires maxTokens > 0 && Count(text) > maxTokens
    requires k <= |text| && Count(text[..k]) <= BodyBudget(maxTokens)
    ensures |Truncated(text, maxTokens)| >= k + |SUFFIX|
    ensures Truncated(text, maxTokens)[..k] == text[..k]
    ensures var n := |Truncated(text, maxTokens)| - |SUFFIX|;
            n <= |text| && Truncated(text, maxTokens) == text[..n] + "\n…[已按上下文预算截断]"
  {
    var best := LongestFit(text, BodyBudget(maxTokens), |text|);
    assert k <= best;
    assert (text[..best] + SUFFIX)[..k] == text[..k];
  }

  /** A text cut at the limit: its longest prefix that leaves ten tokens for the marker, or that counts one
      token where there is no such room, and the marker. */
  predicate CutTo(text: string, cut: string, maxTokens: int) {
    var marker := "\n…[已按上下文预算截断]";
    var n := |cut| - |marker|;
    && 0 <= n <= |text| && cut == text[..n] + marker
    && Count(text[..n]) <= Max(1, maxTokens - 10)
    && forall m | n < m <= |text| :: Count(text[..m]) > Max(1, maxTokens - 10)
  }

  /** What truncation returns. */
  lemma TruncatedIs(text: string, maxTokens: int)
    ensures maxTokens <= 0 ==> Truncated(text, maxTokens) == ""
    ensures 0 < maxTokens && Count(text) <= maxTokens ==> Truncated(text, maxTokens) == text
    ensures 0 < maxTokens < Count(text) ==> CutTo(text, Truncated(text, maxTokens), maxTokens)
  {
    hide Count;
  }

  /** Eleven tokens of letters, cut to ten: the marker alone fills the limit. */
  lemma TruncationCanExceed() returns (text: string)
    ensures Count(text) == 11 && Count(Truncated(text, 10)) > 10
  {
    text := seq(44, i => 'a');
    CjkUniform(text, false);
    TruncationFits(text, 10);
  }
}
