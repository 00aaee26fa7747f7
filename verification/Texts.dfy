/** The few string operations the run results depend on. */
module Texts {

  /** The characters Python's `str.strip` removes. */
  predicate IsSpace(c: char) {
    || '\U{9}' <= c <= '\U{d}'
    || '\U{1c}' <= c <= '\U{20}'
    || c == '\U{85}' || c == '\U{a0}' || c == '\U{1680}'
    || '\U{2000}' <= c <= '\U{200a}'
    || c == '\U{2028}' || c == '\U{2029}' || c == '\U{202f}' || c == '\U{205f}' || c == '\U{3000}'
  }

  function StripLeft(s: string): (r: string)
    ensures |r| <= |s|
  {
    if s != "" && IsSpace(s[0]) then StripLeft(s[1..]) else s
  }

  function StripRight(s: string): (r: string)
    ensures |r| <= |s|
  {
    if s != "" && IsSpace(s[|s| - 1]) then StripRight(s[..|s| - 1]) else s
  }

  function Strip(s: string): (r: string)
    ensures |r| <= |s|
  {
    StripRight(StripLeft(s))
  }

  predicate Blank(s: string) {
    forall i | 0 <= i < |s| :: IsSpace(s[i])
  }

  lemma {:induction false} StripLeftIs(s: string) returns (before: string)
    ensures s == before + StripLeft(s) && Blank(before)
    ensures StripLeft(s) != "" ==> !IsSpace(StripLeft(s)[0])
  {
    before := "";
    if s != "" && IsSpace(s[0]) {
      before := StripLeftIs(s[1..]);
      assert s == [s[0]] + s[1..];
      before := [s[0]] + before;
    }
  }

  lemma {:induction false} StripRightIs(s: string) returns (after: string)
    ensures s == StripRight(s) + after && Blank(after)
    ensures StripRight(s) != "" ==> !IsSpace(StripRight(s)[|StripRight(s)| - 1])
    ensures StripRight(s) <= s
  {
    after := "";
    if s != "" && IsSpace(s[|s| - 1]) {
      var last := s[|s| - 1];
      after := StripRightIs(s[..|s| - 1]);
      assert s == s[..|s| - 1] + [last];
      after := after + [last];
    }
  }

  /** Stripping takes white space off both ends, and all of it. */
  lemma StripIs(s: string) returns (before: string, after: string)
    ensures s == before + Strip(s) + after && Blank(before) && Blank(after)
    ensures Strip(s) != "" ==> !IsSpace(Strip(s)[0]) && !IsSpace(Strip(s)[|Strip(s)| - 1])
  {
    before := StripLeftIs(s);
    after := StripRightIs(StripLeft(s));
  }

  /** Stripping leaves nothing exactly of the texts that are all white space. */
  lemma BlankIs(s: string)
    ensures Strip(s) == "" <==> Blank(s)
  {
    var before, after := StripIs(s);
    var middle := Strip(s);
    if middle != "" {
      assert s[|before|] == middle[0];
    } else {
      forall i | 0 <= i < |s| ensures IsSpace(s[i]) {
        assert s[i] == if i < |before| then before[i] else after[i - |before|];
      }
    }
  }

  function Lower(s: string): (r: string)
    ensures |r| == |s|
  {
    seq(|s|, i requires 0 <= i < |s| => if 'A' <= s[i] <= 'Z' then ((s[i] as int) + 32) as char else s[i])
  }

  predicate OccursAt(s: string, token: string, i: nat) {
    i + |token| <= |s| && s[i..i + |token|] == token
  }

  predicate Contains(s: string, token: string) {
    exists i: nat | i <= |s| :: OccursAt(s, token, i)
  }

  /** `_bounded_text`: at most the first `limit` characters. */
  function Bounded(s: string, limit: nat): (r: string)
    ensures r <= s && |r| == if |s| <= limit then |s| else limit
  {
    if |s| <= limit then s else s[..limit]
  }

  /** `x or default` for texts. */
  function OrElse(s: string, default: string): string {
    if s != "" then s else default
  }

  function WordLength(s: string): (r: nat)
    ensures r <= |s|
    ensures s != "" && !IsSpace(s[0]) ==> r > 0
  {
    if s == "" || IsSpace(s[0]) then 0 else 1 + WordLength(s[1..])
  }

  /** `text.split()`: the maximal runs of characters that are not white space. */
  function Words(s: string): seq<string>
    decreases |s|
  {
    if s == "" then []
    else if IsSpace(s[0]) then Words(s[1..])
    else [s[..WordLength(s)]] + Words(s[WordLength(s)..])
  }

  /** `separator.join(parts)` */
  function Join(separator: string, parts: seq<string>): string {
    if parts == [] then ""
    else if |parts| == 1 then parts[0]
    else parts[0] + separator + Join(separator, parts[1..])
  }

  /** `" ".join(text.split())` */
  function Normalized(s: string): string {
    Join(" ", Words(s))
  }

  lemma {:induction false} WordIs(s: string)
    ensures var n := WordLength(s);
            && (forall i | 0 <= i < n :: !IsSpace(s[i]))
            && (n < |s| ==> IsSpace(s[n]))
  {
    if s != "" && !IsSpace(s[0]) {
      WordIs(s[1..]);
    }
  }

  /** Words and the gaps around them, laid out again. */
  function Laid(words: seq<string>, gaps: seq<string>): string
    requires |gaps| == |words| + 1
  {
    if words == [] then gaps[0] else gaps[0] + words[0] + Laid(words[1..], gaps[1..])
  }

  /** Words without white space, none empty, apart from each other by white space only. */
  predicate Separates(words: seq<string>, gaps: seq<string>) {
    && |gaps| == |words| + 1
    && (forall i | 0 <= i < |words| :: words[i] != "" && forall k | 0 <= k < |words[i]| :: !IsSpace(words[i][k]))
    && (forall i | 0 <= i < |gaps| :: Blank(gaps[i]) && (0 < i < |words| ==> gaps[i] != ""))
  }

  /** The words of a text are what its white space separates. */
  lemma {:induction false} WordsAre(s: string) returns (gaps: seq<string>)
    ensures |gaps| == |Words(s)| + 1 && Separates(Words(s), gaps) && Laid(Words(s), gaps) == s
    ensures s != "" ==> (IsSpace(s[0]) <==> gaps[0] != "")
    decreases |s|
  {
    hide Separates, Laid, WordLength, IsSpace;
    if s == "" {
      gaps := [""];
      NoWords();
    } else if IsSpace(s[0]) {
      var rest := WordsAre(s[1..]);
      gaps := [[s[0]] + rest[0]] + rest[1..];
      LongerGap(Words(s), rest, s[0]);
      assert s == [s[0]] + s[1..];
    } else {
      var n := WordLength(s);
      WordIs(s);
      var rest := WordsAre(s[n..]);
      gaps := [""] + rest;
      assert s == s[..n] + s[n..];
      OneMoreWord(s[..n], Words(s[n..]), rest);
    }
  }

  lemma NoWords()
    ensures Separates([], [""]) && Laid([], [""]) == ""
  {
  }

  lemma LongerGap(words: seq<string>, gaps: seq<string>, c: char)
    requires Separates(words, gaps) && IsSpace(c)
    ensures var grown := [[c] + gaps[0]] + gaps[1..];
            Separates(words, grown) && Laid(words, grown) == [c] + Laid(words, gaps)
  {
    var grown := [[c] + gaps[0]] + gaps[1..];
    if words != [] {
      assert grown[1..] == gaps[1..];
      var rest := Laid(words[1..], gaps[1..]);
      assert ([c] + gaps[0]) + words[0] + rest == [c] + (gaps[0] + words[0] + rest);
    }
  }

  lemma OneMoreWord(word: string, words: seq<string>, gaps: seq<string>)
    requires Separates(words, gaps) && (words != [] ==> gaps[0] != "")
    requires word != "" && forall k | 0 <= k < |word| :: !IsSpace(word[k])
    ensures Separates([word] + words, [""] + gaps) && Laid([word] + words, [""] + gaps) == word + Laid(words, gaps)
  {
    assert ([word] + words)[1..] == words && ([""] + gaps)[1..] == gaps;
    assert "" + word == word;
  }

  lemma {:induction false} JoinPrefix(separator: string, parts: seq<string>, k: nat)
    requires k <= |parts|
    ensures Join(separator, parts[..k]) <= Join(separator, parts)
  {
    if k >= 2 {
      JoinPrefix(separator, parts[1..], k - 1);
      assert parts[..k][1..] == parts[1..][..k - 1];
    } else if k == 1 {
      assert parts[..1] == [parts[0]];
    }
  }

  /** The last `n` entries of a list. */
  function LastEntries<T>(s: seq<T>, n: nat): (r: seq<T>)
    ensures |r| == if |s| <= n then |s| else n
  {
    if |s| <= n then s else s[|s| - n..]
  }
}
