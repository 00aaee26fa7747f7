/** Descending order of recall candidates: Python's order on (overlap, updated, content) tuples. */
module Ranking {
  import opened Sequences

  /** `updated` stands for the time stamp text: all of them are in one zone, so they sort by time. */
  datatype Rank = Rank(overlap: nat, updated: nat, content: string)

  /** Lexicographic order by code point. */
  predicate TextAtMost(a: string, b: string) {
    a == "" || (b != "" && (a[0] < b[0] || (a[0] == b[0] && TextAtMost(a[1..], b[1..]))))
  }

  predicate AtMost(a: Rank, b: Rank) {
    || a.overlap < b.overlap
    || (a.overlap == b.overlap
        && (a.updated < b.updated || (a.updated == b.updated && TextAtMost(a.content, b.content))))
  }

  lemma {:induction false} TextOrder(a: string, b: string)
    ensures TextAtMost(a, b) || TextAtMost(b, a)
    ensures TextAtMost(a, b) && TextAtMost(b, a) ==> a == b
  {
    if a != "" && b != "" {
      TextOrder(a[1..], b[1..]);
      assert a == [a[0]] + a[1..] && b == [b[0]] + b[1..];
    }
  }

  lemma {:induction false} TextTransitive(a: string, b: string, c: string)
    requires TextAtMost(a, b) && TextAtMost(b, c)
    ensures TextAtMost(a, c)
  {
    if a != "" && a[0] == b[0] == c[0] {
      TextTransitive(a[1..], b[1..], c[1..]);
    }
  }

  predicate Descending(s: seq<Rank>) {
    forall i, j | 0 <= i < j < |s| :: AtMost(s[j], s[i])
  }

  function Insert(x: Rank, s: seq<Rank>): seq<Rank> {
    if s == [] then [x]
    else if AtMost(s[0], x) then [x] + s
    else [s[0]] + Insert(x, s[1..])
  }

  /** `ranked.sort(reverse=True)` */
  function Sorted(s: seq<Rank>): seq<Rank> {
    if s == [] then [] else Insert(s[0], Sorted(s[1..]))
  }

  lemma {:induction false} InsertIsSorted(x: Rank, s: seq<Rank>)
    requires Descending(s)
    ensures Descending(Insert(x, s)) && multiset(Insert(x, s)) == multiset(s) + multiset{x}
  {
    hide AtMost;
    if s == [] {
    } else if AtMost(s[0], x) {
      forall i | 0 <= i < |s| ensures AtMost(s[i], x) {
        Chain(s[i], s[0], x);
      }
    } else {
      assert s == [s[0]] + s[1..];
      InsertIsSorted(x, s[1..]);
      Total(s[0], x);
      var rest := Insert(x, s[1..]);
      forall i | 0 <= i < |rest| ensures AtMost(rest[i], s[0]) {
        assert rest[i] in multiset(rest);
      }
    }
  }

  lemma Total(a: Rank, b: Rank)
    ensures AtMost(a, b) || AtMost(b, a)
    ensures AtMost(a, b) && AtMost(b, a) ==> a == b
  {
    TextOrder(a.content, b.content);
  }

  lemma Chain(a: Rank, b: Rank, c: Rank)
    requires a == b || AtMost(a, b)
    requires AtMost(b, c)
    ensures AtMost(a, c)
  {
    if a != b && TextAtMost(a.content, b.content) && TextAtMost(b.content, c.content) {
      TextTransitive(a.content, b.content, c.content);
    }
  }

  lemma {:induction false} SortedIsSorted(s: seq<Rank>)
    ensures Descending(Sorted(s)) && multiset(Sorted(s)) == multiset(s)
  {
    if s == [] {
    } else {
      SortedIsSorted(s[1..]);
      InsertIsSorted(s[0], Sorted(s[1..]));
      assert s == [s[0]] + s[1..];
    }
  }

  /** There is one descending order, because equal ranks are the same rank. */
  lemma {:induction false} DescendingIsUnique(a: seq<Rank>, b: seq<Rank>)
    requires Descending(a) && Descending(b) && multiset(a) == multiset(b)
    ensures a == b
  {
    hide AtMost, Descending;
    if a == [] {
      assert |multiset(b)| == 0;
    } else {
      assert |multiset(a)| == |multiset(b)|;
      assert a[0] in multiset(b) && b[0] in multiset(a);
      HeadIsGreatest(a, b[0]);
      HeadIsGreatest(b, a[0]);
      Total(a[0], b[0]);
      Peel(a);
      Peel(b);
      DescendingIsUnique(a[1..], b[1..]);
    }
  }

  lemma Peel(s: seq<Rank>)
    requires s != [] && Descending(s)
    ensures s == [s[0]] + s[1..]
    ensures Descending(s[1..]) && multiset(s[1..]) == multiset(s) - multiset{s[0]}
  {
    hide AtMost;
    assert s == [s[0]] + s[1..];
  }

  lemma HeadIsGreatest(s: seq<Rank>, x: Rank)
    requires Descending(s) && x in s
    ensures x == s[0] || AtMost(x, s[0])
  {
    hide AtMost;
  }

  /** The sorted list depends on the entries only, not on the order they came in. */
  lemma SortForgetsOrder(a: seq<Rank>, b: seq<Rank>)
    requires multiset(a) == multiset(b)
    ensures Sorted(a) == Sorted(b)
  {
    hide Sorted, Descending;
    SortedIsSorted(a);
    SortedIsSorted(b);
    DescendingIsUnique(Sorted(a), Sorted(b));
  }

  /** Up to `i` the texts agree, and there `a` has the smaller character. */
  predicate DiffersAt(a: string, b: string, i: nat) {
    i < |a| && i < |b| && a[..i] == b[..i] && a[i] < b[i]
  }

  /** Text order, said without recursion: a prefix, or a smaller character where the texts first differ. */
  lemma {:induction false} TextOrderIs(a: string, b: string)
    ensures TextAtMost(a, b) <==>
              || a <= b
              || exists i: nat :: DiffersAt(a, b, i)
  {
    if a != "" && b != "" && a[0] == b[0] {
      TextOrderIs(a[1..], b[1..]);
      assert a == [a[0]] + a[1..] && b == [b[0]] + b[1..];
      DifferLater(a, b);
    } else if a != "" && b != "" && a[0] < b[0] {
      assert DiffersAt(a, b, 0);
    }
  }

  lemma DifferLater(a: string, b: string)
    requires a != "" && b != "" && a[0] == b[0]
    ensures (exists i: nat :: DiffersAt(a, b, i)) <==> (exists i: nat :: DiffersAt(a[1..], b[1..], i))
  {
    forall i: nat | DiffersAt(a[1..], b[1..], i) ensures DiffersAt(a, b, i + 1) {
      assert a[..i + 1] == [a[0]] + a[1..][..i] && b[..i + 1] == [b[0]] + b[1..][..i];
    }
    forall i: nat | DiffersAt(a, b, i) ensures i > 0 && DiffersAt(a[1..], b[1..], i - 1) {
      assert i > 0;
      assert a[1..][..i - 1] == a[..i][1..] && b[1..][..i - 1] == b[..i][1..];
    }
  }

  lemma {:induction false} InsertedAt(x: Rank, s: seq<Rank>) returns (k: nat)
    ensures k <= |s| && Insert(x, s) == s[..k] + [x] + s[k..]
  {
    if s == [] || AtMost(s[0], x) {
      k := 0;
    } else {
      k := InsertedAt(x, s[1..]);
      assert s[..k + 1] == [s[0]] + s[1..][..k];
      k := k + 1;
    }
  }

  /** Sorting reorders: every entry of the sorted list stands at one position of the given one. */
  lemma {:induction false} SortedPositions(s: seq<Rank>) returns (perm: seq<nat>)
    ensures Reorders(perm, |s|) && |Sorted(s)| == |s|
    ensures forall i | 0 <= i < |s| :: Sorted(s)[i] == s[perm[i]]
  {
    hide Reorders, PutAt, Insert;
    if s == [] {
      perm := [];
      NothingReorders();
    } else {
      var rest := SortedPositions(s[1..]);
      ReorderedWithin(rest, |s| - 1);
      var sorted := Sorted(s[1..]);
      var k := InsertedAt(s[0], sorted);
      perm := PutAt(rest, k);
      PutAtReorders(rest, k, |s| - 1);
      ReorderedWithin(perm, |s|);
      forall i | 0 <= i < |s| ensures Sorted(s)[i] == s[perm[i]] {
        if i < k {
          assert Sorted(s)[i] == sorted[i];
        } else if i > k {
          assert Sorted(s)[i] == sorted[i - 1];
        }
      }
    }
  }
}
