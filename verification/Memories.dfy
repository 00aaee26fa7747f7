/**
  Long-term travel memories: the table rows, the search store that mirrors them, and recall. A call of
  the store that raises is logged and ignored; `outages` names the memories whose store call raises.
 */
module Memories {
  import opened Ranking
  import opened Sequences
  import opened Texts
  import opened Tokens
  import opened Wrappers

  datatype Status = CANDIDATE | CONFIRMED | DELETED

  /** A row; its id is its position in the table, from which no row is ever removed. */
  datatype Memory = Memory(
    user: nat, key: string, kind: string, content: string, confidence: real, status: Status,
    sourceMessage: Option<nat>, sourceRun: Option<nat>, expires: Option<nat>, updated: nat)

  /** The value kept in the store. */
  datatype Entry = Entry(
    id: nat, kind: string, content: string, confidence: real, status: Status,
    sourceMessage: Option<nat>, sourceRun: Option<nat>, expires: Option<nat>, updated: nat)

  datatype Candidate = Candidate(key: string, kind: string, content: string, confidence: real, status: Status)

  /** Entries by user and memory id. */
  type Store = map<(nat, nat), Entry>

  const PAGE: nat := 100

  function Clean(text: string): string {
    Bounded(Normalized(text), 2000)
  }

  function EntryOf(id: nat, m: Memory): Entry {
    Entry(id, m.kind, m.content, m.confidence, m.status, m.sourceMessage, m.sourceRun, m.expires, m.updated)
  }

  // ---- Synchronisation -----------------------------------------------------------------------------

  /** A call of the store by `_sync`: it carries the memory as it was read, which may be some time ago. */
  datatype StoreCall = StoreCall(id: nat, row: Memory)

  /** What a call does when it goes through. */
  function Sent(store: Store, call: StoreCall): Store {
    if call.row.status.DELETED? then store - {(call.row.user, call.id)}
    else store[(call.row.user, call.id) := EntryOf(call.id, call.row)]
  }

  function SentAll(store: Store, calls: seq<StoreCall>, outages: set<nat>): Store {
    if calls == [] then store
    else
      var last := calls[|calls| - 1];
      var before := SentAll(store, calls[..|calls| - 1], outages);
      if last.id in outages then before else Sent(before, last)
  }

  /** The calls for the given memories, when they carry the rows as they are. */
  function CallsFor(rows: seq<Memory>, ids: seq<nat>): (calls: seq<StoreCall>)
    requires Within(ids, |rows|)
    ensures |calls| == |ids|
    ensures forall i | 0 <= i < |ids| :: calls[i] == StoreCall(ids[i], rows[ids[i]])
  {
    seq(|ids|, i requires 0 <= i < |ids| => StoreCall(ids[i], rows[ids[i]]))
  }

  /** `_sync` of one memory, with its row as it is. */
  function Synced(store: Store, rows: seq<Memory>, id: nat, outages: set<nat>): Store
    requires id < |rows|
  {
    if id in outages then store else Sent(store, StoreCall(id, rows[id]))
  }

  function SyncedAll(store: Store, rows: seq<Memory>, ids: seq<nat>, outages: set<nat>): Store
    requires Within(ids, |rows|)
  {
    if ids == [] then store
    else Synced(SyncedAll(store, rows, ids[..|ids| - 1], outages), rows, ids[|ids| - 1], outages)
  }

  lemma {:induction false} CallsAreSynced(store: Store, rows: seq<Memory>, ids: seq<nat>, outages: set<nat>)
    requires Within(ids, |rows|)
    ensures SentAll(store, CallsFor(rows, ids), outages) == SyncedAll(store, rows, ids, outages)
  {
    hide Sent;
    if ids != [] {
      var init := ids[..|ids| - 1];
      CallsAreSynced(store, rows, init, outages);
      assert CallsFor(rows, ids)[..|ids| - 1] == CallsFor(rows, init);
    }
  }

  /** The store never promises more than the table: what it lists as confirmed is confirmed there. */
  predicate Honest(store: Store, rows: seq<Memory>) {
    forall key | key in store ::
      && key.1 < |rows| && rows[key.1].user == key.0
      && store[key].id == key.1 && store[key].expires == rows[key.1].expires
      && (store[key].status.CONFIRMED? ==> rows[key.1].status.CONFIRMED?)
  }

  lemma {:induction false} SyncKeepsHonest(store: Store, rows: seq<Memory>, ids: seq<nat>, outages: set<nat>)
    requires Honest(store, rows) && Within(ids, |rows|)
    ensures Honest(SyncedAll(store, rows, ids, outages), rows)
  {
    if ids != [] {
      SyncKeepsHonest(store, rows, ids[..|ids| - 1], outages);
    }
  }

  /** After a row was changed, the store stays honest exactly when the row's own store call went through, or
      there was nothing to take back: the row is confirmed, or the store did not list it as confirmed. */
  lemma HonestAfterChange(store: Store, rows: seq<Memory>, id: nat, changed: Memory, outages: set<nat>)
    requires Honest(store, rows) && id < |rows|
    requires changed.user == rows[id].user && changed.expires == rows[id].expires
    ensures Honest(Synced(store, rows[id := changed], id, outages), rows[id := changed]) <==>
              || id !in outages || changed.status.CONFIRMED?
              || (changed.user, id) !in store || !store[(changed.user, id)].status.CONFIRMED?
  {
    var key := (changed.user, id);
    if id in outages && key in store {
      assert Synced(store, rows[id := changed], id, outages)[key] == store[key];
    }
  }

  // ---- Extraction ----------------------------------------------------------------------------------

  predicate HasKey(m: Memory, user: nat, key: string) {
    m.user == user && m.key == key
  }

  function FindKey(rows: seq<Memory>, user: nat, key: string, i: nat): (r: Option<nat>)
    requires i <= |rows|
    ensures r.Some? ==> i <= r.value < |rows| && HasKey(rows[r.value], user, key)
    ensures r.None? ==> forall k | i <= k < |rows| :: !HasKey(rows[k], user, key)
    decreases |rows| - i
  {
    if i == |rows| then None
    else if HasKey(rows[i], user, key) then Some(i)
    else FindKey(rows, user, key, i + 1)
  }

  datatype Extraction = Extraction(rows: seq<Memory>, touched: seq<nat>)

  function ExtractOne(e: Extraction, user: nat, c: Candidate, message: nat, run: nat, now: nat): Extraction {
    var found := FindKey(e.rows, user, c.key, 0);
    if found.None? then
      var added := Memory(user, c.key, c.kind, c.content, c.confidence, c.status, Some(message), Some(run), None, now);
      Extraction(e.rows + [added], e.touched + [|e.rows|])
    else
      var old_ := e.rows[found.value];
      if old_.status.DELETED? then e
      else
        var merged := old_.(
          content := c.content,
          confidence := if old_.confidence >= c.confidence then old_.confidence else c.confidence,
          status := if c.status.CONFIRMED? then CONFIRMED else old_.status,
          sourceMessage := Some(message), sourceRun := Some(run), updated := now);
        Extraction(e.rows[found.value := merged], e.touched + [found.value])
  }

  function Extracted(rows: seq<Memory>, user: nat, candidates: seq<Candidate>, message: nat, run: nat, now: nat)
    : Extraction
  {
    if candidates == [] then Extraction(rows, [])
    else
      ExtractOne(Extracted(rows, user, candidates[..|candidates| - 1], message, run, now),
                 user, candidates[|candidates| - 1], message, run, now)
  }

  /** The table's uniqueness constraint on user and key. */
  predicate UniqueKeys(rows: seq<Memory>) {
    forall i, j | 0 <= i < |rows| && 0 <= j < |rows| :: HasKey(rows[i], rows[j].user, rows[j].key) ==> i == j
  }

  /** What extraction may do to the rows: it keeps tombstones as they are, never demotes a confirmed
      memory, and never lowers a confidence. */
  predicate OnlyAdds(before: seq<Memory>, after: seq<Memory>) {
    && |before| <= |after|
    && forall i | 0 <= i < |before| ::
         && HasKey(after[i], before[i].user, before[i].key) && after[i].expires == before[i].expires
         && (before[i].status.DELETED? <==> after[i].status.DELETED?)
         && (before[i].status.DELETED? ==> after[i] == before[i])
         && (before[i].status.CONFIRMED? ==> after[i].status.CONFIRMED?)
         && after[i].confidence >= before[i].confidence
  }

  lemma ExtractOneOnlyAdds(e: Extraction, user: nat, c: Candidate, message: nat, run: nat, now: nat)
    requires UniqueKeys(e.rows) && Within(e.touched, |e.rows|) && !c.status.DELETED?
    ensures var f := ExtractOne(e, user, c, message, run, now);
            OnlyAdds(e.rows, f.rows) && UniqueKeys(f.rows) && Within(f.touched, |f.rows|)
  {
  }

  /** A deletion by the user is final for extraction: over any candidates every deleted row stays as it is,
      and no other row ever gets its key. */
  lemma {:induction false} ExtractionRevivesNothing(rows: seq<Memory>, user: nat, candidates: seq<Candidate>,
                                                    message: nat, run: nat, now: nat)
    requires UniqueKeys(rows)
    requires forall i | 0 <= i < |candidates| :: !candidates[i].status.DELETED?
    ensures var e := Extracted(rows, user, candidates, message, run, now);
            OnlyAdds(rows, e.rows) && UniqueKeys(e.rows) && Within(e.touched, |e.rows|)
  {
    hide ExtractOne, HasKey;
    if candidates == [] {
      Unchanged(rows);
    } else {
      ExtractionRevivesNothing(rows, user, candidates[..|candidates| - 1], message, run, now);
      var e := Extracted(rows, user, candidates[..|candidates| - 1], message, run, now);
      ExtractOneOnlyAdds(e, user, candidates[|candidates| - 1], message, run, now);
      OnlyAddsTwice(rows, e.rows, ExtractOne(e, user, candidates[|candidates| - 1], message, run, now).rows);
    }
  }

  lemma Unchanged(rows: seq<Memory>)
    ensures OnlyAdds(rows, rows)
  {
  }

  lemma OnlyAddsTwice(a: seq<Memory>, b: seq<Memory>, c: seq<Memory>)
    requires OnlyAdds(a, b) && OnlyAdds(b, c)
    ensures OnlyAdds(a, c)
  {
  }

  /** What a row looks like once a candidate was taken in: a deleted one is left alone, any other carries the
      candidate's text and origin, at least its confidence, and its confirmation. */
  predicate TookIn(m: Memory, user: nat, c: Candidate, message: nat, run: nat, now: nat) {
    && m.user == user && m.key == c.key
    && (!m.status.DELETED? ==>
          && m.content == c.content && m.confidence >= c.confidence
          && (c.status.CONFIRMED? ==> m.status.CONFIRMED?)
          && m.sourceMessage == Some(message) && m.sourceRun == Some(run) && m.updated == now)
  }

  lemma OneTakenIn(e: Extraction, user: nat, c: Candidate, message: nat, run: nat, now: nat) returns (id: nat)
    requires !c.status.DELETED?
    ensures var f := ExtractOne(e, user, c, message, run, now);
            && id < |f.rows| && TookIn(f.rows[id], user, c, message, run, now)
            && (!f.rows[id].status.DELETED? ==> id in f.touched)
            && (forall i | 0 <= i < |e.rows| && i != id :: f.rows[i] == e.rows[i])
            && |f.rows| == (if id < |e.rows| then |e.rows| else |e.rows| + 1)
            && (forall i | i in e.touched :: i in f.touched)
  {
    var found := FindKey(e.rows, user, c.key, 0);
    id := if found.Some? then found.value else |e.rows|;
  }

  /** Every candidate is taken in: afterwards its key has a row, which, unless the user deleted it, carries
      what the last candidate with this key said, and is sent to the store. */
  lemma {:induction false} ExtractionTakesIn(rows: seq<Memory>, user: nat, candidates: seq<Candidate>, message: nat,
                                             run: nat, now: nat, k: nat)
    returns (id: nat)
    requires forall i | 0 <= i < |candidates| :: !candidates[i].status.DELETED?
    requires k < |candidates| && forall j | k < j < |candidates| :: candidates[j].key != candidates[k].key
    ensures var e := Extracted(rows, user, candidates, message, run, now);
            && id < |e.rows| && TookIn(e.rows[id], user, candidates[k], message, run, now)
            && (!e.rows[id].status.DELETED? ==> id in e.touched)
  {
    hide ExtractOne;
    var init, last := candidates[..|candidates| - 1], candidates[|candidates| - 1];
    var e := Extracted(rows, user, init, message, run, now);
    var other := OneTakenIn(e, user, last, message, run, now);
    if k == |candidates| - 1 {
      id := other;
    } else {
      id := ExtractionTakesIn(rows, user, init, message, run, now, k);
      assert id != other || TookIn(ExtractOne(e, user, last, message, run, now).rows[id], user, last, message, run,
                                   now);
      OtherKeyStays(e, user, last, message, run, now, id);
    }
  }

  lemma OtherKeyStays(e: Extraction, user: nat, c: Candidate, message: nat, run: nat, now: nat, id: nat)
    requires id < |e.rows| && !HasKey(e.rows[id], user, c.key)
    ensures var f := ExtractOne(e, user, c, message, run, now);
            id < |f.rows| && f.rows[id] == e.rows[id] && forall i | i in e.touched :: i in f.touched
  {
  }

  /** Nothing else is touched: rows under other keys stay, and every new row has a candidate's key. */
  lemma {:induction false} ExtractionAddsOnlyCandidates(rows: seq<Memory>, user: nat, candidates: seq<Candidate>,
                                                        message: nat, run: nat, now: nat, id: nat)
    requires id < |Extracted(rows, user, candidates, message, run, now).rows|
    requires forall k | 0 <= k < |candidates| ::
               !HasKey(Extracted(rows, user, candidates, message, run, now).rows[id], user, candidates[k].key)
    ensures id < |rows| && Extracted(rows, user, candidates, message, run, now).rows[id] == rows[id]
  {
    hide ExtractOne;
    if candidates != [] {
      var init, last := candidates[..|candidates| - 1], candidates[|candidates| - 1];
      var e := Extracted(rows, user, init, message, run, now);
      var f := Extracted(rows, user, candidates, message, run, now);
      UnkeyedStays(e, user, last, message, run, now, id);
      forall k | 0 <= k < |init| ensures !HasKey(e.rows[id], user, init[k].key) {
        assert candidates[k] == init[k];
      }
      ExtractionAddsOnlyCandidates(rows, user, init, message, run, now, id);
    }
  }

  lemma UnkeyedStays(e: Extraction, user: nat, c: Candidate, message: nat, run: nat, now: nat, id: nat)
    requires var f := ExtractOne(e, user, c, message, run, now);
             id < |f.rows| && !HasKey(f.rows[id], user, c.key)
    ensures id < |e.rows| && ExtractOne(e, user, c, message, run, now).rows[id] == e.rows[id]
  {
  }

  /** Extraction cannot make the store dishonest, whichever store calls fail. */
  lemma ExtractionKeepsHonest(store: Store, rows: seq<Memory>, user: nat, candidates: seq<Candidate>,
                              message: nat, run: nat, now: nat, outages: set<nat>)
    requires UniqueKeys(rows) && Honest(store, rows)
    requires forall i | 0 <= i < |candidates| :: !candidates[i].status.DELETED?
    ensures var e := Extracted(rows, user, candidates, message, run, now);
            Within(e.touched, |e.rows|) && Honest(SyncedAll(store, e.rows, e.touched, outages), e.rows)
  {
    hide ExtractOne, Extracted, SyncedAll;
    ExtractionRevivesNothing(rows, user, candidates, message, run, now);
    var e := Extracted(rows, user, candidates, message, run, now);
    assert Honest(store, e.rows);
    SyncKeepsHonest(store, e.rows, e.touched, outages);
  }

  // ---- Recall --------------------------------------------------------------------------------------

  predicate Expired(expires: Option<nat>, now: nat) {
    expires.Some? && expires.value <= now
  }

  /** Whether recall considers a value at all. */
  predicate Usable(entry: Entry, now: nat) {
    Clean(entry.content) != "" && !Expired(entry.expires, now)
  }

  function RankOf(entry: Entry, overlap: string -> nat): Rank {
    Rank(overlap(Clean(entry.content)), entry.updated, Clean(entry.content))
  }

  function Ranked(values: seq<Entry>, overlap: string -> nat, now: nat): seq<Rank> {
    if values == [] then []
    else
      var last := values[|values| - 1];
      Ranked(values[..|values| - 1], overlap, now) + if Usable(last, now) then [RankOf(last, overlap)] else []
  }

  function Contents(ranks: seq<Rank>): seq<string> {
    if ranks == [] then [] else [ranks[0].content] + Contents(ranks[1..])
  }

  function Best(values: seq<Entry>, overlap: string -> nat, now: nat, limit: nat): seq<string> {
    var sorted := Sorted(Ranked(values, overlap, now));
    Contents(if |sorted| <= limit then sorted else sorted[..limit])
  }

  // ---- What recall returns, said without sorting ----------------------------------------------------

  /** More words in common come first, then the later change, then the text that is later in text order. */
  predicate NotBehind(a: Entry, b: Entry, overlap: string -> nat) {
    var x, y := overlap(Clean(a.content)), overlap(Clean(b.content));
    || x > y
    || (x == y && a.updated > b.updated)
    || (x == y && a.updated == b.updated && TextAtMost(Clean(b.content), Clean(a.content)))
  }

  /** The value has a text and has not expired. */
  predicate Recallable(entry: Entry, now: nat) {
    Clean(entry.content) != "" && (entry.expires.None? || entry.expires.value > now)
  }

  /** The contents of the values at these positions, in this order. */
  predicate Recalls(values: seq<Entry>, contents: seq<string>, chosen: seq<nat>, now: nat) {
    && |chosen| == |contents| && Distinct(chosen) && Within(chosen, |values|)
    && forall i | 0 <= i < |chosen| ::
         Recallable(values[chosen[i]], now) && contents[i] == Clean(values[chosen[i]].content)
  }

  /** Nothing stands before a better one, and what is left out is no better than anything returned. */
  predicate BestFirst(values: seq<Entry>, overlap: string -> nat, limit: nat, chosen: seq<nat>, now: nat)
    requires Within(chosen, |values|)
  {
    && |chosen| <= limit
    && (forall i, j | 0 <= i < j < |chosen| :: NotBehind(values[chosen[i]], values[chosen[j]], overlap))
    && (forall p: nat, i | p < |values| && Recallable(values[p], now) && p !in chosen && 0 <= i < |chosen| ::
          NotBehind(values[chosen[i]], values[p], overlap))
    && (|chosen| < limit ==> forall p: nat | p < |values| && Recallable(values[p], now) :: p in chosen)
  }

  /** At most `limit` usable values, each once, the best ones, and the best first. */
  ghost predicate TopRanked(values: seq<Entry>, overlap: string -> nat, now: nat, limit: nat, contents: seq<string>) {
    exists chosen :: Recalls(values, contents, chosen, now) && BestFirst(values, overlap, limit, chosen, now)
  }

  /** The positions of the ranked values. */
  predicate RankedAt(values: seq<Entry>, overlap: string -> nat, now: nat, ranks: seq<Rank>, at: seq<nat>) {
    && |at| == |ranks| && Within(at, |values|) && Distinct(at)
    && (forall i | 0 <= i < |at| :: ranks[i] == RankOf(values[at[i]], overlap))
    && (forall p: nat | p < |values| :: p in at <==> Recallable(values[p], now))
  }

  lemma {:induction false} RankedPositions(values: seq<Entry>, overlap: string -> nat, now: nat) returns (at: seq<nat>)
    ensures RankedAt(values, overlap, now, Ranked(values, overlap, now), at)
  {
    hide Clean, RankOf;
    if values == [] {
      at := [];
    } else {
      var last := |values| - 1;
      at := RankedPositions(values[..last], overlap, now);
      if Usable(values[last], now) {
        at := at + [last];
      }
    }
  }

  lemma {:induction false} ContentsAre(ranks: seq<Rank>)
    ensures |Contents(ranks)| == |ranks|
    ensures forall i | 0 <= i < |ranks| :: Contents(ranks)[i] == ranks[i].content
  {
    if ranks != [] {
      ContentsAre(ranks[1..]);
    }
  }

  /** The first `n` of a list in falling order, seen at their positions. */
  function Picked(at: seq<nat>, perm: seq<nat>, n: nat): (r: seq<nat>)
    requires n <= |perm| && Within(perm, |at|)
    ensures |r| == n && forall i | 0 <= i < n :: r[i] == at[perm[i]]
  {
    seq(n, i requires 0 <= i < n => at[perm[i]])
  }

  lemma SortedIsRanked(values: seq<Entry>, overlap: string -> nat, now: nat) returns (order: seq<nat>)
    ensures RankedAt(values, overlap, now, Sorted(Ranked(values, overlap, now)), order)
  {
    hide Ranked, Sorted, RankOf, Recallable;
    var ranks := Ranked(values, overlap, now);
    var at := RankedPositions(values, overlap, now);
    var perm := SortedPositions(ranks);
    order := Picked(at, perm, |ranks|);
    ReordersAll(perm, |ranks|);
    forall p: nat | p < |values| ensures p in order <==> Recallable(values[p], now) {
      if Recallable(values[p], now) {
        var q :| 0 <= q < |at| && at[q] == p;
        assert q in perm;
        var i :| 0 <= i < |perm| && perm[i] == q;
        assert order[i] == p;
      }
    }
  }

  lemma FallingOrder(values: seq<Entry>, overlap: string -> nat, now: nat, order: seq<nat>, i: nat, j: nat)
    requires RankedAt(values, overlap, now, Sorted(Ranked(values, overlap, now)), order) && i < j < |order|
    ensures NotBehind(values[order[i]], values[order[j]], overlap)
  {
    hide Ranked, Sorted, Clean;
    SortedIsSorted(Ranked(values, overlap, now));
    var sorted := Sorted(Ranked(values, overlap, now));
    assert AtMost(sorted[j], sorted[i]);
  }

  /** The ranking, sorting and cutting return the best values, the best first. */
  lemma BestIsTopRanked(values: seq<Entry>, overlap: string -> nat, now: nat, limit: nat)
    ensures TopRanked(values, overlap, now, limit, Best(values, overlap, now, limit))
  {
    hide Ranked, Sorted, NotBehind, Recallable, Clean;
    var sorted := Sorted(Ranked(values, overlap, now));
    var order := SortedIsRanked(values, overlap, now);
    var n := if |sorted| <= limit then |sorted| else limit;
    var chosen := order[..n];
    assert Best(values, overlap, now, limit) == Contents(sorted[..n]) by {
      assert sorted[..|sorted|] == sorted;
    }
    ContentsAre(sorted[..n]);
    forall i | 0 <= i < n ensures Recallable(values[chosen[i]], now) {
      assert order[i] in order;
    }
    forall i, j | 0 <= i < j < |order| ensures NotBehind(values[order[i]], values[order[j]], overlap) {
      FallingOrder(values, overlap, now, order, i, j);
    }
    forall p: nat, i | p < |values| && Recallable(values[p], now) && p !in chosen && 0 <= i < n
      ensures NotBehind(values[chosen[i]], values[p], overlap)
    {
      assert forall k | 0 <= k < n :: order[k] == chosen[k];
      var j :| 0 <= j < |order| && order[j] == p;
    }
    assert Recalls(values, Best(values, overlap, now, limit), chosen, now);
    assert BestFirst(values, overlap, limit, chosen, now);
  }

  /** What a query with a limit may return: distinct matches in some order, all of them if they are few. */
  predicate Page(ids: seq<nat>, all: set<nat>) {
    Distinct(ids) && (forall x | x in ids :: x in all) && |ids| == Min(|all|, PAGE)
  }

  function ConfirmedIds(rows: seq<Memory>, user: nat): set<nat> {
    set i | 0 <= i < |rows| && rows[i].user == user && rows[i].status.CONFIRMED? :: i
  }

  function LiveIds(rows: seq<Memory>, user: nat, now: nat): set<nat> {
    set i | i in ConfirmedIds(rows, user) && !Expired(rows[i].expires, now)
  }

  function ListedIds(store: Store, user: nat): set<nat> {
    set key | key in store && key.0 == user && store[key].status.CONFIRMED? :: key.1
  }

  function RowEntries(rows: seq<Memory>, ids: seq<nat>): (r: seq<Entry>)
    requires Within(ids, |rows|)
    ensures |r| == |ids|
    ensures forall i | 0 <= i < |ids| :: r[i] == EntryOf(ids[i], rows[ids[i]])
  {
    seq(|ids|, i requires 0 <= i < |ids| => EntryOf(ids[i], rows[ids[i]]))
  }

  predicate Stored(store: Store, user: nat, ids: seq<nat>) {
    forall i | 0 <= i < |ids| :: (user, ids[i]) in store
  }

  function StoreEntries(store: Store, user: nat, ids: seq<nat>): (r: seq<Entry>)
    requires Stored(store, user, ids)
    ensures |r| == |ids|
    ensures forall i | 0 <= i < |ids| :: r[i] == store[(user, ids[i])]
  {
    seq(|ids|, i requires 0 <= i < |ids| => store[(user, ids[i])])
  }

  lemma {:induction false} RankedJoin(a: seq<Entry>, b: seq<Entry>, overlap: string -> nat, now: nat)
    ensures Ranked(a + b, overlap, now) == Ranked(a, overlap, now) + Ranked(b, overlap, now)
  {
    hide Usable, RankOf;
    if b == [] {
      assert a + b == a;
    } else {
      assert (a + b)[..|a + b| - 1] == a + b[..|b| - 1];
      RankedJoin(a, b[..|b| - 1], overlap, now);
    }
  }

  lemma RankedOne(x: Entry, overlap: string -> nat, now: nat)
    ensures Ranked([x], overlap, now) == if Usable(x, now) then [RankOf(x, overlap)] else []
  {
    hide Usable, RankOf;
    assert [x][..0] == [];
  }

  /** Leaving one value out takes its rank, if it has one, out of the bag of ranks. */
  lemma RankedWithout(s: seq<Entry>, i: nat, overlap: string -> nat, now: nat)
    requires i < |s|
    ensures multiset(Ranked(s, overlap, now))
         == multiset(Ranked(s[..i] + s[i + 1..], overlap, now)) + multiset(Ranked([s[i]], overlap, now))
  {
    hide Usable, RankOf;
    assert s == s[..i] + [s[i]] + s[i + 1..];
    RankedJoin(s[..i] + [s[i]], s[i + 1..], overlap, now);
    RankedJoin(s[..i], [s[i]], overlap, now);
    RankedJoin(s[..i], s[i + 1..], overlap, now);
  }

  ghost predicate SameUsable(a: seq<Entry>, b: seq<Entry>, now: nat) {
    forall x: Entry | Usable(x, now) :: x in a <==> x in b
  }

  /** Two lists without repetitions and with the same usable values have the same ranks. */
  lemma {:induction false} SameRanks(a: seq<Entry>, b: seq<Entry>, overlap: string -> nat, now: nat)
    requires Distinct(a) && Distinct(b) && SameUsable(a, b, now)
    ensures multiset(Ranked(a, overlap, now)) == multiset(Ranked(b, overlap, now))
    decreases |a| + |b|, |b|
  {
    hide RankOf, Usable, Ranked;
    if a == [] && b == [] {
    } else if a == [] {
      SameRanks(b, a, overlap, now);
    } else {
      var x, rest := a[0], a[1..];
      assert a[..0] + a[1..] == rest;
      RankedWithout(a, 0, overlap, now);
      RankedOne(x, overlap, now);
      if Usable(x, now) {
        assert x in b;
        var i :| 0 <= i < |b| && b[i] == x;
        RankedWithout(b, i, overlap, now);
        WithoutOne(a, 0);
        WithoutOne(b, i);
        SameRanks(rest, b[..i] + b[i + 1..], overlap, now);
      } else {
        WithoutOne(a, 0);
        SameRanks(rest, b, overlap, now);
      }
    }
  }

  lemma WithoutOne(s: seq<Entry>, i: nat)
    requires Distinct(s) && i < |s|
    ensures Distinct(s[..i] + s[i + 1..])
    ensures forall x: Entry :: x in s[..i] + s[i + 1..] <==> x in s && x != s[i]
  {
    var rest := s[..i] + s[i + 1..];
    forall x: Entry | x in s && x != s[i] ensures x in rest {
      var k :| 0 <= k < |s| && s[k] == x;
      assert x == rest[if k < i then k else k - 1];
    }
  }

  /** A page over few enough matches has all of them. */
  lemma PageHasAll(ids: seq<nat>, all: set<nat>)
    requires Page(ids, all) && |all| <= PAGE
    ensures forall x :: x in ids <==> x in all
  {
    ListCount(ids);
    SubsetCount(Elements(ids), all);
  }

  lemma {:induction false} SyncedEntries(store: Store, rows: seq<Memory>, ids: seq<nat>, key: (nat, nat))
    requires Within(ids, |rows|)
    requires forall i | 0 <= i < |ids| :: !rows[ids[i]].status.DELETED?
    ensures var after := SyncedAll(store, rows, ids, {});
            var written := key.1 in ids && rows[key.1].user == key.0;
            && (key in after <==> written || key in store)
            && (written ==> after[key] == EntryOf(key.1, rows[key.1]))
            && (!written && key in store ==> after[key] == store[key])
  {
    if ids != [] {
      SyncedEntries(store, rows, ids[..|ids| - 1], key);
      assert ids == ids[..|ids| - 1] + [ids[|ids| - 1]];
    }
  }

  /** After recall's own synchronisation an honest store lists the user's confirmed rows, except that
      expired ones may be missing, and every usable listed value is the row's own. */
  lemma ListedAfterSync(store: Store, rows: seq<Memory>, user: nat, now: nat, records: seq<nat>)
    requires Honest(store, rows) && Within(records, |rows|)
    requires forall x :: x in records <==> x in LiveIds(rows, user, now)
    ensures var after := SyncedAll(store, rows, records, {});
            && LiveIds(rows, user, now) <= ListedIds(after, user) <= ConfirmedIds(rows, user)
            && (forall id | id in LiveIds(rows, user, now) :: after[(user, id)] == EntryOf(id, rows[id]))
            && (forall id | id in ListedIds(after, user) && id !in LiveIds(rows, user, now) ::
                  (user, id) in after && Expired(after[(user, id)].expires, now))
  {
    hide SyncedAll;
    var after := SyncedAll(store, rows, records, {});
    assert forall i | 0 <= i < |records| :: records[i] in records;
    SyncKeepsHonest(store, rows, records, {});
    forall id | id in LiveIds(rows, user, now)
      ensures (user, id) in after && after[(user, id)] == EntryOf(id, rows[id]) && id in ListedIds(after, user)
    {
      SyncedEntries(store, rows, records, (user, id));
      assert (user, id) in after;
    }
  }

  /** Recall through an honest store returns what the table itself would give, in the same order, for every
      user with at most a page of confirmed memories: whatever order either of the two lists them in. */
  lemma RecallAgrees(store: Store, rows: seq<Memory>, user: nat, now: nat, records: seq<nat>, listing: seq<nat>,
                     overlap: string -> nat, limit: nat)
    requires Honest(store, rows) && |ConfirmedIds(rows, user)| <= PAGE
    requires Within(records, |rows|) && Page(records, LiveIds(rows, user, now))
    requires var after := SyncedAll(store, rows, records, {});
             Page(listing, ListedIds(after, user)) && Stored(after, user, listing)
    ensures Best(StoreEntries(SyncedAll(store, rows, records, {}), user, listing), overlap, now, limit)
         == Best(RowEntries(rows, records), overlap, now, limit)
  {
    hide Ranked, Sorted, SyncedAll, Contents;
    var after := SyncedAll(store, rows, records, {});
    assert LiveIds(rows, user, now) <= ConfirmedIds(rows, user);
    SubsetCount(LiveIds(rows, user, now), ConfirmedIds(rows, user));
    PageHasAll(records, LiveIds(rows, user, now));
    ListedAfterSync(store, rows, user, now, records);
    SyncKeepsHonest(store, rows, records, {});
    SubsetCount(ListedIds(after, user), ConfirmedIds(rows, user));
    PageHasAll(listing, ListedIds(after, user));
    SameValues(after, rows, user, now, records, listing);
    var fromStore, fromTable := StoreEntries(after, user, listing), RowEntries(rows, records);
    SameRanks(fromStore, fromTable, overlap, now);
    SortForgetsOrder(Ranked(fromStore, overlap, now), Ranked(fromTable, overlap, now));
  }

  lemma SameValues(after: Store, rows: seq<Memory>, user: nat, now: nat, records: seq<nat>, listing: seq<nat>)
    requires Honest(after, rows)
    requires Distinct(records) && Distinct(listing) && Within(records, |rows|) && Stored(after, user, listing)
    requires forall x :: x in records <==> x in LiveIds(rows, user, now)
    requires forall x :: x in listing <==> x in ListedIds(after, user)
    requires LiveIds(rows, user, now) <= ListedIds(after, user)
    requires forall id | id in LiveIds(rows, user, now) ::
               (user, id) in after && after[(user, id)] == EntryOf(id, rows[id])
    requires forall id | id in ListedIds(after, user) && id !in LiveIds(rows, user, now) ::
               (user, id) in after && Expired(after[(user, id)].expires, now)
    ensures var a, b := StoreEntries(after, user, listing), RowEntries(rows, records);
            Distinct(a) && Distinct(b) && SameUsable(a, b, now)
  {
    hide Usable, LiveIds, ListedIds, Honest;
    var a, b := StoreEntries(after, user, listing), RowEntries(rows, records);
    forall i | 0 <= i < |listing| ensures a[i].id == listing[i] {
      HonestId(after, rows, (user, listing[i]));
    }
    forall x: Entry | Usable(x, now) ensures x in a <==> x in b {
      if x in a {
        var i :| 0 <= i < |listing| && a[i] == x;
        assert listing[i] in listing;
        if listing[i] !in LiveIds(rows, user, now) {
          UsableIsNotExpired(x, now);
        } else {
          assert listing[i] in records;
          var j :| 0 <= j < |records| && records[j] == listing[i];
          assert b[j] == x;
        }
      }
      if x in b {
        var j :| 0 <= j < |records| && b[j] == x;
        assert records[j] in records;
        assert records[j] in listing;
        var i :| 0 <= i < |listing| && listing[i] == records[j];
        assert a[i] == x;
      }
    }
  }

  lemma HonestId(store: Store, rows: seq<Memory>, key: (nat, nat))
    requires Honest(store, rows) && key in store
    ensures store[key].id == key.1
  {
  }

  lemma UsableIsNotExpired(entry: Entry, now: nat)
    requires Usable(entry, now)
    ensures !Expired(entry.expires, now)
  {
  }
}
