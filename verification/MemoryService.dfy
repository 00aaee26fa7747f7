/** The memory service: its operations over the table and the store, and what every history keeps. */
module MemoryService {
  import opened Memories
  import opened Ranking
  import opened Sequences
  import opened Texts
  import opened Wrappers

  datatype Memos = Memos(rows: seq<Memory>, store: Store)

  datatype Operation =
    | Create(user: nat, content: string, kind: string, key: string)
    | Extract(user: nat, candidates: seq<Candidate>, message: nat, run: nat)
    | Edit(user: nat, id: nat, newContent: Option<string>, newStatus: Option<Status>)
    | Remove(user: nat, id: nat)
    | Refresh(user: nat, records: seq<nat>)  // the synchronisation every recall does first

  /** What the callers guarantee: no candidate and no edit is a deletion, and a manual key is new. */
  predicate Allowed(rows: seq<Memory>, op: Operation) {
    match op
    case Create(user, _, _, key) => FindKey(rows, user, key, 0).None?
    case Extract(_, candidates, _, _) => forall i | 0 <= i < |candidates| :: !candidates[i].status.DELETED?
    case Edit(_, _, _, newStatus) => newStatus.Some? ==> !newStatus.value.DELETED?
    case Remove(_, _) => true
    case Refresh(_, records) => Within(records, |rows|)
  }

  /** The row is the user's and not deleted. */
  predicate Visible(rows: seq<Memory>, user: nat, id: nat) {
    id < |rows| && rows[id].user == user && !rows[id].status.DELETED?
  }

  function Edited(m: Memory, content: Option<string>, status: Option<Status>, now: nat): Memory {
    m.(content := if content.Some? then Clean(content.value) else m.content,
       confidence := if content.Some? then 1.0 else m.confidence,
       status := if status.Some? then status.value else m.status,
       updated := now)
  }

  function ManualMemory(user: nat, content: string, kind: string, key: string, now: nat): Memory {
    Memory(user, key, kind, Clean(content), 1.0, CONFIRMED, None, None, None, now)
  }

  // ---- The table transaction of each operation ------------------------------------------------------

  /** The committed rows, and the memories whose store calls follow. */
  datatype Committed = Committed(rows: seq<Memory>, touched: seq<nat>)

  /** The table part of an operation at time `now`. */
  function Transaction(rows: seq<Memory>, op: Operation, now: nat): (c: Committed)
    requires Allowed(rows, op) && UniqueKeys(rows)
    ensures Within(c.touched, |c.rows|)
  {
    match op
    case Create(user, content, kind, key) =>
      Committed(rows + [ManualMemory(user, content, kind, key, now)], [|rows|])
    case Extract(user, candidates, message, run) =>
      ExtractionRevivesNothing(rows, user, candidates, message, run, now);
      var e := Extracted(rows, user, candidates, message, run, now);
      Committed(e.rows, e.touched)
    case Edit(user, id, newContent, newStatus) =>
      if Visible(rows, user, id)
      then Committed(rows[id := Edited(rows[id], newContent, newStatus, now)], [id])
      else Committed(rows, [])
    case Remove(user, id) =>
      if Visible(rows, user, id)
      then Committed(rows[id := rows[id].(status := DELETED, updated := now)], [id])
      else Committed(rows, [])
    case Refresh(_, records) => Committed(rows, records)
  }

  /** A manual memory is appended: confirmed, certain, without an end, its text cleaned; no other row changes. */
  lemma CreateOutcome(rows: seq<Memory>, user: nat, content: string, kind: string, key: string, now: nat)
    requires Allowed(rows, Create(user, content, kind, key)) && UniqueKeys(rows)
    ensures var c := Transaction(rows, Create(user, content, kind, key), now);
            && |c.rows| == |rows| + 1 && c.rows[..|rows|] == rows && c.touched == [|rows|]
            && var m := c.rows[|rows|];
               && m.user == user && m.key == key && m.kind == kind && m.content == Bounded(Normalized(content), 2000)
               && m.confidence == 1.0 && m.status == CONFIRMED && m.expires == None && m.updated == now
  {
  }

  /** An edit or deletion of the user's own undeleted memory changes exactly what was asked for; of any other
      it changes nothing. */
  lemma ChangeOutcome(rows: seq<Memory>, op: Operation, now: nat)
    requires Allowed(rows, op) && UniqueKeys(rows) && (op.Edit? || op.Remove?)
    ensures var c := Transaction(rows, op, now);
            && |c.rows| == |rows|
            && (forall i | 0 <= i < |rows| && i != op.id :: c.rows[i] == rows[i])
            && if op.id >= |rows| || rows[op.id].user != op.user || rows[op.id].status.DELETED?
               then c.rows == rows && c.touched == []
               else
                 var before, after := rows[op.id], c.rows[op.id];
                 && c.touched == [op.id] && after.updated == now
                 && (op.Remove? ==> after == before.(status := DELETED, updated := now))
                 && (op.Edit? ==>
                       && after.content == (if op.newContent.Some? then Bounded(Normalized(op.newContent.value), 2000)
                                            else before.content)
                       && after.confidence == (if op.newContent.Some? then 1.0 else before.confidence)
                       && after.status == (if op.newStatus.Some? then op.newStatus.value else before.status)
                       && after.key == before.key && after.kind == before.kind && after.expires == before.expires
                       && after.sourceMessage == before.sourceMessage && after.sourceRun == before.sourceRun)
  {
  }

  /** Rows are only added, and neither change hands nor expiry. */
  predicate Persist(before: seq<Memory>, after: seq<Memory>) {
    && |before| <= |after|
    && forall i | 0 <= i < |before| :: after[i].user == before[i].user && after[i].expires == before[i].expires
  }

  lemma TransactionKeeps(rows: seq<Memory>, op: Operation, now: nat)
    requires Allowed(rows, op) && UniqueKeys(rows)
    ensures UniqueKeys(Transaction(rows, op, now).rows) && Persist(rows, Transaction(rows, op, now).rows)
  {
    hide Extracted, Clean;
    if op.Extract? {
      ExtractionRevivesNothing(rows, op.user, op.candidates, op.message, op.run, now);
    }
  }

  // ---- An operation that nothing interrupts ---------------------------------------------------------

  /** The transaction, followed at once by its store calls; those for the memories in `outages` raise. */
  function Apply(s: Memos, op: Operation, now: nat, outages: set<nat>): Memos
    requires Allowed(s.rows, op) && UniqueKeys(s.rows)
  {
    var c := Transaction(s.rows, op, now);
    Memos(c.rows, SyncedAll(s.store, c.rows, c.touched, outages))
  }

  lemma OneSynced(store: Store, rows: seq<Memory>, id: nat, outages: set<nat>)
    requires id < |rows|
    ensures SyncedAll(store, rows, [id], outages)
         == if id in outages then store else Sent(store, StoreCall(id, rows[id]))
  {
    assert [id][..0] == [];
  }

  /** The operation's own store call goes through. */
  predicate Reaches(op: Operation, outages: set<nat>) {
    match op
    case Edit(_, id, _, _) => id !in outages
    case Remove(_, id) => id !in outages
    case _ => true
  }

  /** The operation withdraws a memory that the store lists as confirmed: it deletes it, or makes it a
      candidate again. */
  predicate TakesBack(s: Memos, op: Operation) {
    match op
    case Edit(user, id, _, newStatus) =>
      Visible(s.rows, user, id) && newStatus == Some(CANDIDATE) && Listed(s.store, user, id)
    case Remove(user, id) => Visible(s.rows, user, id) && Listed(s.store, user, id)
    case _ => false
  }

  predicate Listed(store: Store, user: nat, id: nat) {
    (user, id) in store && store[(user, id)].status.CONFIRMED?
  }

  /** An uninterrupted operation makes an honest store dishonest exactly when it takes back a memory and its
      store call is lost. */
  lemma ApplyKeepsHonest(s: Memos, op: Operation, now: nat, outages: set<nat>)
    requires Allowed(s.rows, op) && UniqueKeys(s.rows) && Honest(s.store, s.rows)
    ensures var t := Apply(s, op, now, outages);
            Honest(t.store, t.rows) <==> Reaches(op, outages) || !TakesBack(s, op)
  {
    hide SyncedAll, Extracted, Clean, Within, Sent;
    match op
    case Create(user, content, kind, key) =>
      var rows := s.rows + [ManualMemory(user, content, kind, key, now)];
      OneSynced(s.store, rows, |s.rows|, outages);
      CreatedHonest(s.store, rows, |s.rows|, outages);
    case Extract(user, candidates, message, run) =>
      ExtractionKeepsHonest(s.store, s.rows, user, candidates, message, run, now, outages);
    case Edit(user, id, newContent, newStatus) =>
      if Visible(s.rows, user, id) {
        ChangedHonest(s, id, Edited(s.rows[id], newContent, newStatus, now), outages);
      } else {
        NothingSynced(s);
      }
    case Remove(user, id) =>
      if Visible(s.rows, user, id) {
        ChangedHonest(s, id, s.rows[id].(status := DELETED, updated := now), outages);
      } else {
        NothingSynced(s);
      }
    case Refresh(_, records) => SyncKeepsHonest(s.store, s.rows, records, outages);
  }

  lemma NothingSynced(s: Memos)
    ensures forall outages :: SyncedAll(s.store, s.rows, [], outages) == s.store
  {
  }

  lemma CreatedHonest(store: Store, rows: seq<Memory>, id: nat, outages: set<nat>)
    requires Honest(store, rows) && id < |rows| && rows[id].status.CONFIRMED?
    ensures Honest(Synced(store, rows, id, outages), rows)
  {
  }

  lemma ChangedHonest(s: Memos, id: nat, changed: Memory, outages: set<nat>)
    requires Honest(s.store, s.rows) && id < |s.rows|
    requires changed.user == s.rows[id].user && changed.expires == s.rows[id].expires
    ensures Honest(SyncedAll(s.store, s.rows[id := changed], [id], outages), s.rows[id := changed]) <==>
              id !in outages || changed.status.CONFIRMED? || !Listed(s.store, changed.user, id)
  {
    hide Honest, SyncedAll;
    OneSynced(s.store, s.rows[id := changed], id, outages);
    HonestAfterChange(s.store, s.rows, id, changed, outages);
  }

  // ---- Operations that overlap ----------------------------------------------------------------------

  /** What happens when processes overlap: transactions commit one after the other, but a store call reaches
      the store at any later moment, in any order, or is lost. It carries the row its transaction read. */
  datatype Event =
    | Commit(op: Operation, now: nat)
    | Deliver(call: StoreCall)
    | Lose(call: StoreCall)

  datatype World = World(rows: seq<Memory>, store: Store, pending: multiset<StoreCall>)

  predicate Possible(w: World, e: Event) {
    match e
    case Commit(op, _) => UniqueKeys(w.rows) && Allowed(w.rows, op)
    case Deliver(call) => call in w.pending
    case Lose(call) => call in w.pending
  }

  function Next(w: World, e: Event): World
    requires Possible(w, e)
  {
    match e
    case Commit(op, now) =>
      var c := Transaction(w.rows, op, now);
      World(c.rows, w.store, w.pending + multiset(CallsFor(c.rows, c.touched)))
    case Deliver(call) => World(w.rows, Sent(w.store, call), w.pending - multiset{call})
    case Lose(call) => World(w.rows, w.store, w.pending - multiset{call})
  }

  const EMPTY_WORLD := World([], map[], multiset{})

  function Played(trace: seq<Event>): Option<World> {
    if trace == [] then Some(EMPTY_WORLD)
    else
      var w := Played(trace[..|trace| - 1]);
      var e := trace[|trace| - 1];
      if w.Some? && Possible(w.value, e) then Some(Next(w.value, e)) else None
  }

  /** The row carried by the last call about a memory that went through. */
  function LastSent(trace: seq<Event>, id: nat): Option<Memory> {
    if trace == [] then None
    else
      var e := trace[|trace| - 1];
      if e.Deliver? && e.call.id == id then Some(e.call.row) else LastSent(trace[..|trace| - 1], id)
  }

  /** The call is about a row of the table, whatever the row was like when it was read. */
  predicate Known(rows: seq<Memory>, call: StoreCall) {
    call.id < |rows| && call.row.user == rows[call.id].user && call.row.expires == rows[call.id].expires
  }

  predicate KnownPending(w: World) {
    forall call | call in w.pending :: Known(w.rows, call)
  }

  predicate OwnEntries(store: Store, rows: seq<Memory>) {
    forall key | key in store ::
      && key.1 < |rows| && key.0 == rows[key.1].user
      && store[key].id == key.1 && store[key].expires == rows[key.1].expires
  }

  /** What the store holds about a memory is what was last sent about it. */
  predicate HoldsLast(w: World, trace: seq<Event>, id: nat)
    requires id < |w.rows|
  {
    var key := (w.rows[id].user, id);
    match LastSent(trace, id)
    case None => key !in w.store
    case Some(row) =>
      if row.status.DELETED? then key !in w.store else key in w.store && w.store[key] == EntryOf(id, row)
  }

  ghost predicate WorldInv(w: World, trace: seq<Event>) {
    && UniqueKeys(w.rows) && KnownPending(w) && OwnEntries(w.store, w.rows)
    && (forall id | 0 <= id < |w.rows| :: HoldsLast(w, trace, id))
    && (forall id: nat | id >= |w.rows| :: LastSent(trace, id) == None)
  }

  lemma CommitKeeps(w: World, trace: seq<Event>, e: Event)
    requires WorldInv(w, trace) && e.Commit? && Possible(w, e)
    ensures WorldInv(Next(w, e), trace + [e])
  {
    hide Transaction, UniqueKeys, Allowed;
    TransactionKeeps(w.rows, e.op, e.now);
    var c := Transaction(w.rows, e.op, e.now);
    var calls := CallsFor(c.rows, c.touched);
    SaidBefore(trace, e);
    forall call | call in Next(w, e).pending ensures Known(c.rows, call) {
      if call in w.pending {
        assert Known(w.rows, call);
      } else {
        assert call in multiset(calls);
      }
    }
    forall id: nat | id < |c.rows| ensures HoldsLast(Next(w, e), trace + [e], id) {
      if id < |w.rows| {
        assert HoldsLast(w, trace, id);
      }
    }
  }

  lemma SaidBefore(trace: seq<Event>, e: Event)
    ensures forall id :: LastSent(trace + [e], id)
                      == if e.Deliver? && e.call.id == id then Some(e.call.row) else LastSent(trace, id)
  {
    assert (trace + [e])[..|trace|] == trace;
  }

  lemma LoseKeeps(w: World, trace: seq<Event>, e: Event)
    requires WorldInv(w, trace) && e.Lose? && Possible(w, e)
    ensures WorldInv(Next(w, e), trace + [e])
  {
    hide UniqueKeys, LastSent;
    SaidBefore(trace, e);
    forall id: nat | id < |w.rows| ensures HoldsLast(Next(w, e), trace + [e], id) {
      assert HoldsLast(w, trace, id);
    }
  }

  lemma DeliverKeeps(w: World, trace: seq<Event>, e: Event)
    requires WorldInv(w, trace) && e.Deliver? && Possible(w, e)
    ensures WorldInv(Next(w, e), trace + [e])
  {
    hide UniqueKeys, LastSent;
    SaidBefore(trace, e);
    assert Known(w.rows, e.call);
    forall id: nat | id < |w.rows| ensures HoldsLast(Next(w, e), trace + [e], id) {
      assert HoldsLast(w, trace, id);
    }
  }

  lemma {:induction false} PlayedInv(trace: seq<Event>)
    requires Played(trace).Some?
    ensures WorldInv(Played(trace).value, trace)
  {
    hide WorldInv, Next, Possible;
    if trace == [] {
      EmptyWorldInv();
    } else {
      var init, e := trace[..|trace| - 1], trace[|trace| - 1];
      PlayedInv(init);
      assert init + [e] == trace;
      match e
      case Commit(_, _) => CommitKeeps(Played(init).value, init, e);
      case Deliver(_) => DeliverKeeps(Played(init).value, init, e);
      case Lose(_) => LoseKeeps(Played(init).value, init, e);
    }
  }

  lemma EmptyWorldInv()
    ensures WorldInv(EMPTY_WORLD, [])
  {
  }

  /** The event puts a confirmed value of the memory into the store. */
  predicate Confirms(e: Event, id: nat) {
    e.Deliver? && e.call.id == id && e.call.row.status.CONFIRMED?
  }

  /** The event takes the memory out of what the store lists as confirmed. */
  predicate Withdraws(e: Event, id: nat) {
    e.Deliver? && e.call.id == id && !e.call.row.status.CONFIRMED?
  }

  /** After every confirmed value of the memory that reached the store, a removal or demotion reached it. */
  predicate WithdrawalStands(trace: seq<Event>, id: nat) {
    forall j | 0 <= j < |trace| && Confirms(trace[j], id) :: Overruled(trace, j, id)
  }

  predicate Overruled(trace: seq<Event>, j: nat, id: nat) {
    exists k :: j < k < |trace| && Withdraws(trace[k], id)
  }

  lemma {:induction false} LastWord(trace: seq<Event>, id: nat)
    ensures WithdrawalStands(trace, id) <==> !(LastSent(trace, id).Some? && LastSent(trace, id).value.status.CONFIRMED?)
  {
    if trace != [] {
      var last := |trace| - 1;
      var init := trace[..last];
      LastWord(init, id);
      if Withdraws(trace[last], id) {
        assert forall j | 0 <= j < last :: Overruled(trace, j, id);
      } else if Confirms(trace[last], id) {
        assert !Overruled(trace, last, id);
      } else {
        SameWords(trace, id);
      }
    }
  }

  lemma SameWords(trace: seq<Event>, id: nat)
    requires trace != []
    requires !Withdraws(trace[|trace| - 1], id) && !Confirms(trace[|trace| - 1], id)
    ensures WithdrawalStands(trace, id) <==> WithdrawalStands(trace[..|trace| - 1], id)
  {
    hide Confirms, Withdraws;
    var init := trace[..|trace| - 1];
    forall j | 0 <= j < |init| ensures Overruled(init, j, id) <==> Overruled(trace, j, id) {
      if Overruled(trace, j, id) {
        var k :| j < k < |trace| && Withdraws(trace[k], id);
        assert init[k] == trace[k];
      }
      if Overruled(init, j, id) {
        var k :| j < k < |init| && Withdraws(init[k], id);
        assert trace[k] == init[k];
      }
    }
    forall j | 0 <= j < |init| ensures init[j] == trace[j] {
    }
  }

  /** However the operations of all processes overlap, and whichever store calls are lost or late: keys stay
      unique, and the store is honest exactly if for every memory no longer confirmed the removal or demotion
      reached the store, and no older confirmed value reached it after that. */
  lemma HistoriesStayHonest(trace: seq<Event>)
    requires Played(trace).Some?
    ensures var w := Played(trace).value;
            && UniqueKeys(w.rows)
            && (Honest(w.store, w.rows) <==>
                forall id: nat | id < |w.rows| && !w.rows[id].status.CONFIRMED? :: WithdrawalStands(trace, id))
  {
    hide Played, UniqueKeys, LastSent, WithdrawalStands;
    PlayedInv(trace);
    var w := Played(trace).value;
    forall id: nat | id < |w.rows| && !w.rows[id].status.CONFIRMED?
      ensures WithdrawalStands(trace, id) <==> !Listed(w.store, w.rows[id].user, id)
    {
      LastWord(trace, id);
      assert HoldsLast(w, trace, id);
    }
    HonestIsUnlisted(w);
  }

  /** What a delivered call leaves in the store: nothing of a deleted memory, and of any other its columns as
      they were read; entries of other memories stay. */
  lemma DeliveryOutcome(store: Store, call: StoreCall)
    ensures var key := (call.row.user, call.id);
            && (call.row.status.DELETED? ==> key !in Sent(store, call))
            && (!call.row.status.DELETED? ==>
                  && key in Sent(store, call)
                  && var entry := Sent(store, call)[key];
                     && entry.id == call.id && entry.content == call.row.content && entry.status == call.row.status
                     && entry.kind == call.row.kind && entry.confidence == call.row.confidence
                     && entry.expires == call.row.expires && entry.updated == call.row.updated
                     && entry.sourceMessage == call.row.sourceMessage && entry.sourceRun == call.row.sourceRun)
            && (forall other | other != key ::
                  (other in Sent(store, call) <==> other in store)
                  && (other in store ==> Sent(store, call)[other] == store[other]))
  {
  }

  /** Among its own entries a store is honest if it lists no memory as confirmed that is not. */
  lemma HonestIsUnlisted(w: World)
    requires OwnEntries(w.store, w.rows)
    ensures Honest(w.store, w.rows) <==>
              forall id: nat | id < |w.rows| && !w.rows[id].status.CONFIRMED? :: !Listed(w.store, w.rows[id].user, id)
  {
    if forall id: nat | id < |w.rows| && !w.rows[id].status.CONFIRMED? :: !Listed(w.store, w.rows[id].user, id) {
      forall key | key in w.store && w.store[key].status.CONFIRMED? ensures w.rows[key.1].status.CONFIRMED? {
        assert key == (w.rows[key.1].user, key.1);
      }
    }
  }

  /** When every withdrawal stands, a recall that is not interrupted itself returns the table's own list, for
      every user with at most a page of confirmed memories. */
  lemma RecallFollowsTable(trace: seq<Event>, user: nat, now: nat, records: seq<nat>, listing: seq<nat>,
                           overlap: string -> nat, limit: nat)
    requires Played(trace).Some?
    requires var w := Played(trace).value;
             && (forall id: nat | id < |w.rows| && !w.rows[id].status.CONFIRMED? :: WithdrawalStands(trace, id))
             && |ConfirmedIds(w.rows, user)| <= PAGE
             && Within(records, |w.rows|) && Page(records, LiveIds(w.rows, user, now))
             && var after := SentAll(w.store, CallsFor(w.rows, records), {});
                Page(listing, ListedIds(after, user)) && Stored(after, user, listing)
    ensures var w := Played(trace).value;
            var read := CallsFor(w.rows, records);
            Best(StoreEntries(SentAll(w.store, read, {}), user, listing), overlap, now, limit)
            == Best(ReadEntries(read), overlap, now, limit)
  {
    hide Honest, Best, SyncedAll, SentAll, Page, Played, WithdrawalStands;
    var w := Played(trace).value;
    HistoriesStayHonest(trace);
    CallsAreSynced(w.store, w.rows, records, {});
    assert ReadEntries(CallsFor(w.rows, records)) == RowEntries(w.rows, records);
    RecallAgrees(w.store, w.rows, user, now, records, listing, overlap, limit);
  }

  // ---- Withdrawn memories that are still recalled ---------------------------------------------------

  /** The table has no confirmed memory of user 7, and yet the store recalls one. */
  ghost predicate StillRecalled(trace: seq<Event>, overlap: string -> nat) {
    && Played(trace).Some?
    && var w := Played(trace).value;
       && w.pending == multiset{} && ConfirmedIds(w.rows, 7) == {} && ListedIds(w.store, 7) == {0}
       && Stored(w.store, 7, [0])
       && Best(StoreEntries(w.store, 7, [0]), overlap, 2, 8) == ["x"]
  }

  function FirstMemory(): Memory {
    ManualMemory(7, "x", "preference", "manual:1", 1)
  }

  function CreateFirst(): Event {
    Commit(Create(7, "x", "preference", "manual:1"), 1)
  }

  /** A deletion whose store call is lost. */
  lemma LostDeletionIsRecalled(overlap: string -> nat) returns (trace: seq<Event>)
    ensures |trace| == 4 && trace[2] == Commit(Remove(7, 0), 2) && trace[3].Lose?
    ensures StillRecalled(trace, overlap)
  {
    trace := LostWithdrawal(Remove(7, 0), overlap);
  }

  /** A confirmed memory made a candidate again, when the store call is lost. */
  lemma LostDemotionIsRecalled(overlap: string -> nat) returns (trace: seq<Event>)
    ensures |trace| == 4 && trace[2] == Commit(Edit(7, 0, None, Some(CANDIDATE)), 2) && trace[3].Lose?
    ensures StillRecalled(trace, overlap)
  {
    trace := LostWithdrawal(Edit(7, 0, None, Some(CANDIDATE)), overlap);
  }

  function WithdrawnFirst(op: Operation): Memory {
    FirstMemory().(status := if op.Remove? then DELETED else CANDIDATE, updated := 2)
  }

  lemma PlayOn(trace: seq<Event>, w: World, e: Event)
    requires Played(trace) == Some(w) && Possible(w, e)
    ensures Played(trace + [e]) == Some(Next(w, e))
  {
    hide Possible, Next;
    assert (trace + [e])[..|trace|] == trace;
  }

  /** The memory is created and its store call goes through. */
  lemma Created() returns (trace: seq<Event>, w: World)
    ensures trace == [CreateFirst(), Deliver(StoreCall(0, FirstMemory()))] && Played(trace) == Some(w)
    ensures w == World([FirstMemory()], map[(7, 0) := EntryOf(0, FirstMemory())], multiset{})
  {
    hide Clean;
    var call := StoreCall(0, FirstMemory());
    var committed := World([FirstMemory()], map[], multiset{call});
    assert [] + [FirstMemory()] == [FirstMemory()];
    assert CallsFor([FirstMemory()], [0]) == [call];
    PlayOn([], EMPTY_WORLD, CreateFirst());
    assert Next(EMPTY_WORLD, CreateFirst()) == committed;
    assert [] + [CreateFirst()] == [CreateFirst()];
    PlayOn([CreateFirst()], committed, Deliver(call));
    trace := [CreateFirst()] + [Deliver(call)];
    w := Next(committed, Deliver(call));
  }

  lemma Withdrawn(w: World, op: Operation)
    requires w.rows == [FirstMemory()]
    requires op == Remove(7, 0) || op == Edit(7, 0, None, Some(CANDIDATE))
    ensures Possible(w, Commit(op, 2))
    ensures Next(w, Commit(op, 2))
         == World([WithdrawnFirst(op)], w.store, w.pending + multiset{StoreCall(0, WithdrawnFirst(op))})
  {
    hide Clean;
    assert w.rows[0 := WithdrawnFirst(op)] == [WithdrawnFirst(op)];
    assert CallsFor([WithdrawnFirst(op)], [0]) == [StoreCall(0, WithdrawnFirst(op))];
  }

  lemma LostWithdrawal(op: Operation, overlap: string -> nat) returns (trace: seq<Event>)
    requires op == Remove(7, 0) || op == Edit(7, 0, None, Some(CANDIDATE))
    ensures |trace| == 4 && trace[2] == Commit(op, 2) && trace[3].Lose?
    ensures StillRecalled(trace, overlap)
  {
    hide Best, Clean, Transaction;
    var w;
    trace, w := Created();
    Withdrawn(w, op);
    var w1 := Next(w, Commit(op, 2));
    PlayOn(trace, w, Commit(op, 2));
    var e := Lose(StoreCall(0, WithdrawnFirst(op)));
    PlayOn(trace + [Commit(op, 2)], w1, e);
    trace := trace + [Commit(op, 2)] + [e];
    FirstIsRecalled(Next(w1, e), op, overlap);
  }

  /** No store call is lost: a recall reads the memory, the user deletes it, the deletion reaches the store,
      and only then the recall writes back what it had read. */
  lemma OvertakenDeletionIsRecalled(overlap: string -> nat) returns (trace: seq<Event>)
    ensures |trace| == 6 && forall i | 0 <= i < |trace| :: !trace[i].Lose?
    ensures trace[2] == Commit(Refresh(7, [0]), 2) && trace[3] == Commit(Remove(7, 0), 2)
    ensures StillRecalled(trace, overlap)
  {
    hide Best, Clean, Possible, Next;
    var w;
    trace, w := Created();
    var op := Remove(7, 0);
    var read, removal := StoreCall(0, FirstMemory()), StoreCall(0, WithdrawnFirst(op));
    ReadFirst(w);
    PlayOn(trace, w, Commit(Refresh(7, [0]), 2));
    trace := trace + [Commit(Refresh(7, [0]), 2)];
    var w1 := Next(w, Commit(Refresh(7, [0]), 2));
    Withdrawn(w1, op);
    PlayOn(trace, w1, Commit(op, 2));
    trace := trace + [Commit(op, 2)];
    var w2 := Next(w1, Commit(op, 2));
    RemovalThenRead(w2, read, removal);
    PlayOn(trace, w2, Deliver(removal));
    trace := trace + [Deliver(removal)];
    var w3 := Next(w2, Deliver(removal));
    PlayOn(trace, w3, Deliver(read));
    trace := trace + [Deliver(read)];
    FirstIsRecalled(Next(w3, Deliver(read)), op, overlap);
  }

  /** The removal goes through before the value that was read. */
  lemma RemovalThenRead(w: World, read: StoreCall, removal: StoreCall)
    requires read == StoreCall(0, FirstMemory()) && removal == StoreCall(0, WithdrawnFirst(Remove(7, 0)))
    requires w.store == map[(7, 0) := EntryOf(0, FirstMemory())]
    requires w.pending == multiset{} + multiset{read} + multiset{removal}
    ensures Possible(w, Deliver(removal)) && Possible(Next(w, Deliver(removal)), Deliver(read))
    ensures var end := Next(Next(w, Deliver(removal)), Deliver(read));
            end == World(w.rows, w.store, multiset{})
  {
    hide Clean;
  }

  lemma ReadFirst(w: World)
    requires w.rows == [FirstMemory()]
    ensures Possible(w, Commit(Refresh(7, [0]), 2))
    ensures Next(w, Commit(Refresh(7, [0]), 2))
         == World(w.rows, w.store, w.pending + multiset{StoreCall(0, FirstMemory())})
  {
    hide Clean;
    assert CallsFor(w.rows, [0]) == [StoreCall(0, FirstMemory())];
  }

  lemma FirstIsRecalled(w: World, op: Operation, overlap: string -> nat)
    requires w.rows == [WithdrawnFirst(op)] && w.store == map[(7, 0) := EntryOf(0, FirstMemory())]
    ensures ConfirmedIds(w.rows, 7) == {} && ListedIds(w.store, 7) == {0} && Stored(w.store, 7, [0])
    ensures Best(StoreEntries(w.store, 7, [0]), overlap, 2, 8) == ["x"]
  {
    hide Best, Clean;
    CleanText();
    assert (7, 0) in w.store;
    var value := w.store[(7, 0)];
    assert StoreEntries(w.store, 7, [0]) == [value];
    OneIsBest(value, overlap);
  }

  lemma CleanText()
    ensures Clean("x") == "x"
  {
    assert Words("x") == ["x"] by {
      assert "x"[..1] == "x" && "x"[1..] == "";
    }
  }

  lemma OneIsBest(value: Entry, overlap: string -> nat)
    requires value.content == "x" && value.expires == None
    ensures Best([value], overlap, 2, 8) == ["x"]
  {
    hide Clean;
    CleanText();
    RankedOne(value, overlap, 2);
    var rank := RankOf(value, overlap);
    assert [rank][1..] == [];
    assert Sorted([rank]) == [rank];
    assert Contents([rank]) == ["x"];
  }

  // ---- The service ---------------------------------------------------------------------------------

  class Service {
    var rows: seq<Memory>
    var store: Store
    const recallLimit: nat
    const autoExtract: bool

    function State(): Memos
      reads this
    {
      Memos(rows, store)
    }

    constructor (recallLimit: nat, autoExtract: bool)
      ensures State() == Memos([], map[])
      ensures this.recallLimit == recallLimit && this.autoExtract == autoExtract
    {
      rows, store := [], map[];
      this.recallLimit, this.autoExtract := recallLimit, autoExtract;
    }

    /** `_sync`: a failing call is logged and ignored. */
    method Sync(call: StoreCall, outages: set<nat>)
      modifies this`store
      ensures store == if call.id in outages then old(store) else Sent(old(store), call)
    {
      if call.id !in outages {
        if call.row.status.DELETED? {
          store := store - {(call.row.user, call.id)};
        } else {
          store := store[(call.row.user, call.id) := EntryOf(call.id, call.row)];
        }
      }
    }

    method SyncEach(calls: seq<StoreCall>, outages: set<nat>)
      modifies this`store
      ensures store == SentAll(old(store), calls, outages)
    {
      hide Sent;
      assert calls[..|calls|] == calls;
      for i := 0 to |calls|
        invariant store == SentAll(old(store), calls[..i], outages)
      {
        assert calls[..i + 1][..i] == calls[..i];
        Sync(calls[i], outages);
      }
    }

    method CreateManual(user: nat, content: string, kind: string, key: string, now: nat, outages: set<nat>)
      returns (id: nat)
      requires UniqueKeys(rows) && Allowed(rows, Create(user, content, kind, key))
      modifies this
      ensures State() == Apply(old(State()), Create(user, content, kind, key), now, outages)
      ensures id == old(|rows|)
    {
      id := |rows|;
      var memory := ManualMemory(user, content, kind, key, now);
      rows := rows + [memory];
      OneSynced(store, rows, id, outages);
      Sync(StoreCall(id, memory), outages);
    }

    method ExtractFromRun(user: nat, candidates: seq<Candidate>, message: nat, run: nat, now: nat, outages: set<nat>)
      returns (touched: seq<nat>)
      requires UniqueKeys(rows) && Allowed(rows, Extract(user, candidates, message, run))
      modifies this
      ensures if autoExtract
              then State() == Apply(old(State()), Extract(user, candidates, message, run), now, outages)
                   && touched == Extracted(old(rows), user, candidates, message, run, now).touched
              else State() == old(State()) && touched == []
    {
      hide ExtractOne, SyncedAll;
      touched := [];
      if !autoExtract {
        return;
      }
      ghost var before := rows;
      ExtractionRevivesNothing(rows, user, candidates, message, run, now);
      assert candidates[..|candidates|] == candidates;
      for i := 0 to |candidates|
        invariant store == old(store)
        invariant Extraction(rows, touched) == Extracted(before, user, candidates[..i], message, run, now)
      {
        assert candidates[..i + 1][..i] == candidates[..i];
        touched := TakeIn(user, candidates[i], message, run, now, touched);
      }
      CallsAreSynced(store, rows, touched, outages);
      SyncEach(CallsFor(rows, touched), outages);
    }

    /** One turn of the extraction loop. */
    method TakeIn(user: nat, c: Candidate, message: nat, run: nat, now: nat, touched: seq<nat>)
      returns (grown: seq<nat>)
      modifies this`rows
      ensures Extraction(rows, grown) == ExtractOne(Extraction(old(rows), touched), user, c, message, run, now)
    {
      var found := FindKey(rows, user, c.key, 0);
      if found.None? {
        var id := |rows|;
        rows := rows + [Memory(user, c.key, c.kind, c.content, c.confidence, c.status, Some(message), Some(run),
                               None, now)];
        return touched + [id];
      }
      var memory := rows[found.value];
      if memory.status.DELETED? {
        return touched;
      }
      memory := memory.(content := c.content);
      if memory.confidence < c.confidence {
        memory := memory.(confidence := c.confidence);
      }
      if c.status.CONFIRMED? {
        memory := memory.(status := CONFIRMED);
      }
      rows := rows[found.value := memory.(sourceMessage := Some(message), sourceRun := Some(run), updated := now)];
      return touched + [found.value];
    }

    method Update(user: nat, id: nat, content: Option<string>, status: Option<Status>, now: nat, outages: set<nat>)
      returns (found: bool)
      requires UniqueKeys(rows) && Allowed(rows, Edit(user, id, content, status))
      modifies this
      ensures State() == Apply(old(State()), Edit(user, id, content, status), now, outages)
      ensures found <==> Visible(old(rows), user, id)
    {
      if !Visible(rows, user, id) {
        return false;
      }
      var memory := rows[id];
      if content.Some? {
        memory := memory.(content := Clean(content.value), confidence := 1.0);
      }
      if status.Some? {
        memory := memory.(status := status.value);
      }
      memory := memory.(updated := now);
      rows := rows[id := memory];
      OneSynced(store, rows, id, outages);
      Sync(StoreCall(id, memory), outages);
      return true;
    }

    method Delete(user: nat, id: nat, now: nat, outages: set<nat>) returns (found: bool)
      requires UniqueKeys(rows)
      modifies this
      ensures State() == Apply(old(State()), Remove(user, id), now, outages)
      ensures found <==> Visible(old(rows), user, id)
    {
      if !Visible(rows, user, id) {
        return false;
      }
      var memory := rows[id].(status := DELETED, updated := now);
      rows := rows[id := memory];
      OneSynced(store, rows, id, outages);
      Sync(StoreCall(id, memory), outages);
      return true;
    }

    /** `read` are the live confirmed rows as the table query returned them, `listing` what the store lists
        once they are written back. Other operations may have changed the table in between. */
    method Recall(user: nat, overlap: string -> nat, now: nat, read: seq<StoreCall>, listing: seq<nat>,
                  reachable: bool, outages: set<nat>)
      returns (contents: seq<string>)
      requires var after := SentAll(store, read, outages);
               Page(listing, ListedIds(after, user)) && Stored(after, user, listing)
      modifies this`store
      ensures store == SentAll(old(store), read, outages)
      ensures contents == Best(if reachable then StoreEntries(store, user, listing) else ReadEntries(read),
                               overlap, now, recallLimit)
      ensures TopRanked(if reachable then StoreEntries(store, user, listing) else ReadEntries(read),
                        overlap, now, recallLimit, contents)
    {
      hide SentAll, Sorted, Page, Ranked, TopRanked;
      SyncEach(read, outages);
      var values := if reachable then StoreEntries(store, user, listing) else ReadEntries(read);
      var ranked := RankUsable(values, overlap, now);
      ranked := Sorted(ranked);
      BestIsTopRanked(values, overlap, now, recallLimit);
      contents := Contents(if |ranked| <= recallLimit then ranked else ranked[..recallLimit]);
    }
  }

  /** The values recall falls back to when the store does not answer. */
  function ReadEntries(read: seq<StoreCall>): (r: seq<Entry>)
    ensures |r| == |read| && forall i | 0 <= i < |read| :: r[i] == EntryOf(read[i].id, read[i].row)
  {
    seq(|read|, i requires 0 <= i < |read| => EntryOf(read[i].id, read[i].row))
  }

  /** The ranking loop of a recall. */
  method RankUsable(values: seq<Entry>, overlap: string -> nat, now: nat) returns (ranked: seq<Rank>)
    ensures ranked == Ranked(values, overlap, now)
  {
    ranked := [];
    assert values[..|values|] == values;
    for i := 0 to |values|
      invariant ranked == Ranked(values[..i], overlap, now)
    {
      assert values[..i + 1][..i] == values[..i];
      var content := Clean(values[i].content);
      if content != "" && !Expired(values[i].expires, now) {
        ranked := ranked + [Rank(overlap(content), values[i].updated, content)];
      }
    }
  }
}
