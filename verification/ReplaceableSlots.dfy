/** Replaceable events converge: what each slot holds after any run of client statements. */
module ReplaceableSlots {
  import opened EventRepository
  import opened Events
  import opened EventStrategies
  import opened Hex
  import opened TagIndex
  import opened Wrappers

  ghost function Upserts(ss: seq<Statement>): seq<Event> {
    if ss == [] then []
    else Upserts(ss[..|ss| - 1])
         + match ss[|ss| - 1] { case UpsertStatement(e, _) => [e] case _ => [] }
  }

  ghost predicate Submitted(ss: seq<Statement>, e: Event) {
    CreateStatement(e) in ss || UpsertStatement(e, MetadataOf(e)) in ss
  }

  /** An event id determines the event. */
  ghost predicate IdsDetermineEvents(ss: seq<Statement>) {
    forall d, e :: Submitted(ss, d) && Submitted(ss, e) && d.id == e.id ==> d == e
  }

  /** Event i has the greatest created_at of its slot, and is the first submitted of those that have it. */
  ghost predicate Winner(es: seq<Event>, i: nat) {
    && i < |es|
    && forall j :: 0 <= j < |es| && SlotOf(es[j]) == SlotOf(es[i]) ==>
         es[j].createdAt <= es[i].createdAt && (j < i ==> es[j].createdAt < es[i].createdAt)
  }

  function StoredRow(e: Event): Row {
    UpsertRow(e, MetadataOf(e))
  }

  function Unmarked(row: Row): Row {
    row.(deleted := false)
  }

  /** The row holds a winner, apart from its deletion mark. */
  ghost predicate HoldsWinner(es: seq<Event>, row: Row) {
    exists i: nat :: Winner(es, i) && Unmarked(row) == StoredRow(es[i])
  }

  /** The row is that of a created event, apart from its deletion mark. */
  ghost predicate HoldsCreated(ss: seq<Statement>, row: Row) {
    exists e :: CreateStatement(e) in ss && Unmarked(row) == RowOf(e, None)
  }

  ghost predicate SlotsHold(rows: Rows, es: seq<Event>) {
    && (forall id :: id in rows && Indexed(rows[id].eventKind) ==> HoldsWinner(es, rows[id]))
    && (forall e :: e in es ==> Occupied(rows, SlotOf(e)))
  }

  ghost predicate CreatedHold(rows: Rows, ss: seq<Statement>) {
    && (forall id :: id in rows && !Indexed(rows[id].eventKind) ==> HoldsCreated(ss, rows[id]))
    && (forall e :: CreateStatement(e) in ss ==> ToBuffer(e.id) in rows)
  }

  /** What the table holds after a run. */
  ghost predicate Converged(db: Db, ss: seq<Statement>) {
    SlotsHold(db.rows, Upserts(ss)) && CreatedHold(db.rows, ss)
  }

  lemma UpsertsNext(ss: seq<Statement>, s: Statement)
    ensures Upserts(ss + [s]) == Upserts(ss) + match s { case UpsertStatement(e, _) => [e] case _ => [] }
    ensures !s.UpsertStatement? ==> Upserts(ss + [s]) == Upserts(ss)
  {
    assert (ss + [s])[..|ss|] == ss;
  }

  lemma CreatedHoldOn(rows: Rows, ss: seq<Statement>, s: Statement)
    requires CreatedHold(rows, ss) && !s.CreateStatement?
    ensures CreatedHold(rows, ss + [s])
  {
    forall id | id in rows && !Indexed(rows[id].eventKind) ensures HoldsCreated(ss + [s], rows[id]) {
      var e :| CreateStatement(e) in ss && Unmarked(rows[id]) == RowOf(e, None);
      assert CreateStatement(e) in ss + [s];
    }
  }

  lemma {:induction false} UpsertsAre(ss: seq<Statement>, e: Event)
    requires ClientRun(ss)
    ensures e in Upserts(ss) <==> UpsertStatement(e, MetadataOf(e)) in ss
  {
    if ss != [] {
      var n := |ss| - 1;
      assert ss == ss[..n] + [ss[n]];
      assert ClientStatement(ss[n]);
      UpsertsAre(ss[..n], e);
    }
  }

  lemma StoredRowInSlot(e: Event)
    requires Indexed(e.kind)
    ensures InSlot(StoredRow(e), SlotOf(e))
  {
  }

  /** Every row in the table is the row of a submitted event with its id. */
  lemma RowsAreSubmitted(db: Db, ss: seq<Statement>, id: Bytes) returns (e: Event)
    requires Consistent(db) && ClientRun(ss) && Converged(db, ss) && id in db.rows
    ensures Submitted(ss, e) && ToBuffer(e.id) == id && e.kind == db.rows[id].eventKind && ValidEvent(e)
    ensures Unmarked(db.rows[id]) == if Indexed(e.kind) then StoredRow(e) else RowOf(e, None)
  {
    var row := db.rows[id];
    if Indexed(row.eventKind) {
      var i: nat :| Winner(Upserts(ss), i) && Unmarked(row) == StoredRow(Upserts(ss)[i]);
      e := Upserts(ss)[i];
      UpsertsAre(ss, e);
      assert ClientStatement(UpsertStatement(e, MetadataOf(e)));
    } else {
      e :| CreateStatement(e) in ss && Unmarked(row) == RowOf(e, None);
      assert ClientStatement(CreateStatement(e));
    }
  }

  /** A submitted event whose id is taken is the event that holds the id. */
  lemma TakenId(db: Db, ss: seq<Statement>, s: Statement, e: Event)
    requires Consistent(db) && ClientRun(ss) && Converged(db, ss)
    requires ClientStatement(s) && (s == CreateStatement(e) || s == UpsertStatement(e, MetadataOf(e)))
    requires IdsDetermineEvents(ss + [s]) && ToBuffer(e.id) in db.rows
    ensures Submitted(ss, e)
    ensures Unmarked(db.rows[ToBuffer(e.id)]) == if Indexed(e.kind) then StoredRow(e) else RowOf(e, None)
  {
    var d := RowsAreSubmitted(db, ss, ToBuffer(e.id));
    ToBufferInjective(d.id, e.id);
    assert Submitted(ss + [s], d) && Submitted(ss + [s], e);
  }

  // ---- the next statement ---------------------------------------------------------------

  lemma WinnerStays(es: seq<Event>, i: nat, e: Event)
    requires Winner(es, i)
    requires SlotOf(e) == SlotOf(es[i]) ==> e.createdAt <= es[i].createdAt
    ensures Winner(es + [e], i)
  {
    assert forall j :: 0 <= j < |es| ==> (es + [e])[j] == es[j];
  }

  lemma NewWinner(es: seq<Event>, e: Event)
    requires forall d :: d in es && SlotOf(d) == SlotOf(e) ==> d.createdAt < e.createdAt
    ensures Winner(es + [e], |es|)
  {
    assert forall j :: 0 <= j < |es| ==> (es + [e])[j] == es[j] && es[j] in es;
  }

  lemma NewRowSlotsHold(rows: Rows, es: seq<Event>, row: Row, id: Bytes)
    requires SlotsHold(rows, es) && id !in rows && !Indexed(row.eventKind)
    ensures SlotsHold(rows[id := row], es)
  {
    forall d | d in es ensures Occupied(rows[id := row], SlotOf(d)) {
      var at :| at in rows && InSlot(rows[at], SlotOf(d));
      assert rows[id := row][at] == rows[at];
    }
  }

  /** After a create the event's id is taken, by its own row or by one that was there. */
  lemma NewRowCreatedHold(rows: Rows, next: Rows, ss: seq<Statement>, e: Event)
    requires CreatedHold(rows, ss)
    requires next == if ToBuffer(e.id) in rows then rows else rows[ToBuffer(e.id) := RowOf(e, None)]
    ensures CreatedHold(next, ss + [CreateStatement(e)])
  {
    var all := ss + [CreateStatement(e)];
    forall id | id in next && !Indexed(next[id].eventKind) ensures HoldsCreated(all, next[id]) {
      if id in rows {
        var d :| CreateStatement(d) in ss && Unmarked(rows[id]) == RowOf(d, None);
        assert CreateStatement(d) in all;
      } else {
        assert CreateStatement(e) in all && Unmarked(RowOf(e, None)) == RowOf(e, None);
      }
    }
    forall d | CreateStatement(d) in all ensures ToBuffer(d.id) in next {
      assert d == e || CreateStatement(d) in ss;
    }
  }

  lemma CreateConverges(db: Db, ss: seq<Statement>, e: Event)
    requires Converged(db, ss) && ClientStatement(CreateStatement(e))
    ensures Converged(Create(db, e).db, ss + [CreateStatement(e)])
  {
    DispatchAgreesWithIndex(e.kind);
    UpsertsNext(ss, CreateStatement(e));
    NewRowCreatedHold(db.rows, Create(db, e).db.rows, ss, e);
    if ToBuffer(e.id) !in db.rows {
      NewRowSlotsHold(db.rows, Upserts(ss), RowOf(e, None), ToBuffer(e.id));
    }
  }

  lemma HoldsWinnerAfter(es: seq<Event>, e: Event, row: Row, i: nat)
    requires Winner(es, i) && Unmarked(row) == StoredRow(es[i])
    requires SlotOf(e) == SlotOf(es[i]) ==> e.createdAt <= es[i].createdAt
    ensures HoldsWinner(es + [e], row)
  {
    WinnerStays(es, i, e);
    assert (es + [e])[i] == es[i];
  }

  /** The rows of other slots keep their winners when e is submitted. */
  lemma OtherSlotsKeepWinners(db: Db, ss: seq<Statement>, e: Event, id: Bytes)
    requires Consistent(db) && ClientRun(ss) && Converged(db, ss)
    requires id in db.rows && Indexed(db.rows[id].eventKind) && !InSlot(db.rows[id], SlotOf(e))
    ensures HoldsWinner(Upserts(ss) + [e], db.rows[id])
  {
    var es := Upserts(ss);
    var i: nat :| Winner(es, i) && Unmarked(db.rows[id]) == StoredRow(es[i]);
    StoredRowInSlot(es[i]);
    assert InSlot(db.rows[id], SlotOf(es[i]));
    HoldsWinnerAfter(es, e, db.rows[id], i);
  }

  /** The winner in the row of an occupied slot. */
  lemma RowOfSlot(db: Db, ss: seq<Statement>, e: Event) returns (i: nat)
    requires Consistent(db) && ClientRun(ss) && Converged(db, ss)
    requires Indexed(e.kind) && Occupied(db.rows, SlotOf(e))
    ensures var row := db.rows[SlotRow(db.rows, SlotOf(e))];
            && Winner(Upserts(ss), i) && Unmarked(row) == StoredRow(Upserts(ss)[i])
            && SlotOf(Upserts(ss)[i]) == SlotOf(e) && row.eventCreatedAt == Upserts(ss)[i].createdAt
  {
    var row := db.rows[SlotRow(db.rows, SlotOf(e))];
    i :| Winner(Upserts(ss), i) && Unmarked(row) == StoredRow(Upserts(ss)[i]);
    StoredRowInSlot(Upserts(ss)[i]);
    assert InSlot(row, SlotOf(Upserts(ss)[i]));
  }

  /** The id of a submitted event is taken only by the row of its own slot. */
  lemma IdTakenInSlot(db: Db, ss: seq<Statement>, e: Event)
    requires Consistent(db) && ClientRun(ss) && Converged(db, ss)
    requires var s := UpsertStatement(e, MetadataOf(e)); ClientStatement(s) && IdsDetermineEvents(ss + [s])
    ensures ToBuffer(e.id) in db.rows
            ==> Occupied(db.rows, SlotOf(e)) && db.rows[SlotRow(db.rows, SlotOf(e))].eventCreatedAt == e.createdAt
  {
    DispatchAgreesWithIndex(e.kind);
    var id := ToBuffer(e.id);
    if id in db.rows {
      TakenId(db, ss, UpsertStatement(e, MetadataOf(e)), e);
      StoredRowInSlot(e);
      assert InSlot(db.rows[id], SlotOf(e));
      assert SlotRow(db.rows, SlotOf(e)) == id;
    }
  }

  lemma StaleSlotsHold(db: Db, ss: seq<Statement>, e: Event)
    requires Consistent(db) && ClientRun(ss) && Converged(db, ss) && Indexed(e.kind)
    requires Occupied(db.rows, SlotOf(e)) && e.createdAt <= db.rows[SlotRow(db.rows, SlotOf(e))].eventCreatedAt
    ensures SlotsHold(db.rows, Upserts(ss) + [e])
  {
    var es := Upserts(ss);
    var k := RowOfSlot(db, ss, e);
    forall id | id in db.rows && Indexed(db.rows[id].eventKind) ensures HoldsWinner(es + [e], db.rows[id]) {
      if InSlot(db.rows[id], SlotOf(e)) {
        assert id == SlotRow(db.rows, SlotOf(e));
        HoldsWinnerAfter(es, e, db.rows[id], k);
      } else {
        OtherSlotsKeepWinners(db, ss, e, id);
      }
    }
  }

  /** An older or equally old submission changes nothing. */
  lemma StaleUpsertConverges(db: Db, ss: seq<Statement>, e: Event)
    requires Consistent(db) && ClientRun(ss) && Converged(db, ss) && Indexed(e.kind)
    requires Occupied(db.rows, SlotOf(e)) && e.createdAt <= db.rows[SlotRow(db.rows, SlotOf(e))].eventCreatedAt
    ensures Converged(db, ss + [UpsertStatement(e, MetadataOf(e))])
  {
    UpsertsNext(ss, UpsertStatement(e, MetadataOf(e)));
    StaleSlotsHold(db, ss, e);
    CreatedHoldOn(db.rows, ss, UpsertStatement(e, MetadataOf(e)));
  }

  /** The table after writing e's row in place of its slot's row, if any. */
  ghost predicate Replaced(rows: Rows, e: Event, next: Rows) {
    && ToBuffer(e.id) in next && next[ToBuffer(e.id)] == StoredRow(e)
    && (forall id :: id in next && id != ToBuffer(e.id) ==>
          id in rows && next[id] == rows[id] && !InSlot(rows[id], SlotOf(e)))
    && (forall id :: id in rows && !InSlot(rows[id], SlotOf(e)) ==> id in next && next[id] == rows[id])
  }

  lemma ReplacedWinners(db: Db, ss: seq<Statement>, e: Event, next: Rows)
    requires Consistent(db) && ClientRun(ss) && Converged(db, ss)
    requires Replaced(db.rows, e, next)
    requires forall d :: d in Upserts(ss) && SlotOf(d) == SlotOf(e) ==> d.createdAt < e.createdAt
    ensures forall id :: id in next && Indexed(next[id].eventKind) ==> HoldsWinner(Upserts(ss) + [e], next[id])
  {
    var es := Upserts(ss);
    NewWinner(es, e);
    assert (es + [e])[|es|] == e && Unmarked(StoredRow(e)) == StoredRow(e);
    forall id | id in next && Indexed(next[id].eventKind) ensures HoldsWinner(es + [e], next[id]) {
      if id != ToBuffer(e.id) {
        OtherSlotsKeepWinners(db, ss, e, id);
      }
    }
  }

  lemma ReplacedOccupied(db: Db, ss: seq<Statement>, e: Event, next: Rows)
    requires Converged(db, ss) && Indexed(e.kind) && Replaced(db.rows, e, next)
    ensures forall d :: d in Upserts(ss) + [e] ==> Occupied(next, SlotOf(d))
  {
    StoredRowInSlot(e);
    forall d | d in Upserts(ss) + [e] ensures Occupied(next, SlotOf(d)) {
      if SlotOf(d) == SlotOf(e) {
        assert InSlot(next[ToBuffer(e.id)], SlotOf(d));
      } else {
        var at :| at in db.rows && InSlot(db.rows[at], SlotOf(d));
        assert at in next && next[at] == db.rows[at];
      }
    }
  }

  lemma ReplacedCreated(db: Db, ss: seq<Statement>, e: Event, next: Rows)
    requires Consistent(db) && ClientRun(ss) && IdsDetermineEvents(ss) && Converged(db, ss)
    requires Indexed(e.kind) && Replaced(db.rows, e, next)
    ensures CreatedHold(next, ss)
  {
    forall id | id in next && !Indexed(next[id].eventKind) ensures HoldsCreated(ss, next[id]) {
      assert id in db.rows && next[id] == db.rows[id];
    }
    forall d | CreateStatement(d) in ss ensures ToBuffer(d.id) in next {
      CreatedStays(db, ss, d);
    }
  }

  /** A submission that is strictly newer than its slot's row, or the first of its slot, wins. */
  lemma FreshUpsertConverges(db: Db, ss: seq<Statement>, e: Event, next: Db)
    requires Consistent(db) && ClientRun(ss) && IdsDetermineEvents(ss) && Converged(db, ss)
    requires Indexed(e.kind) && Replaced(db.rows, e, next.rows)
    requires forall d :: d in Upserts(ss) && SlotOf(d) == SlotOf(e) ==> d.createdAt < e.createdAt
    ensures Converged(next, ss + [UpsertStatement(e, MetadataOf(e))])
  {
    UpsertsNext(ss, UpsertStatement(e, MetadataOf(e)));
    ReplacedWinners(db, ss, e, next.rows);
    ReplacedOccupied(db, ss, e, next.rows);
    ReplacedCreated(db, ss, e, next.rows);
    CreatedHoldOn(next.rows, ss, UpsertStatement(e, MetadataOf(e)));
  }

  /** A created event's row is in no slot. */
  lemma CreatedStays(db: Db, ss: seq<Statement>, d: Event)
    requires Consistent(db) && ClientRun(ss) && Converged(db, ss) && CreateStatement(d) in ss
    requires IdsDetermineEvents(ss)
    ensures ToBuffer(d.id) in db.rows && !Indexed(db.rows[ToBuffer(d.id)].eventKind)
  {
    CreatedIsRegular(ss, d);
    var x := RowsAreSubmitted(db, ss, ToBuffer(d.id));
    ToBufferInjective(x.id, d.id);
    SameIdSameEvent(ss, x, d);
  }

  lemma CreatedIsRegular(ss: seq<Statement>, d: Event)
    requires ClientRun(ss) && CreateStatement(d) in ss
    ensures Submitted(ss, d) && ValidEvent(d) && !Indexed(d.kind)
  {
    assert ClientStatement(CreateStatement(d));
    DispatchAgreesWithIndex(d.kind);
  }

  lemma SameIdSameEvent(ss: seq<Statement>, x: Event, d: Event)
    requires IdsDetermineEvents(ss) && Submitted(ss, x) && Submitted(ss, d) && x.id == d.id
    ensures x == d
  {
  }

  lemma RowWritten(rows: Rows, e: Event, next: Rows)
    requires UniqueSlots(rows) && Indexed(e.kind)
    requires ToBuffer(e.id) in rows ==> Occupied(rows, SlotOf(e)) && SlotRow(rows, SlotOf(e)) == ToBuffer(e.id)
    requires var kept := if Occupied(rows, SlotOf(e)) then rows - {SlotRow(rows, SlotOf(e))} else rows;
             next == kept[ToBuffer(e.id) := StoredRow(e)]
    ensures Replaced(rows, e, next)
  {
  }

  /** An upsert that is not stale replaces the row of its slot. */
  lemma UpsertReplaces(db: Db, ss: seq<Statement>, e: Event)
    requires Consistent(db) && ClientRun(ss) && Converged(db, ss)
    requires var s := UpsertStatement(e, MetadataOf(e)); ClientStatement(s) && IdsDetermineEvents(ss + [s])
    requires Occupied(db.rows, SlotOf(e)) ==> db.rows[SlotRow(db.rows, SlotOf(e))].eventCreatedAt < e.createdAt
    ensures Replaced(db.rows, e, Apply(db, UpsertStatement(e, MetadataOf(e))).rows)
  {
    DispatchAgreesWithIndex(e.kind);
    IdTakenInSlot(db, ss, e);
    RowWritten(db.rows, e, Apply(db, UpsertStatement(e, MetadataOf(e))).rows);
  }

  lemma UpsertConverges(db: Db, ss: seq<Statement>, e: Event)
    requires Consistent(db) && ClientRun(ss) && Converged(db, ss)
    requires var s := UpsertStatement(e, MetadataOf(e)); ClientStatement(s) && IdsDetermineEvents(ss + [s])
    ensures Converged(Apply(db, UpsertStatement(e, MetadataOf(e))), ss + [UpsertStatement(e, MetadataOf(e))])
  {
    DispatchAgreesWithIndex(e.kind);
    FewerStatements(ss, UpsertStatement(e, MetadataOf(e)));
    var slot, next := SlotOf(e), Apply(db, UpsertStatement(e, MetadataOf(e)));
    if Occupied(db.rows, slot) && e.createdAt <= db.rows[SlotRow(db.rows, slot)].eventCreatedAt {
      assert next == db;
      StaleUpsertConverges(db, ss, e);
    } else {
      UpsertReplaces(db, ss, e);
      NewerThanSlot(db, ss, e);
      FreshUpsertConverges(db, ss, e, next);
    }
  }

  lemma NewerThanSlot(db: Db, ss: seq<Statement>, e: Event)
    requires Consistent(db) && ClientRun(ss) && Converged(db, ss) && Indexed(e.kind)
    requires Occupied(db.rows, SlotOf(e)) ==> db.rows[SlotRow(db.rows, SlotOf(e))].eventCreatedAt < e.createdAt
    ensures forall d :: d in Upserts(ss) && SlotOf(d) == SlotOf(e) ==> d.createdAt < e.createdAt
  {
    forall d | d in Upserts(ss) && SlotOf(d) == SlotOf(e) ensures d.createdAt < e.createdAt {
      SlotIsNewest(db, ss, e, d);
    }
  }

  /** The row of a slot is at least as new as every event submitted for it. */
  lemma SlotIsNewest(db: Db, ss: seq<Statement>, e: Event, d: Event)
    requires Consistent(db) && ClientRun(ss) && Converged(db, ss) && Indexed(e.kind)
    requires d in Upserts(ss) && SlotOf(d) == SlotOf(e)
    ensures Occupied(db.rows, SlotOf(e)) && d.createdAt <= db.rows[SlotRow(db.rows, SlotOf(e))].eventCreatedAt
  {
    assert Occupied(db.rows, SlotOf(d));
    var i := RowOfSlot(db, ss, e);
    var j :| 0 <= j < |Upserts(ss)| && Upserts(ss)[j] == d;
  }

  lemma FewerStatements(ss: seq<Statement>, s: Statement)
    requires IdsDetermineEvents(ss + [s])
    ensures IdsDetermineEvents(ss)
  {
    assert forall e :: Submitted(ss, e) ==> Submitted(ss + [s], e);
  }

  lemma MarkedSlotsHold(rows: Rows, next: Rows, es: seq<Event>)
    requires SlotsHold(rows, es) && rows.Keys == next.Keys
    requires forall id :: id in rows ==> Unmarked(next[id]) == Unmarked(rows[id])
    ensures SlotsHold(next, es)
  {
    forall id | id in next && Indexed(next[id].eventKind) ensures HoldsWinner(es, next[id]) {
      assert Unmarked(next[id]) == Unmarked(rows[id]);
      var i: nat :| Winner(es, i) && Unmarked(rows[id]) == StoredRow(es[i]);
    }
    forall d | d in es ensures Occupied(next, SlotOf(d)) {
      var at :| at in rows && InSlot(rows[at], SlotOf(d));
      assert Unmarked(next[at]) == Unmarked(rows[at]);
      assert at in next && InSlot(next[at], SlotOf(d));
    }
  }

  lemma MarkedCreatedHold(rows: Rows, next: Rows, ss: seq<Statement>)
    requires CreatedHold(rows, ss) && rows.Keys == next.Keys
    requires forall id :: id in rows ==> Unmarked(next[id]) == Unmarked(rows[id])
    ensures CreatedHold(next, ss)
  {
    forall id | id in next && !Indexed(next[id].eventKind) ensures HoldsCreated(ss, next[id]) {
      assert Unmarked(next[id]) == Unmarked(rows[id]);
      var e :| CreateStatement(e) in ss && Unmarked(rows[id]) == RowOf(e, None);
    }
  }

  lemma DeleteConverges(db: Db, ss: seq<Statement>, pubkey: string, ids: seq<string>)
    requires Consistent(db) && Converged(db, ss)
    ensures Converged(DeleteByPubkeyAndIds(db, pubkey, ids).db, ss + [DeleteStatement(pubkey, ids)])
  {
    var next := DeleteByPubkeyAndIds(db, pubkey, ids).db.rows;
    DeleteRowsExact(db, ToBuffer(pubkey), Buffers(ids));
    MarkedSlotsHold(db.rows, next, Upserts(ss));
    MarkedCreatedHold(db.rows, next, ss);
    UpsertsNext(ss, DeleteStatement(pubkey, ids));
    CreatedHoldOn(next, ss, DeleteStatement(pubkey, ids));
  }

  /** Every client run leaves in each slot exactly its winner. */
  lemma {:induction false} RunConverges(ss: seq<Statement>)
    requires ClientRun(ss) && IdsDetermineEvents(ss)
    ensures Consistent(Run(EmptyDb, ss)) && Converged(Run(EmptyDb, ss), ss)
  {
    if ss != [] {
      var n := |ss| - 1;
      var front, s := ss[..n], ss[n];
      assert front + [s] == ss;
      FewerStatements(front, s);
      RunConverges(front);
      ApplyKeepsConsistent(Run(EmptyDb, front), s);
      assert ClientStatement(s);
      match s {
        case CreateStatement(e) => CreateConverges(Run(EmptyDb, front), front, e);
        case UpsertStatement(e, _) => UpsertConverges(Run(EmptyDb, front), front, e);
        case DeleteStatement(pubkey, ids) => DeleteConverges(Run(EmptyDb, front), front, pubkey, ids);
      }
    }
  }

  function RowsOfSlot(rows: Rows, slot: Slot): set<Bytes> {
    set id | id in rows && InSlot(rows[id], slot)
  }

  /** After any client run, the slot of every submitted replaceable event has exactly one row: the one of
      the submitted event with the greatest created_at, the first submitted among ties. */
  lemma SlotsConverge(ss: seq<Statement>, e: Event) returns (i: nat)
    requires ClientRun(ss) && IdsDetermineEvents(ss) && e in Upserts(ss)
    ensures var rows := Run(EmptyDb, ss).rows;
            && Winner(Upserts(ss), i) && SlotOf(Upserts(ss)[i]) == SlotOf(e)
            && RowsOfSlot(rows, SlotOf(e)) == {ToBuffer(Upserts(ss)[i].id)}
            && Unmarked(rows[ToBuffer(Upserts(ss)[i].id)]) == StoredRow(Upserts(ss)[i])
  {
    RunConverges(ss);
    var db := Run(EmptyDb, ss);
    UpsertsAre(ss, e);
    assert ClientStatement(UpsertStatement(e, MetadataOf(e)));
    DispatchAgreesWithIndex(e.kind);
    i := RowOfSlot(db, ss, e);
    var id := SlotRow(db.rows, SlotOf(e));
    assert RowsOfSlot(db.rows, SlotOf(e)) == {id};
  }

  lemma WinnerUnique(es: seq<Event>, i: nat, j: nat)
    requires Winner(es, i) && Winner(es, j) && SlotOf(es[i]) == SlotOf(es[j])
    ensures i == j
  {
  }

  // ---- order does not matter ------------------------------------------------------------

  ghost predicate NoDeletes(ss: seq<Statement>) {
    forall s :: s in ss ==> !s.DeleteStatement?
  }

  /** No two different events of one slot have the same created_at. */
  ghost predicate DistinctTimes(ss: seq<Statement>) {
    forall d, e :: d in Upserts(ss) && e in Upserts(ss) && SlotOf(d) == SlotOf(e) && d.createdAt == e.createdAt ==>
      d == e
  }

  lemma ApplyMarksNothing(db: Db, s: Statement, id: Bytes)
    requires !s.DeleteStatement? && id in Apply(db, s).rows
    ensures (id in db.rows && Apply(db, s).rows[id] == db.rows[id]) || !Apply(db, s).rows[id].deleted
  {
  }

  lemma {:induction false} NothingMarked(ss: seq<Statement>, id: Bytes)
    requires NoDeletes(ss) && id in Run(EmptyDb, ss).rows
    ensures !Run(EmptyDb, ss).rows[id].deleted
  {
    if ss != [] {
      var front := ss[..|ss| - 1];
      ApplyMarksNothing(Run(EmptyDb, front), ss[|ss| - 1], id);
      if id in Run(EmptyDb, front).rows {
        NothingMarked(front, id);
      }
    }
  }

  /** Two runs of the same statements have the same winner in a slot. */
  lemma SameWinner(ss: seq<Statement>, tt: seq<Statement>, i: nat, j: nat)
    requires ClientRun(ss) && ClientRun(tt) && DistinctTimes(ss)
    requires forall s :: s in ss <==> s in tt
    requires Winner(Upserts(ss), i) && Winner(Upserts(tt), j)
    requires SlotOf(Upserts(ss)[i]) == SlotOf(Upserts(tt)[j])
    ensures Upserts(ss)[i] == Upserts(tt)[j]
  {
    var d, w := Upserts(ss)[i], Upserts(tt)[j];
    UpsertsAre(ss, d);
    UpsertsAre(tt, d);
    UpsertsAre(tt, w);
    UpsertsAre(ss, w);
    var k :| 0 <= k < |Upserts(tt)| && Upserts(tt)[k] == d;
    var l :| 0 <= l < |Upserts(ss)| && Upserts(ss)[l] == w;
  }

  lemma SameIndexedRow(a: Db, b: Db, ss: seq<Statement>, tt: seq<Statement>, id: Bytes)
    requires Consistent(a) && Converged(a, ss) && Consistent(b) && Converged(b, tt)
    requires ClientRun(ss) && ClientRun(tt) && DistinctTimes(ss)
    requires forall s :: s in ss <==> s in tt
    requires id in a.rows && Indexed(a.rows[id].eventKind)
    ensures id in b.rows && Unmarked(b.rows[id]) == Unmarked(a.rows[id])
  {
    var i: nat :| Winner(Upserts(ss), i) && Unmarked(a.rows[id]) == StoredRow(Upserts(ss)[i]);
    var d := Upserts(ss)[i];
    UpsertsAre(ss, d);
    UpsertsAre(tt, d);
    var j := RowOfSlot(b, tt, d);
    SameWinner(ss, tt, i, j);
  }

  lemma CreatedRowIs(db: Db, ss: seq<Statement>, c: Event)
    requires Consistent(db) && Converged(db, ss) && ClientRun(ss) && IdsDetermineEvents(ss) && CreateStatement(c) in ss
    ensures ToBuffer(c.id) in db.rows && Unmarked(db.rows[ToBuffer(c.id)]) == RowOf(c, None)
  {
    var f := RowsAreSubmitted(db, ss, ToBuffer(c.id));
    assert ClientStatement(CreateStatement(c));
    ToBufferInjective(c.id, f.id);
    assert Submitted(ss, c);
    DispatchAgreesWithIndex(c.kind);
  }

  lemma SameCreatedRow(a: Db, b: Db, ss: seq<Statement>, tt: seq<Statement>, id: Bytes)
    requires Consistent(a) && Converged(a, ss) && Consistent(b) && Converged(b, tt)
    requires ClientRun(ss) && ClientRun(tt) && IdsDetermineEvents(tt)
    requires forall s :: s in ss <==> s in tt
    requires id in a.rows && !Indexed(a.rows[id].eventKind)
    ensures id in b.rows && Unmarked(b.rows[id]) == Unmarked(a.rows[id])
  {
    var c :| CreateStatement(c) in ss && Unmarked(a.rows[id]) == RowOf(c, None);
    CreatedRowIs(b, tt, c);
  }

  lemma SameRowEitherWay(ss: seq<Statement>, tt: seq<Statement>, id: Bytes)
    requires ClientRun(ss) && ClientRun(tt) && NoDeletes(ss) && NoDeletes(tt)
    requires IdsDetermineEvents(ss) && IdsDetermineEvents(tt) && DistinctTimes(ss)
    requires forall s :: s in ss <==> s in tt
    requires id in Run(EmptyDb, ss).rows
    ensures id in Run(EmptyDb, tt).rows && Run(EmptyDb, tt).rows[id] == Run(EmptyDb, ss).rows[id]
  {
    RunConverges(ss);
    RunConverges(tt);
    var a, b := Run(EmptyDb, ss), Run(EmptyDb, tt);
    if Indexed(a.rows[id].eventKind) {
      SameIndexedRow(a, b, ss, tt, id);
    } else {
      SameCreatedRow(a, b, ss, tt, id);
    }
    NothingMarked(ss, id);
    NothingMarked(tt, id);
  }

  lemma SameRows(ss: seq<Statement>, tt: seq<Statement>)
    requires ClientRun(ss) && ClientRun(tt) && NoDeletes(ss) && NoDeletes(tt)
    requires IdsDetermineEvents(ss) && IdsDetermineEvents(tt) && DistinctTimes(ss) && DistinctTimes(tt)
    requires forall s :: s in ss <==> s in tt
    ensures Run(EmptyDb, ss).rows == Run(EmptyDb, tt).rows
  {
    var a, b := Run(EmptyDb, ss).rows, Run(EmptyDb, tt).rows;
    forall id: Bytes ensures id in a ==> id in b && a[id] == b[id] {
      if id in a { SameRowEitherWay(ss, tt, id); }
    }
    forall id: Bytes ensures id in b ==> id in a {
      if id in b { SameRowEitherWay(tt, ss, id); }
    }
  }

  /** Without deletions, the same statements in any order, and any number of times each, give the same
      table and an index with the same rows for every event. */
  lemma OrderDoesNotMatter(ss: seq<Statement>, tt: seq<Statement>)
    requires ClientRun(ss) && ClientRun(tt) && NoDeletes(ss) && NoDeletes(tt)
    requires IdsDetermineEvents(ss) && IdsDetermineEvents(tt) && DistinctTimes(ss) && DistinctTimes(tt)
    requires forall s :: s in ss <==> s in tt
    ensures Run(EmptyDb, ss).rows == Run(EmptyDb, tt).rows
    ensures forall id: Bytes :: RowsFor(Run(EmptyDb, ss).tags, id) == RowsFor(Run(EmptyDb, tt).tags, id)
  {
    SameRows(ss, tt);
    RunConverges(ss);
    RunConverges(tt);
  }
}
