/** The events table with its two unique indexes and its tag trigger: the three statements that change it. */
module EventRepository {
  import opened Events
  import opened Hex
  import opened TagIndex
  import opened Wrappers

  datatype Db = Db(rows: Rows, tags: seq<TagRow>)

  const EmptyDb: Db := Db(map[], [])

  /** The condition of the partial unique index. */
  predicate Indexed(kind: nat) {
    || (kind == 0 || kind == 3 || kind == 41 || (10000 <= kind < 20000))
    || (30000 <= kind < 40000)
  }

  /** The key of the partial unique index. */
  datatype Slot = Slot(pubkey: Bytes, kind: nat, key: Deduplication)

  predicate InSlot(row: Row, slot: Slot) {
    && Indexed(row.eventKind)
    && row.eventPubkey == slot.pubkey && row.eventKind == slot.kind && row.eventDeduplication == Some(slot.key)
  }

  predicate Occupied(rows: Rows, slot: Slot) {
    exists id :: id in rows && InSlot(rows[id], slot)
  }

  ghost predicate UniqueSlots(rows: Rows) {
    forall a, b, slot :: a in rows && b in rows && InSlot(rows[a], slot) && InSlot(rows[b], slot) ==> a == b
  }

  /** What the indexes and the trigger guarantee. */
  ghost predicate Consistent(db: Db) {
    && (forall id :: id in db.rows ==> db.rows[id].eventId == id)
    && UniqueSlots(db.rows)
    && Agrees(db.rows, db.tags)
  }

  // ---- statements -----------------------------------------------------------------------

  /** One row inserted, or updated from what it was, with the trigger run for it. */
  function Write(db: Db, was: Option<Row>, now: Row): Db {
    Db((if was.Some? then db.rows - {was.value.eventId} else db.rows)[now.eventId := now],
       ProcessEventTags(db.tags, was, now))
  }

  datatype Outcome = Outcome(db: Db, count: nat)

  /** INSERT ... ON CONFLICT DO NOTHING, without a deduplication key. */
  function Create(db: Db, e: Event): Outcome {
    var row := RowOf(e, None);
    if row.eventId in db.rows then Outcome(db, 0) else Outcome(Write(db, None, row), 1)
  }

  function KeyOf(e: Event, metadata: Option<seq<string>>): Deduplication {
    match metadata
    case None => PubkeyAndKind(e.pubkey, e.kind)
    case Some(values) => TagValues(values)
  }

  function UpsertRow(e: Event, metadata: Option<seq<string>>): Row {
    RowOf(e, Some(KeyOf(e, metadata)))
  }

  function UpsertSlot(e: Event, metadata: Option<seq<string>>): Slot {
    Slot(ToBuffer(e.pubkey), e.kind, KeyOf(e, metadata))
  }

  const UNIQUE_VIOLATION := "duplicate key value violates unique constraint \"events_event_id_unique\""

  /** The row that conflicts with a new row on the partial index. */
  ghost function SlotRow(rows: Rows, slot: Slot): (id: Bytes)
    requires Occupied(rows, slot)
    ensures id in rows && InSlot(rows[id], slot)
  {
    var id :| id in rows && InSlot(rows[id], slot);
    id
  }

  lemma SlotRowIs(rows: Rows, slot: Slot, id: Bytes)
    requires UniqueSlots(rows) && id in rows && InSlot(rows[id], slot)
    ensures Occupied(rows, slot) && SlotRow(rows, slot) == id
  {
  }

  /** INSERT ... ON CONFLICT (slot) DO UPDATE ... WHERE the stored row is older. */
  ghost function Upsert(db: Db, e: Event, metadata: Option<seq<string>>): Result<Outcome, string> {
    var row, slot := UpsertRow(e, metadata), UpsertSlot(e, metadata);
    if Indexed(e.kind) && Occupied(db.rows, slot) then
      var id := SlotRow(db.rows, slot);
      if db.rows[id].eventCreatedAt >= row.eventCreatedAt then Ok(Outcome(db, 0))
      else if row.eventId in db.rows && row.eventId != id then Err(UNIQUE_VIOLATION)
      else Ok(Outcome(Write(db, Some(db.rows[id]), row), 1))
    else if row.eventId in db.rows then Err(UNIQUE_VIOLATION)
    else Ok(Outcome(Write(db, None, row), 1))
  }

  /** The slot has a row that is at least as new. */
  predicate Stale(rows: Rows, e: Event, metadata: Option<seq<string>>) {
    exists id :: id in rows && InSlot(rows[id], UpsertSlot(e, metadata)) && rows[id].eventCreatedAt >= e.createdAt
  }

  /** The id belongs to a row outside the slot. */
  predicate Taken(rows: Rows, e: Event, metadata: Option<seq<string>>) {
    ToBuffer(e.id) in rows && !InSlot(rows[ToBuffer(e.id)], UpsertSlot(e, metadata))
  }

  /** A stale event changes nothing, a taken id violates the constraint, and any other event is written. */
  lemma UpsertExactly(db: Db, e: Event, metadata: Option<seq<string>>)
    requires Consistent(db)
    ensures var rows, id := db.rows, ToBuffer(e.id);
            match Upsert(db, e, metadata)
            case Err(error) => error == UNIQUE_VIOLATION && !Stale(rows, e, metadata) && Taken(rows, e, metadata)
            case Ok(o) =>
              if Stale(rows, e, metadata) then o == Outcome(db, 0)
              else !Taken(rows, e, metadata) && o.count == 1
                   && id in o.db.rows && o.db.rows[id] == UpsertRow(e, metadata)
  {
    var slot := UpsertSlot(e, metadata);
    if Occupied(db.rows, slot) {
      OccupiedExactly(db.rows, slot, SlotRow(db.rows, slot));
    }
  }

  lemma OccupiedExactly(rows: Rows, slot: Slot, id: Bytes)
    requires UniqueSlots(rows) && id in rows && InSlot(rows[id], slot)
    ensures forall x :: x in rows && InSlot(rows[x], slot) ==> x == id
  {
  }

  /** One row of the soft-deleting UPDATE. */
  function DeleteRow(db: Db, pubkey: Bytes, id: Bytes): Outcome {
    if id in db.rows && db.rows[id].eventPubkey == pubkey && !db.rows[id].deleted
    then Outcome(Write(db, Some(db.rows[id]), db.rows[id].(deleted := true)), 1)
    else Outcome(db, 0)
  }

  /** The soft-deleting UPDATE; the rows are visited in the order of the list. */
  function DeleteRows(db: Db, pubkey: Bytes, ids: seq<Bytes>): Outcome {
    if ids == [] then Outcome(db, 0)
    else
      var n := |ids| - 1;
      var before := DeleteRows(db, pubkey, ids[..n]);
      var last := DeleteRow(before.db, pubkey, ids[n]);
      Outcome(last.db, before.count + last.count)
  }

  function DeleteByPubkeyAndIds(db: Db, pubkey: string, ids: seq<string>): Outcome {
    DeleteRows(db, ToBuffer(pubkey), Buffers(ids))
  }

  // ---- every statement keeps the indexes ------------------------------------------------

  lemma WriteKeepsConsistent(db: Db, was: Option<Row>, now: Row)
    requires Consistent(db)
    requires was.Some? ==> was.value.eventId in db.rows
    requires now.eventId in db.rows ==> was.Some? && was.value.eventId == now.eventId
    requires forall slot, id :: InSlot(now, slot) && id in db.rows && InSlot(db.rows[id], slot) ==>
      was.Some? && was.value.eventId == id
    ensures Consistent(Write(db, was, now))
  {
    var rows := (if was.Some? then db.rows - {was.value.eventId} else db.rows)[now.eventId := now];
    TriggerKeepsAgreement(db.rows, db.tags, was, now);
    WriteKeepsSlots(db.rows, was, now, rows);
  }

  lemma WriteKeepsSlots(rows: Rows, was: Option<Row>, now: Row, next: Rows)
    requires UniqueSlots(rows)
    requires next == (if was.Some? then rows - {was.value.eventId} else rows)[now.eventId := now]
    requires forall slot, id :: InSlot(now, slot) && id in rows && InSlot(rows[id], slot) ==>
      was.Some? && was.value.eventId == id
    ensures UniqueSlots(next)
  {
  }

  lemma CreateKeepsConsistent(db: Db, e: Event)
    requires Consistent(db)
    ensures Consistent(Create(db, e).db)
  {
    var row := RowOf(e, None);
    if row.eventId !in db.rows {
      WriteKeepsConsistent(db, None, row);
    }
  }

  lemma UpsertKeepsConsistent(db: Db, e: Event, metadata: Option<seq<string>>)
    requires Consistent(db) && Upsert(db, e, metadata).Ok?
    ensures Consistent(Upsert(db, e, metadata).value.db)
  {
    var row, slot := UpsertRow(e, metadata), UpsertSlot(e, metadata);
    assert forall s :: InSlot(row, s) ==> Indexed(e.kind) && s == slot;
    if Indexed(e.kind) && Occupied(db.rows, slot) {
      var id := SlotRow(db.rows, slot);
      if db.rows[id].eventCreatedAt < row.eventCreatedAt {
        WriteKeepsConsistent(db, Some(db.rows[id]), row);
      }
    } else {
      WriteKeepsConsistent(db, None, row);
    }
  }

  /** The row is older than the event and in the slot the event competes for. */
  predicate Outdated(row: Row, e: Event, metadata: Option<seq<string>>) {
    InSlot(row, UpsertSlot(e, metadata)) && row.eventCreatedAt < e.createdAt
  }

  lemma WriteRemoves(db: Db, was: Option<Row>, now: Row, x: Bytes)
    requires Consistent(db) && x in db.rows
    requires was.Some? ==> was.value.eventId in db.rows && db.rows[was.value.eventId] == was.value
    requires now.eventId in db.rows ==> was.Some? && was.value.eventId == now.eventId
    ensures (x in Write(db, was, now).rows && Write(db, was, now).rows[x] == db.rows[x]) || was == Some(db.rows[x])
  {
  }

  /** The only row an upsert removes or changes is the outdated one of its slot. */
  lemma UpsertRemoves(db: Db, e: Event, metadata: Option<seq<string>>, x: Bytes)
    requires Consistent(db) && Upsert(db, e, metadata).Ok? && x in db.rows
    ensures var now := Upsert(db, e, metadata).value.db.rows;
            (x in now && now[x] == db.rows[x])
            || (Outdated(db.rows[x], e, metadata) && db.rows[x].eventCreatedAt < e.createdAt)
  {
    var slot := UpsertSlot(e, metadata);
    if Upsert(db, e, metadata).value.count == 1 {
      var was := if Indexed(e.kind) && Occupied(db.rows, slot) then Some(db.rows[SlotRow(db.rows, slot)]) else None;
      WriteRemoves(db, was, UpsertRow(e, metadata), x);
    }
  }

  lemma DeleteRowKeepsConsistent(db: Db, pubkey: Bytes, id: Bytes)
    requires Consistent(db)
    ensures Consistent(DeleteRow(db, pubkey, id).db)
  {
    if DeleteRow(db, pubkey, id).count == 1 {
      var was, now := db.rows[id], db.rows[id].(deleted := true);
      forall slot, other | InSlot(now, slot) && other in db.rows && InSlot(db.rows[other], slot) ensures other == id {
        assert InSlot(was, slot);
      }
      WriteKeepsConsistent(db, Some(was), now);
    }
  }

  /** A row after a soft deletion of ids by pubkey. */
  function Deleted(row: Row, pubkey: Bytes, ids: seq<Bytes>): Row {
    row.(deleted := row.deleted || (row.eventPubkey == pubkey && row.eventId in ids))
  }

  ghost function Changed(was: Rows, now: Rows): set<Bytes>
    requires was.Keys == now.Keys
  {
    set id | id in was && now[id] != was[id]
  }

  predicate Markable(rows: Rows, pubkey: Bytes, id: Bytes) {
    id in rows && rows[id].eventPubkey == pubkey && !rows[id].deleted
  }

  lemma OneMarked(rows: Rows, pubkey: Bytes, id: Bytes)
    requires (forall x :: x in rows ==> rows[x].eventId == x) && Markable(rows, pubkey, id)
    ensures var now := rows[id := rows[id].(deleted := true)];
            && now.Keys == rows.Keys
            && (forall x :: x in rows ==> now[x] == Deleted(rows[x], pubkey, [id]))
            && Changed(rows, now) == {id}
  {
    var now := rows[id := rows[id].(deleted := true)];
    forall x | x in rows ensures now[x] == Deleted(rows[x], pubkey, [id]) {
      assert x in [id] <==> x == id;
    }
  }

  lemma NoneMarked(rows: Rows, pubkey: Bytes, id: Bytes)
    requires (forall x :: x in rows ==> rows[x].eventId == x) && !Markable(rows, pubkey, id)
    ensures forall x :: x in rows ==> rows[x] == Deleted(rows[x], pubkey, [id])
    ensures Changed(rows, rows) == {}
  {
    forall x | x in rows ensures rows[x] == Deleted(rows[x], pubkey, [id]) {
      assert x in [id] <==> x == id;
    }
  }

  lemma DeleteRowExact(db: Db, pubkey: Bytes, id: Bytes)
    requires Consistent(db)
    ensures var d := DeleteRow(db, pubkey, id);
            && d.db.rows.Keys == db.rows.Keys
            && (forall x :: x in db.rows ==> d.db.rows[x] == Deleted(db.rows[x], pubkey, [id]))
            && Changed(db.rows, d.db.rows) == (if d.count == 1 then {id} else {})
            && d.count <= 1
  {
    var d := DeleteRow(db, pubkey, id);
    if d.count == 1 {
      assert d.db.rows == db.rows[id := db.rows[id].(deleted := true)];
      OneMarked(db.rows, pubkey, id);
    } else {
      NoneMarked(db.rows, pubkey, id);
    }
  }

  /** What a soft deletion does to every row of the table, and how many rows it counts. */
  lemma {:induction false} DeleteRowsExact(db: Db, pubkey: Bytes, ids: seq<Bytes>)
    requires Consistent(db)
    ensures var d := DeleteRows(db, pubkey, ids);
            && Consistent(d.db)
            && d.db.rows.Keys == db.rows.Keys
            && (forall id :: id in db.rows ==> d.db.rows[id] == Deleted(db.rows[id], pubkey, ids))
            && d.count == |Changed(db.rows, d.db.rows)|
  {
    if ids == [] {
      assert Changed(db.rows, db.rows) == {};
    } else {
      var n := |ids| - 1;
      DeleteRowsExact(db, pubkey, ids[..n]);
      DeleteOneMore(db, DeleteRows(db, pubkey, ids[..n]), pubkey, ids);
    }
  }

  lemma DeleteRowsNext(db: Db, pubkey: Bytes, ids: seq<Bytes>, i: nat)
    requires i < |ids|
    ensures var before := DeleteRows(db, pubkey, ids[..i]);
            var last := DeleteRow(before.db, pubkey, ids[i]);
            DeleteRows(db, pubkey, ids[..i + 1]) == Outcome(last.db, before.count + last.count)
  {
    assert ids[..i + 1][..i] == ids[..i];
  }

  lemma DeleteOneMore(db: Db, before: Outcome, pubkey: Bytes, ids: seq<Bytes>)
    requires ids != [] && Consistent(before.db) && before.db.rows.Keys == db.rows.Keys
    requires forall id :: id in db.rows ==> before.db.rows[id] == Deleted(db.rows[id], pubkey, ids[..|ids| - 1])
    requires before.count == |Changed(db.rows, before.db.rows)|
    ensures var last := DeleteRow(before.db, pubkey, ids[|ids| - 1]);
            && Consistent(last.db)
            && last.db.rows.Keys == db.rows.Keys
            && (forall id :: id in db.rows ==> last.db.rows[id] == Deleted(db.rows[id], pubkey, ids))
            && before.count + last.count == |Changed(db.rows, last.db.rows)|
  {
    var id := ids[|ids| - 1];
    DeleteRowKeepsConsistent(before.db, pubkey, id);
    DeleteRowExact(before.db, pubkey, id);
    DeletedTwice(db.rows, before.db.rows, DeleteRow(before.db, pubkey, id).db.rows, pubkey, ids);
  }

  lemma DeletedTwice(was: Rows, mid: Rows, now: Rows, pubkey: Bytes, ids: seq<Bytes>)
    requires ids != [] && was.Keys == mid.Keys == now.Keys
    requires forall id :: id in was ==> mid[id] == Deleted(was[id], pubkey, ids[..|ids| - 1])
    requires forall id :: id in was ==> now[id] == Deleted(mid[id], pubkey, [ids[|ids| - 1]])
    ensures forall id :: id in was ==> now[id] == Deleted(was[id], pubkey, ids)
    ensures |Changed(was, now)| == |Changed(was, mid)| + |Changed(mid, now)|
  {
    assert ids == ids[..|ids| - 1] + [ids[|ids| - 1]];
    assert Changed(was, mid) !! Changed(mid, now);
    assert Changed(was, now) == Changed(was, mid) + Changed(mid, now);
  }

  /** A soft deletion touches only rows of its author, and of them only the deletion mark. */
  lemma DeleteIsOwn(db: Db, pubkey: string, ids: seq<string>, id: Bytes)
    requires Consistent(db) && id in db.rows
    ensures var d := DeleteByPubkeyAndIds(db, pubkey, ids).db;
            && id in d.rows
            && (db.rows[id].eventPubkey != ToBuffer(pubkey) ==> d.rows[id] == db.rows[id])
            && d.rows[id].(deleted := false) == db.rows[id].(deleted := false)
            && (db.rows[id].deleted ==> d.rows[id].deleted)
  {
    DeleteRowsExact(db, ToBuffer(pubkey), Buffers(ids));
  }

  lemma AppendIndexTag(kept: seq<TagRow>, id: Bytes, tags: seq<Tag>, i: nat)
    requires i < |tags|
    ensures kept + IndexTags(id, tags[..i]) + IndexTag(id, tags[i]) == kept + IndexTags(id, tags[..i + 1])
  {
    assert tags[..i + 1][..i] == tags[..i];
  }

  // ---- the repository -------------------------------------------------------------------

  class EventRepository {
    var rows: Rows
    var eventTags: seq<TagRow>

    function Contents(): Db
      reads this
    {
      Db(rows, eventTags)
    }

    ghost predicate Valid()
      reads this
    {
      Consistent(Contents())
    }

    constructor ()
      ensures Valid() && Contents() == EmptyDb
    {
      rows, eventTags := map[], [];
    }

    /** The trigger on the events table, run after a row was written. */
    method RunTrigger(was: Option<Row>, now: Row)
      modifies this`eventTags
      ensures eventTags == ProcessEventTags(old(eventTags), was, now)
    {
      if was.Some? {
        eventTags := Without(eventTags, was.value.eventId);
      }
      ghost var kept := eventTags;
      var i := 0;
      while i < |now.eventTags|
        invariant 0 <= i <= |now.eventTags|
        invariant eventTags == kept + IndexTags(now.eventId, now.eventTags[..i])
      {
        var tag := now.eventTags[i];
        AppendIndexTag(kept, now.eventId, now.eventTags, i);
        eventTags := eventTags + IndexTag(now.eventId, tag);
        i := i + 1;
      }
      assert now.eventTags[..i] == now.eventTags;
    }

    method WriteRow(was: Option<Row>, now: Row)
      modifies this
      ensures Contents() == Write(old(Contents()), was, now)
    {
      rows := (if was.Some? then rows - {was.value.eventId} else rows)[now.eventId := now];
      RunTrigger(was, now);
    }

    method CreateEvent(e: Event) returns (count: nat)
      requires Valid()
      modifies this
      ensures Valid()
      ensures Contents() == Create(old(Contents()), e).db && count == Create(old(Contents()), e).count
    {
      CreateKeepsConsistent(Contents(), e);
      var row := RowOf(e, None);
      if row.eventId in rows {
        return 0;
      }
      WriteRow(None, row);
      count := 1;
    }

    method UpsertEvent(e: Event, metadata: Option<seq<string>>) returns (r: Result<nat, string>)
      requires Valid()
      modifies this
      ensures Valid()
      ensures match Upsert(old(Contents()), e, metadata)
              case Ok(o) => Contents() == o.db && r == Ok(o.count)
              case Err(error) => Contents() == old(Contents()) && r == Err(error)
      ensures r == if Stale(old(rows), e, metadata) then Ok(0)
                   else if Taken(old(rows), e, metadata) then Err(UNIQUE_VIOLATION) else Ok(1)
    {
      UpsertExactly(Contents(), e, metadata);
      if Upsert(Contents(), e, metadata).Ok? {
        UpsertKeepsConsistent(Contents(), e, metadata);
      }
      var row, slot := UpsertRow(e, metadata), UpsertSlot(e, metadata);
      var was: Option<Row> := None;
      if Indexed(e.kind) && Occupied(rows, slot) {
        var id :| id in rows && InSlot(rows[id], slot);
        assert id == SlotRow(rows, slot);
        if rows[id].eventCreatedAt >= row.eventCreatedAt {
          return Ok(0);
        }
        was := Some(rows[id]);
      }
      if row.eventId in rows && !(was.Some? && was.value.eventId == row.eventId) {
        return Err(UNIQUE_VIOLATION);
      }
      WriteRow(was, row);
      r := Ok(1);
    }

    method DeleteEvents(pubkey: string, ids: seq<string>) returns (count: nat)
      requires Valid()
      modifies this
      ensures Valid()
      ensures var d := DeleteByPubkeyAndIds(old(Contents()), pubkey, ids);
              Contents() == d.db && count == d.count
    {
      var author, buffers := ToBuffer(pubkey), Buffers(ids);
      ghost var start := Contents();
      count := 0;
      var i := 0;
      while i < |buffers|
        invariant 0 <= i <= |buffers|
        invariant Contents() == DeleteRows(start, author, buffers[..i]).db
        invariant count == DeleteRows(start, author, buffers[..i]).count
      {
        DeleteRowsNext(start, author, buffers, i);
        var id := buffers[i];
        if id in rows && rows[id].eventPubkey == author && !rows[id].deleted {
          WriteRow(Some(rows[id]), rows[id].(deleted := true));
          count := count + 1;
        }
        i := i + 1;
      }
      assert buffers[..i] == buffers;
      DeleteRowsExact(start, author, buffers);
    }
  }
}
