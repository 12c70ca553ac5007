/** Soft deletions last: what can and cannot make a deleted row visible again. */
module Tombstones {
  import opened EventRepository
  import opened Events
  import opened EventStrategies
  import opened Hex
  import opened Wrappers

  /** A row that no upsert can replace. */
  predicate OutsideSlots(row: Row) {
    !Indexed(row.eventKind) || row.eventDeduplication == None
  }

  lemma ApplyKeepsTombstone(db: Db, s: Statement, id: Bytes)
    requires Consistent(db) && id in db.rows && db.rows[id].deleted && OutsideSlots(db.rows[id])
    ensures id in Apply(db, s).rows && Apply(db, s).rows[id] == db.rows[id]
  {
    match s
    case CreateStatement(e) =>
    case UpsertStatement(e, metadata) =>
      if Upsert(db, e, metadata).Ok? { UpsertRemoves(db, e, metadata, id); }
    case DeleteStatement(pubkey, ids) =>
      DeleteRowsExact(db, ToBuffer(pubkey), Buffers(ids));
  }

  /** A deleted row of a regular event stays exactly as it is, whatever statements follow. */
  lemma {:induction false} RegularTombstonePersists(db: Db, ss: seq<Statement>, id: Bytes)
    requires Consistent(db) && id in db.rows && db.rows[id].deleted && OutsideSlots(db.rows[id])
    ensures id in Run(db, ss).rows && Run(db, ss).rows[id] == db.rows[id]
  {
    if ss != [] {
      var front := ss[..|ss| - 1];
      RegularTombstonePersists(db, front, id);
      RunKeepsConsistent(db, front);
      ApplyKeepsTombstone(Run(db, front), ss[|ss| - 1], id);
    }
  }

  /** The row is what an upsert of the run wrote into the slot, and is newer than at. */
  ghost predicate WrittenBy(ss: seq<Statement>, slot: Slot, row: Row, at: nat) {
    exists e, metadata ::
      && UpsertStatement(e, metadata) in ss && UpsertSlot(e, metadata) == slot
      && e.createdAt > at && row.(deleted := false) == UpsertRow(e, metadata)
  }

  /** The slot's row is still the deleted one, or was replaced by a strictly newer upsert. */
  ghost predicate StillBuried(db: Db, ss: seq<Statement>, slot: Slot, buried: Row) {
    && Occupied(db.rows, slot)
    && (db.rows[SlotRow(db.rows, slot)] == buried
        || WrittenBy(ss, slot, db.rows[SlotRow(db.rows, slot)], buried.eventCreatedAt))
  }

  lemma MoreStatements(ss: seq<Statement>, s: Statement, slot: Slot, row: Row, at: nat)
    requires WrittenBy(ss, slot, row, at)
    ensures WrittenBy(ss + [s], slot, row, at)
  {
    var e, metadata :| UpsertStatement(e, metadata) in ss && UpsertSlot(e, metadata) == slot
                       && e.createdAt > at && row.(deleted := false) == UpsertRow(e, metadata);
    assert UpsertStatement(e, metadata) in ss + [s];
  }

  lemma CreateKeepsBuried(db: Db, ss: seq<Statement>, slot: Slot, buried: Row, e: Event)
    requires Consistent(db) && StillBuried(db, ss, slot, buried)
    ensures StillBuried(Create(db, e).db, ss + [CreateStatement(e)], slot, buried)
  {
    CreateKeepsConsistent(db, e);
    var id, next := SlotRow(db.rows, slot), Create(db, e).db;
    assert id in next.rows && next.rows[id] == db.rows[id];
    SlotRowIs(next.rows, slot, id);
    if db.rows[id] != buried {
      MoreStatements(ss, CreateStatement(e), slot, db.rows[id], buried.eventCreatedAt);
    }
  }

  lemma DeleteKeepsBuried(db: Db, ss: seq<Statement>, slot: Slot, buried: Row, pubkey: string, ids: seq<string>)
    requires Consistent(db) && StillBuried(db, ss, slot, buried) && buried.deleted
    ensures StillBuried(DeleteByPubkeyAndIds(db, pubkey, ids).db, ss + [DeleteStatement(pubkey, ids)], slot, buried)
  {
    var s := DeleteStatement(pubkey, ids);
    var next := DeleteByPubkeyAndIds(db, pubkey, ids).db;
    DeleteRowsExact(db, ToBuffer(pubkey), Buffers(ids));
    var id := SlotRow(db.rows, slot);
    SlotRowIs(next.rows, slot, id);
    var row := db.rows[id];
    assert next.rows[id].(deleted := false) == row.(deleted := false);
    if row != buried {
      var e, metadata :| UpsertStatement(e, metadata) in ss && UpsertSlot(e, metadata) == slot
                         && e.createdAt > buried.eventCreatedAt && row.(deleted := false) == UpsertRow(e, metadata);
      assert UpsertStatement(e, metadata) in ss + [s];
    }
  }

  lemma UpsertKeepsBuried(db: Db, ss: seq<Statement>, slot: Slot, buried: Row, e: Event, metadata: Option<seq<string>>)
    requires Consistent(db) && StillBuried(db, ss, slot, buried)
    ensures StillBuried(Apply(db, UpsertStatement(e, metadata)), ss + [UpsertStatement(e, metadata)], slot, buried)
  {
    var s := UpsertStatement(e, metadata);
    var next := Apply(db, s);
    ApplyKeepsConsistent(db, s);
    var id := SlotRow(db.rows, slot);
    var row, own := db.rows[id], UpsertRow(e, metadata);
    if id in next.rows && next.rows[id] == row {
      SlotRowIs(next.rows, slot, id);
      if row != buried { MoreStatements(ss, s, slot, row, buried.eventCreatedAt); }
    } else {
      UpsertReplacesOnlyOwnSlot(db, e, metadata, slot);
      SlotRowIs(next.rows, slot, own.eventId);
      assert row.eventCreatedAt >= buried.eventCreatedAt;
      assert s in ss + [s];
    }
  }

  /** If an upsert removes the row of a slot, it wrote a strictly newer row into that slot. */
  lemma UpsertReplacesOnlyOwnSlot(db: Db, e: Event, metadata: Option<seq<string>>, slot: Slot)
    requires Consistent(db) && Occupied(db.rows, slot)
    requires var id := SlotRow(db.rows, slot);
             var next := Apply(db, UpsertStatement(e, metadata)).rows;
             !(id in next && next[id] == db.rows[id])
    ensures UpsertSlot(e, metadata) == slot && e.createdAt > db.rows[SlotRow(db.rows, slot)].eventCreatedAt
    ensures var own, next := UpsertRow(e, metadata), Apply(db, UpsertStatement(e, metadata));
            own.eventId in next.rows && next.rows[own.eventId] == own && InSlot(own, slot)
  {
    assert Upsert(db, e, metadata).Ok?;
    UpsertRemoves(db, e, metadata, SlotRow(db.rows, slot));
    UpsertWrites(db, e, metadata);
  }

  lemma UpsertWrites(db: Db, e: Event, metadata: Option<seq<string>>)
    requires Upsert(db, e, metadata).Ok?
    ensures var o, own := Upsert(db, e, metadata).value, UpsertRow(e, metadata);
            if o.count == 0 then o.db == db else own.eventId in o.db.rows && o.db.rows[own.eventId] == own
  {
  }

  lemma ApplyKeepsBuried(db: Db, ss: seq<Statement>, s: Statement, slot: Slot, buried: Row)
    requires Consistent(db) && StillBuried(db, ss, slot, buried) && buried.deleted
    ensures StillBuried(Apply(db, s), ss + [s], slot, buried)
  {
    match s
    case CreateStatement(e) => CreateKeepsBuried(db, ss, slot, buried, e);
    case UpsertStatement(e, metadata) => UpsertKeepsBuried(db, ss, slot, buried, e, metadata);
    case DeleteStatement(pubkey, ids) => DeleteKeepsBuried(db, ss, slot, buried, pubkey, ids);
  }

  /** What a run starting at db has left in the slot. */
  ghost predicate RunKeepsBuried(db: Db, ss: seq<Statement>, slot: Slot, buried: Row) {
    StillBuried(Run(db, ss), ss, slot, buried)
  }

  lemma NextKeepsBuried(db: Db, ss: seq<Statement>, slot: Slot, buried: Row)
    requires ss != [] && Consistent(db) && buried.deleted && RunKeepsBuried(db, ss[..|ss| - 1], slot, buried)
    ensures RunKeepsBuried(db, ss, slot, buried)
  {
    var front, s := ss[..|ss| - 1], ss[|ss| - 1];
    assert ss == front + [s];
    RunKeepsConsistent(db, front);
    var before := Run(db, front);
    assert Run(db, ss) == Apply(before, s);
    ApplyKeepsBuried(before, front, s, slot, buried);
  }

  /** A deleted slot becomes visible only through a strictly newer upsert of that slot: until one is
      accepted, the very same deleted row stays. */
  lemma {:induction false} SlotTombstonePersists(db: Db, ss: seq<Statement>, slot: Slot, buried: Row)
    requires Consistent(db) && Occupied(db.rows, slot)
    requires db.rows[SlotRow(db.rows, slot)] == buried && buried.deleted
    ensures RunKeepsBuried(db, ss, slot, buried)
  {
    if ss != [] {
      SlotTombstonePersists(db, ss[..|ss| - 1], slot, buried);
      NextKeepsBuried(db, ss, slot, buried);
    }
  }

  /** Some "e" tag names the id, whatever else the tag holds. */
  predicate Names(tags: seq<Tag>, id: Bytes) {
    exists t :: t in tags && |t| >= 2 && t[0] == "e" && IsHexOf(t[1], 64) && ToBuffer(t[1]) == id
  }

  lemma NamedIds(tags: seq<Tag>, id: Bytes)
    ensures id in Buffers(IdsToDelete(tags)) <==> Names(tags, id)
  {
    var ids := IdsToDelete(tags);
    if t :| t in tags && |t| >= 2 && t[0] == "e" && IsHexOf(t[1], 64) && ToBuffer(t[1]) == id {
      IdsToDeleteExact(tags, t[1]);
      var k :| 0 <= k < |ids| && ids[k] == t[1];
      assert Buffers(ids)[k] == id;
    }
    if id in Buffers(ids) {
      var k :| 0 <= k < |ids| && Buffers(ids)[k] == id;
      IdsToDeleteExact(tags, ids[k]);
      var t :| t in tags && |t| >= 2 && t[0] == "e" && t[1] == ids[k];
      assert IsHexOf(t[1], 64) && ToBuffer(t[1]) == id;
    }
  }

  lemma CreateKeepsRow(db: Db, e: Event, id: Bytes)
    requires id in db.rows
    ensures id in Create(db, e).db.rows && Create(db, e).db.rows[id] == db.rows[id]
  {
  }

  /** What handling a delete event does to the rows that were there: it marks those of its author that
      its "e" tags name, and changes nothing else. */
  lemma DeleteEventExact(db: Db, e: Event, id: Bytes)
    requires Consistent(db) && id in db.rows
    ensures var deleted := Apply(db, DeleteStatement(e.pubkey, IdsToDelete(e.tags)));
            var next := Apply(deleted, CreateStatement(e));
            && id in next.rows
            && next.rows[id] == db.rows[id].(deleted := db.rows[id].deleted
                                             || (db.rows[id].eventPubkey == ToBuffer(e.pubkey)
                                                 && Names(e.tags, id)))
  {
    DeleteRowsExact(db, ToBuffer(e.pubkey), Buffers(IdsToDelete(e.tags)));
    NamedIds(e.tags, id);
    CreateKeepsRow(DeleteByPubkeyAndIds(db, e.pubkey, IdsToDelete(e.tags)).db, e, id);
  }

  /** A row of the author is deleted by an "e" tag with its id and any further elements. */
  lemma TagDeletesRow(db: Db, e: Event, named: string, more: seq<string>)
    requires Consistent(db) && IsHexOf(named, 64) && ["e", named] + more in e.tags
    requires ToBuffer(named) in db.rows && db.rows[ToBuffer(named)].eventPubkey == ToBuffer(e.pubkey)
    ensures var next := Apply(Apply(db, DeleteStatement(e.pubkey, IdsToDelete(e.tags))), CreateStatement(e));
            ToBuffer(named) in next.rows && next.rows[ToBuffer(named)].deleted
  {
    var t: Tag := ["e", named] + more;
    assert |t| >= 2 && t[0] == "e" && t[1] == named;
    DeleteEventExact(db, e, ToBuffer(named));
  }
}
