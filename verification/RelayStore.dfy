/** What every run of the cluster keeps of its events table. */
module RelayStore {
  import opened EventRepository
  import opened Events
  import EventStrategies
  import opened Hex
  import opened Relay
  import opened Subscriptions
  import opened TagIndex
  import opened Wrappers

  /** The row is the event's, deleted or not. */
  predicate Holds(row: Row, e: Event) {
    row == RowOf(e, row.eventDeduplication).(deleted := row.deleted)
  }

  predicate Stored(db: Db, e: Event) {
    ToBuffer(e.id) in db.rows && Holds(db.rows[ToBuffer(e.id)], e)
  }

  /** The table will not take the event again. */
  ghost predicate Settled(rows: Rows, e: Event) {
    if Indexed(e.kind) then
      && Occupied(rows, EventStrategies.SlotOf(e))
      && rows[SlotRow(rows, EventStrategies.SlotOf(e))].eventCreatedAt >= e.createdAt
    else
      ToBuffer(e.id) in rows && !Indexed(rows[ToBuffer(e.id)].eventKind)
  }

  ghost predicate HeldBySome(row: Row, accepted: set<Event>) {
    exists e :: e in accepted && Holds(row, e)
  }

  predicate IdsDetermine(events: set<Event>) {
    forall a, b :: a in events && b in events && a.id == b.id ==> a == b
  }

  /** The table against the events it ever took. */
  ghost predicate Sound(db: Db, accepted: set<Event>) {
    && Consistent(db)
    && (forall e :: e in accepted ==> ValidEvent(e) && Settled(db.rows, e))
    && IdsDetermine(accepted)
    && (forall id :: id in db.rows ==> HeldBySome(db.rows[id], accepted))
  }

  /** Where the event is new, its row is as submitted, and every other row was there before. */
  ghost predicate Takes(was: Rows, now: Rows, e: Event) {
    var id := ToBuffer(e.id);
    && id in now && Holds(now[id], e) && !now[id].deleted
    && (Indexed(e.kind) ==> InSlot(now[id], EventStrategies.SlotOf(e)))
    && forall x :: x in now && x != id ==> x in was && now[x] == was[x]
  }

  lemma WriteTakes(db: Db, was: Option<Row>, e: Event, deduplication: Option<Deduplication>)
    requires Indexed(e.kind) ==> deduplication == Some(KeyOf(e, EventStrategies.MetadataOf(e)))
    ensures Takes(db.rows, Write(db, was, RowOf(e, deduplication)).rows, e)
  {
  }

  lemma UpsertTakes(db: Db, e: Event)
    requires Consistent(db) && Indexed(e.kind) && Upsert(db, e, EventStrategies.MetadataOf(e)).Ok?
    ensures var o := Upsert(db, e, EventStrategies.MetadataOf(e)).value;
            o.count <= 1 && (o.count == 0 ==> o.db == db) && (o.count == 1 ==> Takes(db.rows, o.db.rows, e))
  {
    var metadata := EventStrategies.MetadataOf(e);
    var slot := UpsertSlot(e, metadata);
    if Occupied(db.rows, slot) {
      WriteTakes(db, Some(db.rows[SlotRow(db.rows, slot)]), e, Some(KeyOf(e, metadata)));
    } else {
      WriteTakes(db, None, e, Some(KeyOf(e, metadata)));
    }
  }

  lemma CommitTakes(db: Db, e: Event)
    requires Consistent(db) && !IsEphemeral(e.kind)
    ensures var o := Commit(db, e);
            o.count <= 1 && (o.count == 0 ==> o.db == db) && (o.count == 1 ==> Takes(db.rows, o.db.rows, e))
  {
    EventStrategies.DispatchAgreesWithIndex(e.kind);
    if Indexed(e.kind) {
      if Upsert(db, e, EventStrategies.MetadataOf(e)).Ok? {
        UpsertTakes(db, e);
      }
    } else {
      WriteTakes(db, None, e, None);
    }
  }

  lemma CommitKeepsConsistent(db: Db, e: Event)
    requires Consistent(db)
    ensures Consistent(Commit(db, e).db)
  {
    if Upsert(db, e, EventStrategies.MetadataOf(e)).Ok? {
      UpsertKeepsConsistent(db, e, EventStrategies.MetadataOf(e));
    }
    CreateKeepsConsistent(db, e);
  }

  /** A row that a commit removes was the older row of the event's own slot. */
  lemma CommitRemoves(db: Db, e: Event, x: Bytes)
    requires Consistent(db) && !IsEphemeral(e.kind) && x in db.rows
    ensures (x in Commit(db, e).db.rows && Commit(db, e).db.rows[x] == db.rows[x])
            || Outdated(db.rows[x], e, EventStrategies.MetadataOf(e))
  {
    EventStrategies.DispatchAgreesWithIndex(e.kind);
    if Indexed(e.kind) && Upsert(db, e, EventStrategies.MetadataOf(e)).Ok? {
      UpsertRemoves(db, e, EventStrategies.MetadataOf(e), x);
    }
  }

  lemma SettledNext(was: Rows, now: Rows, e: Event, a: Event)
    requires UniqueSlots(now) && Settled(was, a) && Takes(was, now, e)
    requires forall x :: x in was && !(x in now && now[x] == was[x]) ==>
               Outdated(was[x], e, EventStrategies.MetadataOf(e))
    ensures Settled(now, a)
  {
    var slot := EventStrategies.SlotOf(a);
    if Indexed(a.kind) {
      var x := SlotRow(was, slot);
      if x in now && now[x] == was[x] {
        SlotRowIs(now, slot, x);
      } else {
        assert EventStrategies.SlotOf(e) == slot;
        SlotRowIs(now, slot, ToBuffer(e.id));
      }
    }
  }

  lemma CommitKeepsSettled(db: Db, e: Event, a: Event)
    requires Consistent(db) && !IsEphemeral(e.kind) && Commit(db, e).count == 1
    requires Settled(db.rows, a)
    ensures Settled(Commit(db, e).db.rows, a)
  {
    var now := Commit(db, e).db.rows;
    CommitTakes(db, e);
    CommitKeepsConsistent(db, e);
    forall x | x in db.rows && !(x in now && now[x] == db.rows[x])
      ensures Outdated(db.rows[x], e, EventStrategies.MetadataOf(e))
    {
      CommitRemoves(db, e, x);
    }
    SettledNext(db.rows, now, e, a);
  }

  lemma TakenIsSettled(was: Rows, now: Rows, e: Event)
    requires UniqueSlots(now) && Takes(was, now, e)
    ensures Settled(now, e)
  {
    if Indexed(e.kind) {
      SlotRowIs(now, EventStrategies.SlotOf(e), ToBuffer(e.id));
    }
  }

  /** Nothing of the event is written: a duplicate id, a stale event, or an id taken outside the slot. */
  predicate Refused(rows: Rows, e: Event) {
    if Indexed(e.kind) then
      Stale(rows, e, EventStrategies.MetadataOf(e)) || Taken(rows, e, EventStrategies.MetadataOf(e))
    else ToBuffer(e.id) in rows
  }

  /** The cluster begins an event's broadcast exactly where the event's strategy emits one. */
  lemma BroadcastBegins(st: State, c: ConnectionId, e: Event)
    requires Consistent(st.db) && !IsEphemeral(e.kind)
    ensures Store(st, c, e).flight == st.flight + if Refused(st.db.rows, e) then [] else [Unannounced(c, e)]
    ensures Store(st, c, e).accepted == st.accepted + if Refused(st.db.rows, e) then {} else {e}
  {
    EventStrategies.DispatchAgreesWithIndex(e.kind);
    if Indexed(e.kind) {
      UpsertExactly(st.db, e, EventStrategies.MetadataOf(e));
    }
    assert st.flight + [] == st.flight && st.accepted + {} == st.accepted;
  }

  /** An event that was ever accepted is not accepted again. */
  lemma AcceptedOnce(db: Db, e: Event)
    requires Consistent(db) && !IsEphemeral(e.kind) && Settled(db.rows, e)
    ensures Commit(db, e).count == 0
  {
    EventStrategies.DispatchAgreesWithIndex(e.kind);
  }

  lemma TakesKeepsHeld(was: Rows, now: Rows, accepted: set<Event>, e: Event)
    requires Takes(was, now, e)
    requires forall id :: id in was ==> HeldBySome(was[id], accepted)
    ensures forall id :: id in now ==> HeldBySome(now[id], accepted + {e})
  {
    forall id | id in now ensures HeldBySome(now[id], accepted + {e}) {
      if id != ToBuffer(e.id) {
        var a :| a in accepted && Holds(was[id], a);
        assert a in accepted + {e};
      } else {
        assert e in accepted + {e};
      }
    }
  }

  lemma CommitIsNew(db: Db, accepted: set<Event>, e: Event)
    requires Sound(db, accepted) && !IsEphemeral(e.kind)
    ensures Commit(db, e).count != 0 ==> e !in accepted
  {
    if e in accepted {
      AcceptedOnce(db, e);
    }
  }

  /** A commit's outcome: nothing, or an event taken for the first time. */
  ghost predicate Lawful(db: Db, accepted: set<Event>, e: Event, o: Outcome) {
    && o.count <= 1
    && (o.count == 0 ==> o.db == db)
    && (o.count == 1 ==> e !in accepted && Takes(db.rows, o.db.rows, e) && Sound(o.db, accepted + {e}))
  }

  lemma TakenIsSound(db: Db, now: Db, accepted: set<Event>, e: Event)
    requires Sound(db, accepted) && Consistent(now) && Takes(db.rows, now.rows, e)
    requires ValidEvent(e) && IdsDetermine(accepted + {e})
    requires forall a :: a in accepted ==> Settled(now.rows, a)
    ensures Sound(now, accepted + {e})
  {
    TakenIsSettled(db.rows, now.rows, e);
    TakesKeepsHeld(db.rows, now.rows, accepted, e);
  }

  lemma CommitKeepsSound(db: Db, accepted: set<Event>, e: Event)
    requires Sound(db, accepted) && ValidEvent(e) && !IsEphemeral(e.kind) && IdsDetermine(accepted + {e})
    ensures Lawful(db, accepted, e, Commit(db, e))
  {
    var o := Commit(db, e);
    CommitTakes(db, e);
    CommitKeepsConsistent(db, e);
    CommitIsNew(db, accepted, e);
    if o.count == 1 {
      forall a | a in accepted ensures Settled(o.db.rows, a) {
        CommitKeepsSettled(db, e, a);
      }
      TakenIsSound(db, o.db, accepted, e);
    }
  }

  lemma DeleteKeepsSettled(was: Rows, now: Rows, e: Event)
    requires UniqueSlots(now) && OnlyMarks(was, now) && Settled(was, e)
    ensures Settled(now, e)
  {
    if Indexed(e.kind) {
      var x := SlotRow(was, EventStrategies.SlotOf(e));
      assert now[x].(deleted := false) == was[x].(deleted := false);
      SlotRowIs(now, EventStrategies.SlotOf(e), x);
    } else {
      assert now[ToBuffer(e.id)].(deleted := false) == was[ToBuffer(e.id)].(deleted := false);
    }
  }

  /** The rows keep everything but, possibly, their deletion mark. */
  predicate OnlyMarks(was: Rows, now: Rows) {
    && was.Keys == now.Keys
    && forall id :: id in was ==>
         now[id].(deleted := false) == was[id].(deleted := false) && (was[id].deleted ==> now[id].deleted)
  }

  lemma MarksKeepHeld(was: Rows, now: Rows, accepted: set<Event>)
    requires OnlyMarks(was, now) && forall id :: id in was ==> HeldBySome(was[id], accepted)
    ensures forall id :: id in now ==> HeldBySome(now[id], accepted)
  {
    forall id | id in now ensures HeldBySome(now[id], accepted) {
      var a :| a in accepted && Holds(was[id], a);
      assert now[id].(deleted := false) == was[id].(deleted := false);
      assert Holds(now[id], a);
    }
  }

  lemma DeleteKeepsSound(db: Db, accepted: set<Event>, pubkey: string, ids: seq<string>)
    requires Sound(db, accepted)
    ensures var d := DeleteByPubkeyAndIds(db, pubkey, ids).db;
            Sound(d, accepted) && OnlyMarks(db.rows, d.rows)
  {
    var d := DeleteByPubkeyAndIds(db, pubkey, ids).db;
    DeleteRowsExact(db, ToBuffer(pubkey), Buffers(ids));
    MarksKeepHeld(db.rows, d.rows, accepted);
    forall e | e in accepted ensures Settled(d.rows, e) {
      DeleteKeepsSettled(db.rows, d.rows, e);
    }
  }

  // ---- ids that were seen deleted -------------------------------------------------------

  /** An accepted event has the id, and its row, if it is still there, is deleted. */
  ghost predicate Buried(rows: Rows, accepted: set<Event>, id: Bytes) {
    && (exists a :: a in accepted && ToBuffer(a.id) == id)
    && (id in rows ==> rows[id].deleted)
  }

  lemma TakesKeepsBuried(was: Rows, now: Rows, accepted: set<Event>, e: Event, id: Bytes)
    requires Takes(was, now, e) && Buried(was, accepted, id)
    requires e !in accepted && IdsDetermine(accepted + {e}) && ValidEvent(e)
    requires forall a :: a in accepted ==> ValidEvent(a)
    ensures Buried(now, accepted + {e}, id)
  {
    var a :| a in accepted && ToBuffer(a.id) == id;
    assert a in accepted + {e};
    if ToBuffer(e.id) == id {
      ToBufferInjective(a.id, e.id);
    }
  }

  // ---- every run ------------------------------------------------------------------------

  ghost predicate StoreInvariant(st: State) {
    && Sound(st.db, st.accepted)
    && st.accepted <= st.submitted
    && (forall e :: e in st.submitted ==> ValidEvent(e) && !IsEphemeral(e.kind))
    && IdsDetermine(st.submitted)
    && (forall t :: t in st.flight && t.Unstored? ==> t.event in st.submitted)
    && (forall r, id :: r in st.buried && id in st.buried[r] ==> Buried(st.db.rows, st.accepted, id))
  }

  lemma SubmittableDetermines(st: State, e: Event)
    requires StoreInvariant(st) && Submittable(st, e)
    ensures IdsDetermine(st.accepted + {e})
  {
  }

  lemma CommittedKeeps(st: State, c: ConnectionId, e: Event, o: Outcome)
    requires StoreInvariant(st) && Submittable(st, e) && Lawful(st.db, st.accepted, e, o)
    ensures StoreInvariant(Committed(st, c, e, o))
  {
    if o.count != 0 {
      forall r, id | r in st.buried && id in st.buried[r] ensures Buried(o.db.rows, st.accepted + {e}, id) {
        TakesKeepsBuried(st.db.rows, o.db.rows, st.accepted, e, id);
      }
    }
  }

  lemma StoreKeeps(st: State, c: ConnectionId, e: Event)
    requires StoreInvariant(st) && Submittable(st, e)
    ensures StoreInvariant(Store(st, c, e))
  {
    SubmittableDetermines(st, e);
    CommitKeepsSound(st.db, st.accepted, e);
    CommittedKeeps(st, c, e, Commit(st.db, e));
  }

  lemma DeleteTargetsKeeps(st: State, c: ConnectionId, e: Event)
    requires StoreInvariant(st) && Enabled(st, DeleteTargets(c, e))
    ensures StoreInvariant(NextDeleteTargets(st, c, e))
  {
    var d := NextDeleteTargets(st, c, e);
    DeleteKeepsSound(st.db, st.accepted, e.pubkey, EventStrategies.IdsToDelete(e.tags));
    forall r, id | r in st.buried && id in st.buried[r] ensures Buried(d.db.rows, st.accepted, id) {
      assert Buried(st.db.rows, st.accepted, id);
    }
  }

  lemma SnapshotKeeps(st: State, k: nat)
    requires StoreInvariant(st) && Enabled(st, Snapshot(k))
    ensures StoreInvariant(NextSnapshot(st, k))
  {
    FoundKeeps(st, k, Results(st.db, st.fetches[k].filters));
  }

  lemma FoundKeeps(st: State, k: nat, results: multiset<Event>)
    requires StoreInvariant(st) && k < |st.fetches|
    ensures StoreInvariant(Found(st, k, results))
  {
    forall id | id in DeletedIds(st.db.rows) ensures Buried(st.db.rows, st.accepted, id) {
      var a :| a in st.accepted && Holds(st.db.rows[id], a);
      assert ToBuffer(a.id) == id;
    }
  }

  lemma {:induction false} FanoutTokens(workers: seq<WorkerId>, from: WorkerId, e: Event)
    ensures forall t :: t in Fanout(workers, from, e) ==> t.ToWorker? && t.event == e
  {
    if workers != [] { FanoutTokens(workers[1..], from, e); }
  }

  lemma RemoveUnstoredKeeps(st: State, k: nat)
    requires StoreInvariant(st) && Enabled(st, StoreDelete(k))
    ensures var mid := st.(flight := Remove(st.flight, k));
            StoreInvariant(mid) && Submittable(mid, st.flight[k].event)
  {
    assert st.flight[k] in st.flight;
  }

  lemma StoreDeleteKeepsStore(st: State, k: nat)
    requires StoreInvariant(st) && Enabled(st, StoreDelete(k))
    ensures StoreInvariant(NextStoreDelete(st, k))
  {
    RemoveUnstoredKeeps(st, k);
    StoreKeeps(st.(flight := Remove(st.flight, k)), st.flight[k].connection, st.flight[k].event);
  }

  /** Steps that change neither the table nor what is known of it, and begin no delete event. */
  lemma SameStore(st: State, next: State)
    requires StoreInvariant(st)
    requires next.db == st.db && next.submitted == st.submitted && next.accepted == st.accepted
    requires next.buried == st.buried
    requires forall t :: t in next.flight && t.Unstored? ==> t in st.flight
    ensures StoreInvariant(next)
  {
  }

  lemma AskKeepsStore(st: State, c: ConnectionId, r: Request, limits: Option<Limits>)
    requires StoreInvariant(st) && c in st.connections
    ensures StoreInvariant(NextAsk(st, c, r, limits))
  {
    SameStore(st, NextAsk(st, c, r, limits));
  }

  lemma AnnouncedFlight(flight: seq<Token>, k: nat, on: Token)
    requires k < |flight| && !on.Unstored?
    ensures forall t :: t in Remove(flight, k) + [on] && t.Unstored? ==> t in flight
    ensures forall t :: t in Remove(flight, k) && t.Unstored? ==> t in flight
  {
  }

  lemma AnnounceKeepsStore(st: State, k: nat)
    requires StoreInvariant(st) && Enabled(st, Announce(k))
    ensures StoreInvariant(NextAnnounce(st, k))
  {
    var t, next := st.flight[k], NextAnnounce(st, k);
    var on := ToPrimary(st.connections[t.connection].worker, t.event);
    AnnouncedFlight(st.flight, k, on);
    assert next.flight == Remove(st.flight, k) + [on] || next.flight == Remove(st.flight, k);
    SameStore(st, next);
  }

  lemma ForwardKeepsStore(st: State, k: nat)
    requires StoreInvariant(st) && Enabled(st, Forward(k))
    ensures StoreInvariant(NextForward(st, k))
  {
    FanoutTokens(st.workers, st.flight[k].from, st.flight[k].event);
    SameStore(st, NextForward(st, k));
  }

  lemma NextKeepsStore(st: State, s: Step)
    requires StoreInvariant(st) && Enabled(st, s)
    ensures StoreInvariant(Next(st, s))
  {
    match s
    case Connect(c, w) => SameStore(st, NextConnect(st, c, w));
    case Ask(c, r, limits) => AskKeepsStore(st, c, r, limits);
    case Publish(c, e) => StoreKeeps(st, c, e);
    case DeleteTargets(c, e) => DeleteTargetsKeeps(st, c, e);
    case StoreDelete(k) => StoreDeleteKeepsStore(st, k);
    case Announce(k) => AnnounceKeepsStore(st, k);
    case Forward(k) => ForwardKeepsStore(st, k);
    case Deliver(k) => SameStore(st, NextDeliver(st, k));
    case Snapshot(k) => SnapshotKeeps(st, k);
    case Stream(k, e) => SameStore(st, NextStream(st, k, e));
    case Finish(k) => SameStore(st, NextFinish(st, k));
  }

  lemma {:induction false} ExecKeepsStore(workers: seq<WorkerId>, steps: seq<Step>)
    ensures Exec(Initial(workers), steps).Some? ==> StoreInvariant(Exec(Initial(workers), steps).value)
  {
    if steps == [] {
      EventStrategies.EmptyIsConsistent();
    } else if Exec(Initial(workers), steps).Some? {
      ExecKeepsStore(workers, steps[..|steps| - 1]);
      NextKeepsStore(Exec(Initial(workers), steps[..|steps| - 1]).value, steps[|steps| - 1]);
    }
  }

  lemma ReachableStore(st: State)
    requires Reachable(st)
    ensures StoreInvariant(st)
  {
    var workers, steps :| DistinctWorkers(workers) && Exec(Initial(workers), steps) == Some(st);
    ExecKeepsStore(workers, steps);
  }
}
