/** The table of the cluster is the table of a run of client statements, in every interleaving. */
module ClusterStorage {
  import opened EventRepository
  import opened Events
  import opened EventStrategies
  import opened Hex
  import opened Relay
  import opened RelayStore
  import opened ReplaceableSlots
  import Tombstones
  import opened Wrappers

  /** The statement that stores an event. */
  function StatementOf(e: Event): Statement {
    if StrategyFor(e.kind) in {Replaceable, ParameterizedReplaceable} then UpsertStatement(e, MetadataOf(e))
    else CreateStatement(e)
  }

  lemma CommitIsStatement(db: Db, e: Event)
    ensures Commit(db, e).db == Apply(db, StatementOf(e))
  {
  }

  lemma RunOne(db: Db, s: Statement)
    ensures Run(db, [s]) == Apply(db, s)
  {
    assert [s][..0] == [];
    assert Run(db, [s][..0]) == db;
  }

  lemma {:induction false} RunConcat(db: Db, a: seq<Statement>, b: seq<Statement>)
    ensures Run(db, a + b) == Run(Run(db, a), b)
  {
    if b == [] {
      assert a + b == a;
    } else {
      assert (a + b)[..|a + b| - 1] == a + b[..|b| - 1];
      RunConcat(db, a, b[..|b| - 1]);
    }
  }

  /** The statements are the clients' own, and take the one state's table to the other's. */
  ghost predicate Explains(st: State, next: State, ss: seq<Statement>) {
    && ClientRun(ss) && next.db == Run(st.db, ss)
    && st.submitted <= next.submitted && st.accepted <= next.accepted
    && (forall e :: Submitted(ss, e) ==> e in next.submitted)
    && (forall e :: e in next.accepted && e !in st.accepted ==> StatementOf(e) in ss)
  }

  lemma NothingExplains(st: State, next: State)
    requires next.db == st.db && next.submitted == st.submitted && next.accepted == st.accepted
    ensures Explains(st, next, [])
  {
  }

  lemma StoreExplained(st: State, next: State, c: ConnectionId, e: Event, o: Outcome)
    requires ValidEvent(e) && !IsEphemeral(e.kind) && o.db == Apply(st.db, StatementOf(e))
    requires next.db == o.db && next.submitted == st.submitted + {e}
    requires next.accepted == if o.count == 0 then st.accepted else st.accepted + {e}
    ensures Explains(st, next, [StatementOf(e)])
  {
    RunOne(st.db, StatementOf(e));
  }

  lemma DeleteExplained(st: State, c: ConnectionId, e: Event)
    requires ValidEvent(e)
    ensures Explains(st, NextDeleteTargets(st, c, e), [DeleteStatement(e.pubkey, IdsToDelete(e.tags))])
  {
    var s := DeleteStatement(e.pubkey, IdsToDelete(e.tags));
    RunOne(st.db, s);
    forall id | id in IdsToDelete(e.tags) ensures IsHexOf(id, 64) {
      IdsToDeleteExact(e.tags, id);
    }
  }

  lemma CommitExplained(st: State, c: ConnectionId, e: Event, o: Outcome)
    requires ValidEvent(e) && !IsEphemeral(e.kind) && o.db == Apply(st.db, StatementOf(e))
    ensures Explains(st, Committed(st, c, e, o), [StatementOf(e)])
  {
    StoreExplained(st, Committed(st, c, e, o), c, e, o);
  }

  lemma StepExplained(st: State, s: Step) returns (ss: seq<Statement>)
    requires StoreInvariant(st) && Enabled(st, s)
    ensures Explains(st, Next(st, s), ss)
  {
    ss := [];
    match s {
      case Publish(c, e) =>
        CommitIsStatement(st.db, e);
        CommitExplained(st, c, e, Commit(st.db, e));
        ss := [StatementOf(e)];
      case DeleteTargets(c, e) =>
        DeleteExplained(st, c, e);
        ss := [DeleteStatement(e.pubkey, IdsToDelete(e.tags))];
      case StoreDelete(k) =>
        var t, mid := st.flight[k], st.(flight := Remove(st.flight, k));
        assert t in st.flight;
        CommitIsStatement(st.db, t.event);
        CommitExplained(mid, t.connection, t.event, Commit(st.db, t.event));
        ss := [StatementOf(t.event)];
      case _ =>
        NothingExplains(st, Next(st, s));
    }
  }

  lemma ExplainedOn(st: State, mid: State, next: State, ss: seq<Statement>, more: seq<Statement>)
    requires Explains(st, mid, ss) && Explains(mid, next, more)
    ensures Explains(st, next, ss + more)
  {
    RunConcat(st.db, ss, more);
    forall e | Submitted(ss + more, e) ensures e in next.submitted {
      assert Submitted(ss, e) || Submitted(more, e);
    }
  }

  lemma {:induction false} ExecExplained(st: State, steps: seq<Step>) returns (ss: seq<Statement>)
    requires StoreInvariant(st) && Exec(st, steps).Some?
    ensures StoreInvariant(Exec(st, steps).value)
    ensures Explains(st, Exec(st, steps).value, ss)
  {
    if steps == [] {
      ss := [];
      NothingExplains(st, st);
    } else {
      var mid := Exec(st, steps[..|steps| - 1]).value;
      var before := ExecExplained(st, steps[..|steps| - 1]);
      var more := StepExplained(mid, steps[|steps| - 1]);
      NextKeepsStore(mid, steps[|steps| - 1]);
      ss := before + more;
      ExplainedOn(st, mid, Exec(st, steps).value, before, more);
    }
  }

  /** Every reachable table is what some run of client statements leaves, and that run contains the
      statement of every event that was accepted. */
  lemma ReachableIsClientRun(st: State) returns (ss: seq<Statement>)
    requires Reachable(st)
    ensures ClientRun(ss) && IdsDetermineEvents(ss) && st.db == Run(EmptyDb, ss)
    ensures forall e :: Submitted(ss, e) ==> e in st.submitted
    ensures forall e :: e in st.accepted ==> StatementOf(e) in ss
  {
    var workers, steps :| DistinctWorkers(workers) && Exec(Initial(workers), steps) == Some(st);
    ExecKeepsStore(workers, []);
    assert Exec(Initial(workers), []) == Some(Initial(workers));
    ss := ExecExplained(Initial(workers), steps);
  }

  /** A row that is as one submitted event stores it was accepted from that event. */
  lemma StoredIsAccepted(st: State, e: Event)
    requires StoreInvariant(st) && e in st.submitted && ToBuffer(e.id) in st.db.rows
    ensures e in st.accepted
  {
    var id := ToBuffer(e.id);
    assert HeldBySome(st.db.rows[id], st.accepted);
    var a :| a in st.accepted && Holds(st.db.rows[id], a);
    assert ToBuffer(a.id) == id;
    ToBufferInjective(a.id, e.id);
  }

  /** In every interleaving each slot of an accepted replaceable event has exactly one row: that of an accepted
      event, and no accepted event of the slot is newer. */
  lemma ClusterSlotsConverge(st: State, e: Event) returns (winner: Event)
    requires Reachable(st) && e in st.accepted && Indexed(e.kind)
    ensures winner in st.accepted && SlotOf(winner) == SlotOf(e)
    ensures RowsOfSlot(st.db.rows, SlotOf(e)) == {ToBuffer(winner.id)}
    ensures Unmarked(st.db.rows[ToBuffer(winner.id)]) == StoredRow(winner)
    ensures forall a :: a in st.accepted && Indexed(a.kind) && SlotOf(a) == SlotOf(e) ==>
              a.createdAt <= winner.createdAt
  {
    var ss := ReachableIsClientRun(st);
    AcceptedIsUpsert(ss, st.accepted, e);
    var i := SlotsConverge(ss, e);
    winner := Upserts(ss)[i];
    UpsertsAre(ss, winner);
    ReachableStore(st);
    assert ToBuffer(winner.id) in RowsOfSlot(st.db.rows, SlotOf(e));
    StoredIsAccepted(st, winner);
    forall a | a in st.accepted && Indexed(a.kind) && SlotOf(a) == SlotOf(e) ensures a.createdAt <= winner.createdAt {
      AcceptedIsUpsert(ss, st.accepted, a);
      var j :| 0 <= j < |Upserts(ss)| && Upserts(ss)[j] == a;
    }
  }

  lemma AcceptedIsUpsert(ss: seq<Statement>, accepted: set<Event>, e: Event)
    requires ClientRun(ss) && (forall a :: a in accepted ==> StatementOf(a) in ss)
    requires e in accepted && Indexed(e.kind)
    ensures e in Upserts(ss)
  {
    DispatchAgreesWithIndex(e.kind);
    UpsertsAre(ss, e);
  }

  /** A deleted row of a regular event stays as it is, whatever the cluster does next. */
  lemma ClusterTombstonePersists(st: State, steps: seq<Step>, id: Bytes)
    requires Reachable(st) && Exec(st, steps).Some?
    requires id in st.db.rows && st.db.rows[id].deleted && Tombstones.OutsideSlots(st.db.rows[id])
    ensures var last := Exec(st, steps).value;
            id in last.db.rows && last.db.rows[id] == st.db.rows[id]
  {
    ReachableStore(st);
    var ss := ExecExplained(st, steps);
    Tombstones.RegularTombstonePersists(st.db, ss, id);
  }

  lemma DeletedIsHidden(db: Db, filters: seq<Filter>, e: Event)
    requires ToBuffer(e.id) in db.rows && db.rows[ToBuffer(e.id)].deleted
    ensures e !in Results(db, filters)
  {
    assert Streamed(db, filters, e) == 0;
  }

  /** A regular event that was deleted stays out of every later query, and no later submission of it is stored
      or begins a broadcast. */
  lemma DeletedStaysHidden(st: State, steps: seq<Step>, e: Event, filters: seq<Filter>)
    requires Reachable(st) && Exec(st, steps).Some? && e in st.accepted && !Indexed(e.kind)
    requires ToBuffer(e.id) in st.db.rows && st.db.rows[ToBuffer(e.id)].deleted
    ensures var last := Exec(st, steps).value;
            && e !in Results(last.db, filters)
            && Commit(last.db, e) == Outcome(last.db, 0)
  {
    ReachableStore(st);
    var ss := ExecExplained(st, steps);
    var last := Exec(st, steps).value;
    SettledRow(st, e);
    ClusterTombstonePersists(st, steps, ToBuffer(e.id));
    DeletedIsHidden(last.db, filters, e);
    assert e in last.accepted;
    CommitTakes(last.db, e);
    AcceptedOnce(last.db, e);
  }

  lemma SettledRow(st: State, e: Event)
    requires StoreInvariant(st) && e in st.accepted && !Indexed(e.kind)
    ensures ToBuffer(e.id) in st.db.rows && Tombstones.OutsideSlots(st.db.rows[ToBuffer(e.id)])
  {
    assert Settled(st.db.rows, e);
  }

  /** The row is an event's that the clients submitted for the slot, newer than the given time. */
  ghost predicate HoldsNewer(st: State, row: Row, slot: Slot, at: nat) {
    exists e :: e in st.submitted && SlotOf(e) == slot && e.createdAt > at && Unmarked(row) == StoredRow(e)
  }

  lemma WrittenIsNewer(st: State, ss: seq<Statement>, slot: Slot, row: Row, at: nat)
    requires ClientRun(ss) && (forall e :: Submitted(ss, e) ==> e in st.submitted)
    requires Tombstones.WrittenBy(ss, slot, row, at)
    ensures HoldsNewer(st, row, slot, at)
  {
    var e, metadata :| UpsertStatement(e, metadata) in ss && UpsertSlot(e, metadata) == slot
                       && e.createdAt > at && row.(deleted := false) == UpsertRow(e, metadata);
    assert ClientStatement(UpsertStatement(e, metadata));
    assert Submitted(ss, e);
  }

  /** A deleted slot keeps its row, whatever the cluster does next, until a submitted event of the slot that is
      strictly newer replaces it. */
  lemma ClusterSlotTombstonePersists(st: State, steps: seq<Step>, slot: Slot)
    requires Reachable(st) && Exec(st, steps).Some?
    requires Occupied(st.db.rows, slot) && st.db.rows[SlotRow(st.db.rows, slot)].deleted
    ensures var last, buried := Exec(st, steps).value, st.db.rows[SlotRow(st.db.rows, slot)];
            && Occupied(last.db.rows, slot)
            && var row := last.db.rows[SlotRow(last.db.rows, slot)];
               || row == buried
               || exists e :: e in last.submitted && SlotOf(e) == slot && e.createdAt > buried.eventCreatedAt
                              && Unmarked(row) == StoredRow(e)
  {
    ReachableStore(st);
    var last, buried := Exec(st, steps).value, st.db.rows[SlotRow(st.db.rows, slot)];
    var ss := ExecExplained(st, steps);
    Tombstones.SlotTombstonePersists(st.db, ss, slot, buried);
    StillBuriedIn(last, ss, slot, buried);
  }

  lemma StillBuriedIn(last: State, ss: seq<Statement>, slot: Slot, buried: Row)
    requires ClientRun(ss) && (forall e :: Submitted(ss, e) ==> e in last.submitted)
    requires Tombstones.StillBuried(last.db, ss, slot, buried)
    ensures Occupied(last.db.rows, slot)
    ensures var row := last.db.rows[SlotRow(last.db.rows, slot)];
            row == buried || HoldsNewer(last, row, slot, buried.eventCreatedAt)
  {
    var row := last.db.rows[SlotRow(last.db.rows, slot)];
    if row != buried {
      WrittenIsNewer(last, ss, slot, row, buried.eventCreatedAt);
    }
  }
}
