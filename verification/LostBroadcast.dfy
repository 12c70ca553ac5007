/** The one way a stored event can be missed: its publisher leaves between the insert and the broadcast. */
module LostBroadcast {
  import opened EventRepository
  import opened Events
  import EventStrategies
  import opened Hex
  import opened NoGap
  import opened Relay
  import opened RelayStore
  import SoundDelivery
  import opened Subscriptions
  import opened TagIndex
  import opened Wrappers

  // ---- the publisher leaves -------------------------------------------------------------

  /** The table in which the event is stored: a delete event has deleted its targets first. */
  function Ready(db: Db, e: Event): Db {
    if IsDelete(e.kind) then DeleteByPubkeyAndIds(db, e.pubkey, EventStrategies.IdsToDelete(e.tags)).db else db
  }

  function StoringSteps(p: ConnectionId, e: Event): seq<Step> {
    if IsDelete(e.kind) then [DeleteTargets(p, e), StoreDelete(0)] else [Publish(p, e)]
  }

  /** The publisher stores the event, disconnects, and only then its handler goes on. */
  function Leaves(p: ConnectionId, e: Event): seq<Step> {
    StoringSteps(p, e) + [Ask(p, Disconnect, None)] + [Announce(0)]
  }

  /** The state once the event was stored with that outcome. */
  function AfterStoring(st: State, p: ConnectionId, e: Event, o: Outcome): State {
    var ready := if IsDelete(e.kind) then NextDeleteTargets(st, p, e) else st;
    Committed(ready.(flight := []), p, e, o)
  }

  lemma StoringRun(st: State, p: ConnectionId, e: Event)
    requires st.flight == [] && p in st.connections && Submittable(st, e)
    ensures Exec(st, StoringSteps(p, e)) == Some(AfterStoring(st, p, e, Commit(Ready(st.db, e), e)))
  {
    if IsDelete(e.kind) {
      var mid := NextDeleteTargets(st, p, e);
      ExecOne(st, DeleteTargets(p, e));
      assert mid.flight == [Unstored(p, e)] && Remove(mid.flight, 0) == [];
      ExecStep(st, [DeleteTargets(p, e)], StoreDelete(0));
      assert [DeleteTargets(p, e)] + [StoreDelete(0)] == StoringSteps(p, e);
    } else {
      ExecOne(st, Publish(p, e));
      assert st.(flight := []) == st;
    }
  }

  lemma Gone(stored: State, p: ConnectionId)
    requires p in stored.connections && stored.connections[p].client.open
    ensures NextAsk(stored, p, Disconnect, None)
            == stored.(connections := stored.connections[p := stored.connections[p].(client := Client(false, []))])
  {
  }

  lemma StoredBy(st: State, p: ConnectionId, e: Event, o: Outcome)
    requires o.count != 0
    ensures var stored := AfterStoring(st, p, e, o);
            && stored.flight == [Unannounced(p, e)] && stored.fetches == st.fetches && stored.lost == st.lost
            && stored.connections == st.connections && stored.accepted == st.accepted + {e} && stored.db == o.db
  {
  }

  /** The state in between: stored, the publisher gone, the broadcast still due. */
  lemma StoredAndGone(st: State, p: ConnectionId, e: Event, o: Outcome)
    requires st.flight == [] && p in st.connections && st.connections[p].client.open
    requires o.count != 0
    ensures var gone := NextAsk(AfterStoring(st, p, e, o), p, Disconnect, None);
            && gone.flight == [Unannounced(p, e)] && gone.fetches == st.fetches && gone.lost == st.lost
            && gone.connections == st.connections[p := st.connections[p].(client := Client(false, []))]
            && gone.accepted == st.accepted + {e} && gone.db == o.db
  {
    StoredBy(st, p, e, o);
    Gone(AfterStoring(st, p, e, o), p);
  }

  lemma AnnounceAfterLeaving(gone: State, p: ConnectionId, e: Event)
    requires gone.flight == [Unannounced(p, e)] && p in gone.connections && !gone.connections[p].client.open
    ensures Enabled(gone, Announce(0))
    ensures var last := NextAnnounce(gone, 0);
            && last.flight == [] && last.fetches == gone.fetches && last.connections == gone.connections
            && last.db == gone.db && last.accepted == gone.accepted
  {
  }

  lemma LeavesRun(st: State, p: ConnectionId, e: Event, o: Outcome)
    requires st.flight == [] && p in st.connections && Submittable(st, e) && o == Commit(Ready(st.db, e), e)
    requires p in AfterStoring(st, p, e, o).connections
    requires Enabled(NextAsk(AfterStoring(st, p, e, o), p, Disconnect, None), Announce(0))
    ensures Exec(st, Leaves(p, e)) == Some(NextAnnounce(NextAsk(AfterStoring(st, p, e, o), p, Disconnect, None), 0))
  {
    StoringRun(st, p, e);
    ExecStep(st, StoringSteps(p, e), Ask(p, Disconnect, None));
    ExecStep(st, StoringSteps(p, e) + [Ask(p, Disconnect, None)], Announce(0));
  }

  lemma TakenIsWanted(st: State, last: State, was: Rows, p: ConnectionId, c: ConnectionId, id: SubscriptionId,
                      filters: seq<Filter>, e: Event)
    requires p in st.connections && p != c && Subscribed(st, c, id, filters) && MatchesAny(filters, e)
    requires last.connections == st.connections[p := st.connections[p].(client := Client(false, []))]
    requires e in last.accepted && Takes(was, last.db.rows, e)
    requires !SoundDelivery.Sent(st.connections[c], id, e)
    ensures Wanted(last, c, id, filters, e) && !last.db.rows[ToBuffer(e.id)].deleted
    ensures !SoundDelivery.Sent(last.connections[c], id, e)
  {
  }

  lemma ReadyIsSound(db: Db, accepted: set<Event>, e: Event)
    requires Sound(db, accepted)
    ensures Sound(Ready(db, e), accepted)
  {
    DeleteKeepsSound(db, accepted, e.pubkey, EventStrategies.IdsToDelete(e.tags));
  }

  lemma NotYetSent(st: State, ready: Db, c: ConnectionId, id: SubscriptionId, e: Event)
    requires Reachable(st) && c in st.connections && !IsEphemeral(e.kind)
    requires ready == Ready(st.db, e) && Commit(ready, e).count != 0
    ensures !SoundDelivery.Sent(st.connections[c], id, e) && Takes(ready.rows, Commit(ready, e).db.rows, e)
  {
    ReachableStore(st);
    ReadyIsSound(st.db, st.accepted, e);
    CommitIsNew(ready, st.accepted, e);
    CommitTakes(ready, e);
    if SoundDelivery.Sent(st.connections[c], id, e) {
      SoundDelivery.OnlyStoredIsSent(st, c, id, e);
    }
  }

  /** In every state with nothing in flight, any new event matching another connection's subscription can be
      missed for good: stored, visible to every query, and never sent under that subscription's id. */
  lemma LeavingPublisherLosesBroadcast(st: State, p: ConnectionId, c: ConnectionId, id: SubscriptionId,
                                       filters: seq<Filter>, e: Event)
    requires Reachable(st) && Quiescent(st) && p in st.connections && p != c && st.connections[p].client.open
    requires Subscribed(st, c, id, filters) && MatchesAny(filters, e)
    requires Submittable(st, e) && Commit(Ready(st.db, e), e).count != 0
    ensures var r := Exec(st, Leaves(p, e));
            && r.Some? && Quiescent(r.value) && Reachable(r.value)
            && Wanted(r.value, c, id, filters, e) && !r.value.db.rows[ToBuffer(e.id)].deleted
            && !SoundDelivery.Sent(r.value.connections[c], id, e)
  {
    var ready := Ready(st.db, e);
    var o := Commit(ready, e);
    var gone := NextAsk(AfterStoring(st, p, e, o), p, Disconnect, None);
    StoredAndGone(st, p, e, o);
    AnnounceAfterLeaving(gone, p, e);
    LeavesRun(st, p, e, o);
    ReachableRun(st, Leaves(p, e));
    NotYetSent(st, ready, c, id, e);
    TakenIsWanted(st, NextAnnounce(gone, 0), ready.rows, p, c, id, filters, e);
  }

  // ---- for every event ------------------------------------------------------------------

  const EVERYTHING := Filter(None, None, None, None, None, None, [])

  lemma SubscribedToEverything(w: WorkerId, c: Connection)
    requires c == Connection(w, Client(true, []), map[], [], [])
    ensures var r := Req("feed", [EVERYTHING]);
            && Unique([EVERYTHING]) == [EVERYTHING]
            && Accepts(c.client, Some(Limits(0, 0, None)), r)
            && Handle(c.client, Some(Limits(0, 0, None)), r) == Client(true, [Entry("feed", [EVERYTHING])])
  {
    assert [EVERYTHING][..0] == [];
    assert Unique([EVERYTHING][..0]) == [];
  }

  lemma FoundNothing(st: State)
    requires st.fetches == [Fetch(1, 0, "feed", [EVERYTHING], Issued)] && 1 in st.connections && st.db == EmptyDb
    ensures var next := Found(st, 0, multiset{});
            && Enabled(next, Finish(0)) && NextFinish(next, 0).fetches == []
            && NextFinish(next, 0) == st.(fetches := [], shown := st.shown[0 := multiset{}],
                                          buried := st.buried[0 := {}],
                                          connections := Replied(st.connections, st.fetches[0],
                                                                 EndOfStoredEvents("feed")))
  {
    assert DeletedIds(st.db.rows) == {};
  }

  lemma AnsweredEmpty(st: State) returns (last: State)
    requires Reachable(st) && st.db == EmptyDb
    requires st.fetches == [Fetch(1, 0, "feed", [EVERYTHING], Issued)] && 1 in st.connections
    ensures Reachable(last)
    ensures last == st.(fetches := [], shown := st.shown[0 := multiset{}], buried := st.buried[0 := {}],
                        connections := Replied(st.connections, st.fetches[0], EndOfStoredEvents("feed")))
  {
    assert Results(EmptyDb, [EVERYTHING]) == multiset{};
    ReachableNext(st, Snapshot(0));
    FoundNothing(st);
    ReachableNext(Found(st, 0, multiset{}), Finish(0));
    last := NextFinish(Found(st, 0, multiset{}), 0);
  }

  lemma TwoClients(workers: seq<WorkerId>, v: WorkerId, w: WorkerId) returns (st: State)
    requires DistinctWorkers(workers) && v in workers && w in workers
    ensures Reachable(st)
    ensures st == Initial(workers).(connections := map[0 := Connection(v, Client(true, []), map[], [], []),
                                                       1 := Connection(w, Client(true, []), map[], [], [])])
  {
    var s0 := Initial(workers);
    assert Exec(s0, []) == Some(s0);
    ReachableNext(s0, Connect(0, v));
    var s1 := NextConnect(s0, 0, v);
    ReachableNext(s1, Connect(1, w));
    st := NextConnect(s1, 1, w);
  }

  lemma AskedForEverything(workers: seq<WorkerId>, v: WorkerId, w: WorkerId) returns (st: State)
    requires DistinctWorkers(workers) && v in workers && w in workers
    ensures Reachable(st) && st.db == EmptyDb && st.submitted == {} && st.flight == []
    ensures st.fetches == [Fetch(1, 0, "feed", [EVERYTHING], Issued)]
    ensures 0 in st.connections && st.connections[0].client.open && st.connections[0].worker == v
    ensures 1 in st.connections && st.connections[1].client == Client(true, [Entry("feed", [EVERYTHING])])
    ensures st.connections[1].registrations == map["feed" := Registration(0, 0)] && st.connections[1].worker == w
  {
    var s2 := TwoClients(workers, v, w);
    SubscribedToEverything(w, s2.connections[1]);
    var ask := Ask(1, Req("feed", [EVERYTHING]), Some(Limits(0, 0, None)));
    ReachableNext(s2, ask);
    st := Handled(s2, 1, ask.request, true, Client(true, [Entry("feed", [EVERYTHING])]));
  }

  /** Two clients, the second subscribed to everything, its empty history already sent. */
  lemma SetupRuns(workers: seq<WorkerId>, v: WorkerId, w: WorkerId) returns (st: State)
    requires DistinctWorkers(workers) && v in workers && w in workers
    ensures Reachable(st) && Quiescent(st) && st.db == EmptyDb && st.submitted == {}
    ensures 0 in st.connections && st.connections[0].client.open && st.connections[0].worker == v
    ensures Subscribed(st, 1, "feed", [EVERYTHING]) && st.connections[1].worker == w
    ensures st.connections[1].registrations == map["feed" := Registration(0, 0)]
    ensures 0 in st.buried && st.buried[0] == {} && 0 in st.shown && st.shown[0] == multiset{}
  {
    var asked := AskedForEverything(workers, v, w);
    st := AnsweredEmpty(asked);
  }

  lemma {:induction false} NothingToDelete(pubkey: Bytes, ids: seq<Bytes>)
    ensures DeleteRows(EmptyDb, pubkey, ids).db == EmptyDb
  {
    if ids != [] { NothingToDelete(pubkey, ids[..|ids| - 1]); }
  }

  lemma EmptyTakes(e: Event)
    requires !IsEphemeral(e.kind)
    ensures Commit(Ready(EmptyDb, e), e).count != 0
  {
    NothingToDelete(ToBuffer(e.pubkey), Buffers(EventStrategies.IdsToDelete(e.tags)));
    EventStrategies.DispatchAgreesWithIndex(e.kind);
  }

  /** The gap is real for every event: each valid event that is not ephemeral has a run after which it is
      stored and visible, nothing is in flight, and a subscription to everything that was open all along was
      never sent it. */
  lemma EveryEventCanBeMissed(workers: seq<WorkerId>, e: Event) returns (last: State)
    requires workers != [] && DistinctWorkers(workers) && ValidEvent(e) && !IsEphemeral(e.kind)
    ensures Reachable(last) && Quiescent(last)
    ensures Wanted(last, 1, "feed", [EVERYTHING], e) && e in Results(last.db, [EVERYTHING])
    ensures !SoundDelivery.Sent(last.connections[1], "feed", e)
  {
    var st := SetupRuns(workers, workers[0], workers[0]);
    assert EVERYTHING in [EVERYTHING] && IsEventMatchingFilter(EVERYTHING, e);
    EmptyTakes(e);
    LeavingPublisherLosesBroadcast(st, 0, 1, "feed", [EVERYTHING], e);
    last := Exec(st, Leaves(0, e)).value;
    ReachableStore(last);
    ResultsComplete(last.db, last.accepted, [EVERYTHING], e);
  }
}
