/** Between history and live delivery no stored event falls through. */
module NoGap {
  import opened AtMostOnce
  import opened EventRepository
  import opened Events
  import EventStrategies
  import opened FilterMeaning
  import opened Hex
  import opened Relay
  import opened RelayStore
  import opened RepeatedRows
  import opened Subscriptions
  import opened Wrappers

  /** The connection is open and has the subscription, with filters the query can answer. */
  ghost predicate Subscribed(st: State, c: ConnectionId, id: SubscriptionId, filters: seq<Filter>) {
    && c in st.connections && st.connections[c].client.open
    && Get(st.connections[c].client.table, id) == Some(filters)
    && forall f :: f in filters ==> Answerable(f)
  }

  /** The event is in the table, deleted or not, and the subscription asks for it. */
  ghost predicate Wanted(st: State, c: ConnectionId, id: SubscriptionId, filters: seq<Filter>, e: Event) {
    Subscribed(st, c, id, filters) && e in st.accepted && Stored(st.db, e) && MatchesAny(filters, e)
  }

  /** The event was sent on the subscription as it stands: live since its registration, or by the query of
      that registration. What an earlier subscription of the same id was sent does not count. */
  predicate SentSince(c: Connection, id: SubscriptionId, e: Event)
    requires id in c.registrations
  {
    var r := c.registrations[id];
    || (r.heardFrom <= |c.live| && EventMessage(id, e) in c.live[r.heardFrom..])
    || Answer(r.number, EventMessage(id, e)) in c.replies
  }

  /** The registration's query has yet to run, has the event still to send, or found it deleted. */
  ghost predicate FetchCovers(st: State, c: ConnectionId, registration: nat, id: SubscriptionId,
                              filters: seq<Filter>, e: Event) {
    || Fetch(c, registration, id, filters, Issued) in st.fetches
    || (exists rest :: e in rest && Fetch(c, registration, id, filters, Streaming(rest)) in st.fetches)
    || FoundDeleted(st, registration, e)
  }

  ghost predicate FoundDeleted(st: State, registration: nat, e: Event) {
    registration in st.buried && ToBuffer(e.id) in st.buried[registration]
  }

  ghost predicate Covered(st: State, c: ConnectionId, id: SubscriptionId, filters: seq<Filter>, e: Event)
    requires c in st.connections
  {
    var connection := st.connections[c];
    || e in st.lost
    || Pending(st.flight, Some(connection.worker), e) > 0
    || (id in connection.registrations
        && (SentSince(connection, id, e) || FetchCovers(st, c, connection.registrations[id].number, id, filters, e)))
  }

  /** Every subscription of an open connection has a registration, made at a time that has passed. */
  ghost predicate TablesRegistered(st: State) {
    forall c, id: SubscriptionId | c in st.connections :: TableRegistered(st.connections[c], id)
  }

  predicate TableRegistered(c: Connection, id: SubscriptionId) {
    && (id in c.registrations ==> c.registrations[id].heardFrom <= |c.live|)
    && (c.client.open && Get(c.client.table, id).Some? ==> id in c.registrations)
  }

  predicate DistinctRegistrations(fetches: seq<Fetch>) {
    forall i, j :: 0 <= i < j < |fetches| ==> fetches[i].registration != fetches[j].registration
  }

  /** Every registration has one query, and it runs once. */
  ghost predicate FetchedOnce(st: State) {
    && DistinctRegistrations(st.fetches)
    && (forall f :: f in st.fetches ==> f.registration < st.registered)
    && (forall f :: f in st.fetches && f.stage.Issued? ==> f.registration !in st.buried)
    && (forall r :: r in st.buried ==> r < st.registered)
  }

  ghost predicate NothingMissed(st: State) {
    forall c, id, filters, e :: Wanted(st, c, id, filters, e) ==> Covered(st, c, id, filters, e)
  }

  predicate WorkersKnown(st: State) {
    forall c :: c in st.connections ==> st.connections[c].worker in st.workers
  }

  ghost predicate GapInvariant(st: State) {
    && StoreInvariant(st) && OnceInvariant(st)
    && WorkersKnown(st)
    && TablesRegistered(st)
    && FetchedOnce(st)
    && NothingMissed(st)
  }

  // ---- the query finds what is stored ---------------------------------------------------

  lemma ResultsComplete(db: Db, accepted: set<Event>, filters: seq<Filter>, e: Event)
    requires Sound(db, accepted) && e in accepted && Stored(db, e)
    requires (forall f :: f in filters ==> Answerable(f)) && MatchesAny(filters, e)
    ensures e in Results(db, filters) || ToBuffer(e.id) in DeletedIds(db.rows)
  {
    var id := ToBuffer(e.id);
    var row := db.rows[id];
    UnionAgrees(filters, e, row, db.rows, db.tags);
    RowRoundTrip(e, row.eventDeduplication);
    assert ToNostrEvent(row) == e;
    AnswerHolds(filters, row, db.tags);
  }

  // ---- what was sent since a registration -----------------------------------------------

  lemma SinceGrows(was: Connection, now: Connection, id: SubscriptionId, e: Event)
    requires id in was.registrations && id in now.registrations && now.registrations[id] == was.registrations[id]
    requires was.live <= now.live && was.replies <= now.replies
    requires SentSince(was, id, e)
    ensures SentSince(now, id, e)
  {
    var from := was.registrations[id].heardFrom;
    if from <= |was.live| && EventMessage(id, e) in was.live[from..] {
      var i :| 0 <= i < |was.live[from..]| && was.live[from..][i] == EventMessage(id, e);
      assert now.live[from..][i] == EventMessage(id, e);
    }
  }

  lemma HeardSince(was: Connection, now: Connection, heard: seq<OutgoingMessage>, id: SubscriptionId, e: Event)
    requires id in was.registrations && was.registrations[id].heardFrom <= |was.live|
    requires now == was.(live := was.live + heard) && EventMessage(id, e) in heard
    ensures SentSince(now, id, e)
  {
    var from := was.registrations[id].heardFrom;
    assert now.live[from..] == was.live[from..] + heard;
  }

  // ---- every step keeps it, subscription by subscription --------------------------------

  lemma ConnectKeeps(st: State, d: ConnectionId, w: WorkerId, c: ConnectionId, id: SubscriptionId,
                     filters: seq<Filter>, e: Event)
    requires NothingMissed(st) && Enabled(st, Connect(d, w)) && Wanted(NextConnect(st, d, w), c, id, filters, e)
    ensures Covered(NextConnect(st, d, w), c, id, filters, e)
  {
    if c != d {
      assert Wanted(st, c, id, filters, e);
    }
  }

  /** The table and the registration of a subscription after a request of its connection. */
  lemma AskedSubscription(was: Connection, r: Request, limits: Option<Limits>, id: SubscriptionId)
    requires DistinctIds(was.client.table)
    ensures var now := Handle(was.client, limits, r);
            && (now.open ==> was.client.open)
            && (now.open && !(Accepts(was.client, limits, r) && r.id == id) && Get(now.table, id).Some?
                ==> Get(now.table, id) == Get(was.client.table, id))
            && (Accepts(was.client, limits, r) && r.id == id ==> Get(now.table, id) == Some(Unique(r.filters)))
  {
    if was.client.open {
      match r
      case Req(key, filters) => SetExact(was.client.table, key, Unique(filters), id);
      case Close(key) => DeleteExact(was.client.table, key, id);
      case Disconnect =>
    }
  }

  lemma HandledKeepsCovered(st: State, d: ConnectionId, r: Request, accepted: bool, client: Client,
                            c: ConnectionId, id: SubscriptionId, filters: seq<Filter>, e: Event)
    requires d in st.connections && (accepted ==> r.Req?)
    requires c in st.connections && Covered(st, c, id, filters, e)
    requires c != d || !accepted || r.id != id
    ensures Covered(Handled(st, d, r, accepted, client), c, id, filters, e)
  {
    var next := Handled(st, d, r, accepted, client);
    var was, now := st.connections[c], next.connections[c];
    assert now.live == was.live && now.replies == was.replies && now.worker == was.worker;
    assert id in was.registrations ==> id in now.registrations && now.registrations[id] == was.registrations[id];
    if id in was.registrations && SentSince(was, id, e) {
      SinceGrows(was, now, id, e);
    }
    assert forall f :: f in st.fetches ==> f in next.fetches;
  }

  lemma AskKeeps(st: State, d: ConnectionId, r: Request, limits: Option<Limits>,
                 c: ConnectionId, id: SubscriptionId, filters: seq<Filter>, e: Event)
    requires NothingMissed(st) && d in st.connections && DistinctIds(st.connections[d].client.table)
    requires Wanted(NextAsk(st, d, r, limits), c, id, filters, e)
    ensures Covered(NextAsk(st, d, r, limits), c, id, filters, e)
  {
    var was := st.connections[d];
    AskedSubscription(was, r, limits, id);
    if c == d && Accepts(was.client, limits, r) && r.id == id {
      assert Fetch(c, st.registered, id, filters, Issued) in NextAsk(st, d, r, limits).fetches;
    } else {
      assert Wanted(st, c, id, filters, e);
      HandledKeepsCovered(st, d, r, Accepts(was.client, limits, r), Handle(was.client, limits, r), c, id, filters, e);
    }
  }

  lemma StillStored(st: State, db: Db, a: Event, e: Event)
    requires StoreInvariant(st) && Submittable(st, a) && Takes(st.db.rows, db.rows, a)
    requires e in st.accepted && e != a && Stored(db, e)
    ensures Stored(st.db, e)
  {
    if ToBuffer(e.id) == ToBuffer(a.id) {
      ToBufferInjective(e.id, a.id);
    }
  }

  lemma CommittedKeepsCovered(st: State, d: ConnectionId, a: Event, o: Outcome,
                              c: ConnectionId, id: SubscriptionId, filters: seq<Filter>, e: Event)
    requires StoreInvariant(st) && NothingMissed(st) && Submittable(st, a)
    requires o.count == 0 ==> o.db == st.db
    requires o.count != 0 ==> Takes(st.db.rows, o.db.rows, a)
    requires Wanted(Committed(st, d, a, o), c, id, filters, e)
    ensures Covered(Committed(st, d, a, o), c, id, filters, e)
  {
    var worker := Some(st.connections[c].worker);
    PendingConcat(st.flight, [Unannounced(d, a)], worker, e);
    PendingOne(Unannounced(d, a), worker, e);
    if o.count == 0 || e != a {
      if o.count != 0 { StillStored(st, o.db, a, e); }
      assert Wanted(st, c, id, filters, e);
    }
  }

  lemma PublishKeeps(st: State, d: ConnectionId, a: Event, o: Outcome,
                     c: ConnectionId, id: SubscriptionId, filters: seq<Filter>, e: Event)
    requires StoreInvariant(st) && NothingMissed(st) && Submittable(st, a) && o == Commit(st.db, a)
    requires Wanted(Committed(st, d, a, o), c, id, filters, e)
    ensures Covered(Committed(st, d, a, o), c, id, filters, e)
  {
    CommitTakes(st.db, a);
    CommittedKeepsCovered(st, d, a, o, c, id, filters, e);
  }

  lemma SameTokensMissNothing(st: State, flight: seq<Token>)
    requires NothingMissed(st)
    requires forall w: Option<WorkerId>, e: Event :: Pending(flight, w, e) == Pending(st.flight, w, e)
    ensures NothingMissed(st.(flight := flight))
  {
    var next := st.(flight := flight);
    forall c, id, filters, e | Wanted(next, c, id, filters, e) ensures Covered(next, c, id, filters, e) {
      assert Wanted(st, c, id, filters, e);
    }
  }

  lemma RemoveUnstored(st: State, k: nat)
    requires StoreInvariant(st) && NothingMissed(st) && Enabled(st, StoreDelete(k))
    ensures var mid := st.(flight := Remove(st.flight, k));
            StoreInvariant(mid) && NothingMissed(mid) && Submittable(mid, st.flight[k].event)
  {
    var rest := Remove(st.flight, k);
    assert st.flight[k] in st.flight;
    forall w: Option<WorkerId>, a: Event ensures Pending(rest, w, a) == Pending(st.flight, w, a) {
      PendingRemove(st.flight, k, w, a);
    }
    SameTokensMissNothing(st, rest);
  }

  lemma DeleteTargetsKeepsCovered(st: State, d: ConnectionId, a: Event,
                                  c: ConnectionId, id: SubscriptionId, filters: seq<Filter>, e: Event)
    requires StoreInvariant(st) && NothingMissed(st) && Enabled(st, DeleteTargets(d, a))
    requires Wanted(NextDeleteTargets(st, d, a), c, id, filters, e)
    ensures Covered(NextDeleteTargets(st, d, a), c, id, filters, e)
  {
    DeleteKeepsSound(st.db, st.accepted, a.pubkey, EventStrategies.IdsToDelete(a.tags));
    MarkedKeepsCovered(st, NextDeleteTargets(st, d, a), [Unstored(d, a)], c, id, filters, e);
  }

  /** Steps that only mark rows, and begin work that broadcasts nothing. */
  lemma MarkedKeepsCovered(st: State, next: State, more: seq<Token>, c: ConnectionId, id: SubscriptionId,
                           filters: seq<Filter>, e: Event)
    requires NothingMissed(st) && OnlyMarks(st.db.rows, next.db.rows)
    requires next == st.(db := next.db, submitted := next.submitted, flight := st.flight + more)
    requires Wanted(next, c, id, filters, e)
    ensures Covered(next, c, id, filters, e)
  {
    PendingConcat(st.flight, more, Some(st.connections[c].worker), e);
    assert Stored(st.db, e);
    assert Wanted(st, c, id, filters, e);
  }

  lemma BroadcastSends(connections: map<ConnectionId, Connection>, w: WorkerId, a: Event, c: ConnectionId,
                       id: SubscriptionId)
    requires c in connections && DistinctIds(connections[c].client.table)
    requires TableRegistered(connections[c], id)
    ensures var was, now := connections[c], Broadcast(connections, w, a)[c];
            && now.(live := was.live) == was && was.live <= now.live
            && (was.worker == w && was.client.open && Get(was.client.table, id).Some?
                && MatchesAny(Get(was.client.table, id).value, a)
                ==> SentSince(now, id, a))
  {
    var was, now := connections[c], Broadcast(connections, w, a)[c];
    var heard := LiveMessages(was.client.table, a);
    LiveMessagesExact(was.client.table, a, EventMessage(id, a));
    assert EventMessage(id, a) in heard <==> multiset(heard)[EventMessage(id, a)] > 0;
    if was.worker == w && was.client.open && Get(was.client.table, id).Some? && EventMessage(id, a) in heard {
      HeardSince(was, now, heard, id, a);
    }
  }

  lemma BroadcastKeepsSince(connections: map<ConnectionId, Connection>, w: WorkerId, a: Event, c: ConnectionId,
                            id: SubscriptionId, e: Event)
    requires c in connections && id in connections[c].registrations && SentSince(connections[c], id, e)
    ensures SentSince(Broadcast(connections, w, a)[c], id, e)
  {
    SinceGrows(connections[c], Broadcast(connections, w, a)[c], id, e);
  }

  lemma AnnounceKeeps(st: State, k: nat, c: ConnectionId, id: SubscriptionId, filters: seq<Filter>, e: Event)
    requires OnceInvariant(st) && TablesRegistered(st) && NothingMissed(st) && Enabled(st, Announce(k))
    requires Wanted(NextAnnounce(st, k), c, id, filters, e)
    ensures Covered(NextAnnounce(st, k), c, id, filters, e)
  {
    var t := st.flight[k];
    var publisher := st.connections[t.connection];
    assert Wanted(st, c, id, filters, e);
    BroadcastSends(st.connections, publisher.worker, t.event, c, id);
    if id in st.connections[c].registrations && SentSince(st.connections[c], id, e) {
      BroadcastKeepsSince(st.connections, publisher.worker, t.event, c, id, e);
    }
    if Pending(st.flight, Some(st.connections[c].worker), e) > 0 {
      AnnounceTokens(st, k, Some(st.connections[c].worker), e);
    }
  }

  lemma ForwardKeeps(st: State, k: nat, c: ConnectionId, id: SubscriptionId, filters: seq<Filter>, e: Event)
    requires DistinctWorkers(st.workers) && NothingMissed(st) && Enabled(st, Forward(k))
    requires WorkersKnown(st)
    requires Wanted(NextForward(st, k), c, id, filters, e)
    ensures Covered(NextForward(st, k), c, id, filters, e)
  {
    assert Wanted(st, c, id, filters, e);
    PendingForward(st, k, Some(st.connections[c].worker), e);
  }

  lemma DeliverKeeps(st: State, k: nat, c: ConnectionId, id: SubscriptionId, filters: seq<Filter>, e: Event)
    requires OnceInvariant(st) && TablesRegistered(st) && NothingMissed(st) && Enabled(st, Deliver(k))
    requires Wanted(NextDeliver(st, k), c, id, filters, e)
    ensures Covered(NextDeliver(st, k), c, id, filters, e)
  {
    var t := st.flight[k];
    assert Wanted(st, c, id, filters, e);
    BroadcastSends(st.connections, t.to, t.event, c, id);
    if id in st.connections[c].registrations && SentSince(st.connections[c], id, e) {
      BroadcastKeepsSince(st.connections, t.to, t.event, c, id, e);
    }
    PendingRemove(st.flight, k, Some(st.connections[c].worker), e);
  }

  lemma UpdateKeeps<T>(s: seq<T>, k: nat, now: T, x: T)
    requires k < |s| && x in s
    ensures x in s[k := now] || x == s[k]
    ensures now in s[k := now]
    ensures x in Remove(s, k) || x == s[k]
  {
    var i :| 0 <= i < |s| && s[i] == x;
    assert s[k := now][k] == now;
    if i < k {
      assert s[k := now][i] == x && Remove(s, k)[i] == x;
    } else if i > k {
      assert s[k := now][i] == x && Remove(s, k)[i - 1] == x;
    }
  }

  /** The query advances from its issue to streaming what it found. */
  lemma AdvancedFetchCovers(st: State, next: State, k: nat, now: Fetch, c: ConnectionId, r: nat, id: SubscriptionId,
                            filters: seq<Filter>, e: Event)
    requires FetchedOnce(st) && k < |st.fetches| && st.fetches[k].stage.Issued?
    requires now.stage.Streaming? && now == st.fetches[k].(stage := now.stage)
    requires next.fetches == st.fetches[k := now]
    requires forall n :: n in st.buried ==>
      n == now.registration || (n in next.buried && next.buried[n] == st.buried[n])
    requires now.filters == filters ==> e in now.stage.rest || FoundDeleted(next, now.registration, e)
    requires FetchCovers(st, c, r, id, filters, e)
    ensures FetchCovers(next, c, r, id, filters, e)
  {
    assert st.fetches[k] in st.fetches && st.fetches[k := now][k] == now;
    if Fetch(c, r, id, filters, Issued) in st.fetches {
      UpdateKeeps(st.fetches, k, now, Fetch(c, r, id, filters, Issued));
    } else if rest :| e in rest && Fetch(c, r, id, filters, Streaming(rest)) in st.fetches {
      UpdateKeeps(st.fetches, k, now, Fetch(c, r, id, filters, Streaming(rest)));
    }
  }

  lemma FoundFetchCovers(st: State, k: nat, results: multiset<Event>, c: ConnectionId, r: nat, id: SubscriptionId,
                         filters: seq<Filter>, e: Event)
    requires FetchedOnce(st) && Enabled(st, Snapshot(k)) && FetchCovers(st, c, r, id, filters, e)
    requires st.fetches[k].filters == filters ==> e in results || ToBuffer(e.id) in DeletedIds(st.db.rows)
    ensures FetchCovers(Found(st, k, results), c, r, id, filters, e)
  {
    var now := st.fetches[k].(stage := Streaming(results));
    AdvancedFetchCovers(st, Found(st, k, results), k, now, c, r, id, filters, e);
  }

  lemma SnapshotKeepsCovered(st: State, k: nat, c: ConnectionId, id: SubscriptionId, filters: seq<Filter>, e: Event)
    requires GapInvariant(st) && Enabled(st, Snapshot(k)) && Wanted(NextSnapshot(st, k), c, id, filters, e)
    ensures Covered(NextSnapshot(st, k), c, id, filters, e)
  {
    assert Wanted(st, c, id, filters, e);
    ResultsComplete(st.db, st.accepted, filters, e);
    var connection := st.connections[c];
    if id in connection.registrations && FetchCovers(st, c, connection.registrations[id].number, id, filters, e) {
      FoundFetchCovers(st, k, Results(st.db, st.fetches[k].filters), c, connection.registrations[id].number, id,
                       filters, e);
    }
  }

  lemma StreamFetchCovers(st: State, k: nat, a: Event, c: ConnectionId, r: nat, id: SubscriptionId,
                          filters: seq<Filter>, e: Event)
    requires Enabled(st, Stream(k, a)) && FetchCovers(st, c, r, id, filters, e)
    ensures FetchCovers(NextStream(st, k, a), c, r, id, filters, e)
            || (e == a && st.fetches[k].connection == c && st.fetches[k].id == id && st.fetches[k].registration == r)
  {
    var f := st.fetches[k];
    var now := f.(stage := Streaming(f.stage.rest - multiset{a}));
    if Fetch(c, r, id, filters, Issued) in st.fetches {
      UpdateKeeps(st.fetches, k, now, Fetch(c, r, id, filters, Issued));
    } else if rest :| e in rest && Fetch(c, r, id, filters, Streaming(rest)) in st.fetches {
      UpdateKeeps(st.fetches, k, now, Fetch(c, r, id, filters, Streaming(rest)));
    } else {
      assert FoundDeleted(st, r, e);
    }
  }

  lemma StreamKeeps(st: State, k: nat, a: Event, c: ConnectionId, id: SubscriptionId, filters: seq<Filter>, e: Event)
    requires NothingMissed(st) && Enabled(st, Stream(k, a)) && Wanted(NextStream(st, k, a), c, id, filters, e)
    ensures Covered(NextStream(st, k, a), c, id, filters, e)
  {
    assert Wanted(st, c, id, filters, e);
    var connection := st.connections[c];
    if id in connection.registrations {
      var now := NextStream(st, k, a).connections[c];
      if SentSince(connection, id, e) {
        SinceGrows(connection, now, id, e);
      } else if FetchCovers(st, c, connection.registrations[id].number, id, filters, e) {
        StreamFetchCovers(st, k, a, c, connection.registrations[id].number, id, filters, e);
      }
    }
  }

  lemma FinishFetchCovers(st: State, k: nat, c: ConnectionId, r: nat, id: SubscriptionId, filters: seq<Filter>,
                          e: Event)
    requires Enabled(st, Finish(k)) && FetchCovers(st, c, r, id, filters, e)
    ensures FetchCovers(NextFinish(st, k), c, r, id, filters, e)
  {
    var f := st.fetches[k];
    if Fetch(c, r, id, filters, Issued) in st.fetches {
      UpdateKeeps(st.fetches, k, f, Fetch(c, r, id, filters, Issued));
    } else if rest :| e in rest && Fetch(c, r, id, filters, Streaming(rest)) in st.fetches {
      UpdateKeeps(st.fetches, k, f, Fetch(c, r, id, filters, Streaming(rest)));
    } else {
      assert FoundDeleted(st, r, e);
    }
  }

  lemma FinishKeeps(st: State, k: nat, c: ConnectionId, id: SubscriptionId, filters: seq<Filter>, e: Event)
    requires NothingMissed(st) && Enabled(st, Finish(k)) && Wanted(NextFinish(st, k), c, id, filters, e)
    ensures Covered(NextFinish(st, k), c, id, filters, e)
  {
    assert Wanted(st, c, id, filters, e);
    var connection := st.connections[c];
    if id in connection.registrations {
      var now := NextFinish(st, k).connections[c];
      if SentSince(connection, id, e) {
        SinceGrows(connection, now, id, e);
      } else if FetchCovers(st, c, connection.registrations[id].number, id, filters, e) {
        FinishFetchCovers(st, k, c, connection.registrations[id].number, id, filters, e);
      }
    }
  }

  lemma NextKeepsCovered(st: State, s: Step, c: ConnectionId, id: SubscriptionId, filters: seq<Filter>, e: Event)
    requires GapInvariant(st) && Enabled(st, s) && Wanted(Next(st, s), c, id, filters, e)
    ensures Covered(Next(st, s), c, id, filters, e)
  {
    match s
    case Connect(d, w) => ConnectKeeps(st, d, w, c, id, filters, e);
    case Ask(d, r, limits) => AskKeeps(st, d, r, limits, c, id, filters, e);
    case Publish(d, a) => PublishKeeps(st, d, a, Commit(st.db, a), c, id, filters, e);
    case DeleteTargets(d, a) => DeleteTargetsKeepsCovered(st, d, a, c, id, filters, e);
    case StoreDelete(k) =>
      var t, mid := st.flight[k], st.(flight := Remove(st.flight, k));
      RemoveUnstored(st, k);
      PublishKeeps(mid, t.connection, t.event, Commit(mid.db, t.event), c, id, filters, e);
    case Announce(k) => AnnounceKeeps(st, k, c, id, filters, e);
    case Forward(k) => ForwardKeeps(st, k, c, id, filters, e);
    case Deliver(k) => DeliverKeeps(st, k, c, id, filters, e);
    case Snapshot(k) => SnapshotKeepsCovered(st, k, c, id, filters, e);
    case Stream(k, a) => StreamKeeps(st, k, a, c, id, filters, e);
    case Finish(k) => FinishKeeps(st, k, c, id, filters, e);
  }

  lemma IssueFetchedOnce(fetches: seq<Fetch>, registered: nat, f: Fetch)
    requires DistinctRegistrations(fetches) && (forall g :: g in fetches ==> g.registration < registered)
    requires f.registration == registered
    ensures DistinctRegistrations(fetches + [f])
    ensures forall g :: g in fetches + [f] ==> g in fetches || g == f
  {
    assert forall i :: 0 <= i < |fetches| ==> fetches[i] in fetches;
  }

  lemma HandledFetchedOnce(st: State, c: ConnectionId, r: Request, accepted: bool, client: Client)
    requires FetchedOnce(st) && c in st.connections && (accepted ==> r.Req?)
    ensures FetchedOnce(Handled(st, c, r, accepted, client))
  {
    if accepted {
      IssueFetchedOnce(st.fetches, st.registered, Fetch(c, st.registered, r.id, Unique(r.filters), Issued));
    }
  }

  /** Replacing a query by one of the same registration that is no longer issued. */
  lemma AdvanceFetchedOnce(fetches: seq<Fetch>, k: nat, now: Fetch)
    requires k < |fetches| && now.registration == fetches[k].registration && now.stage.Streaming?
    requires DistinctRegistrations(fetches)
    ensures DistinctRegistrations(fetches[k := now])
    ensures forall f :: f in fetches[k := now] ==>
      f == now || (f in fetches && f.registration != now.registration)
  {
    forall f | f in fetches[k := now] && f != now ensures f in fetches && f.registration != now.registration {
      var i :| 0 <= i < |fetches| && fetches[k := now][i] == f;
      assert i != k && fetches[i] == f;
    }
  }

  lemma SnapshotFetchedOnce(st: State, k: nat)
    requires FetchedOnce(st) && Enabled(st, Snapshot(k))
    ensures FetchedOnce(NextSnapshot(st, k))
  {
    var f := st.fetches[k];
    assert f in st.fetches;
    AdvanceFetchedOnce(st.fetches, k, f.(stage := Streaming(Results(st.db, f.filters))));
  }

  lemma StreamFetchedOnce(st: State, k: nat, e: Event)
    requires FetchedOnce(st) && Enabled(st, Stream(k, e))
    ensures FetchedOnce(NextStream(st, k, e))
  {
    var f := st.fetches[k];
    assert f in st.fetches;
    AdvanceFetchedOnce(st.fetches, k, f.(stage := Streaming(f.stage.rest - multiset{e})));
  }

  lemma FinishFetchedOnce(st: State, k: nat)
    requires FetchedOnce(st) && Enabled(st, Finish(k))
    ensures FetchedOnce(NextFinish(st, k))
  {
    assert forall f :: f in Remove(st.fetches, k) ==> f in st.fetches;
  }

  lemma SameFetchedOnce(st: State, next: State)
    requires FetchedOnce(st)
    requires next.fetches == st.fetches && next.registered == st.registered && next.buried == st.buried
    ensures FetchedOnce(next)
  {
  }

  lemma CommittedFetchedOnce(st: State, flight: seq<Token>, c: ConnectionId, e: Event, o: Outcome)
    requires FetchedOnce(st)
    ensures FetchedOnce(Committed(st.(flight := flight), c, e, o))
  {
    SameFetchedOnce(st, Committed(st.(flight := flight), c, e, o));
  }

  lemma NextKeepsFetchedOnce(st: State, s: Step)
    requires FetchedOnce(st) && Enabled(st, s)
    ensures FetchedOnce(Next(st, s))
  {
    match s
    case Ask(c, r, limits) =>
      var was := st.connections[c].client;
      HandledFetchedOnce(st, c, r, Accepts(was, limits, r), Handle(was, limits, r));
    case Snapshot(k) => SnapshotFetchedOnce(st, k);
    case Stream(k, e) => StreamFetchedOnce(st, k, e);
    case Finish(k) => FinishFetchedOnce(st, k);
    case Connect(c, w) => SameFetchedOnce(st, NextConnect(st, c, w));
    case Publish(c, e) => CommittedFetchedOnce(st, st.flight, c, e, Commit(st.db, e));
    case DeleteTargets(c, e) => SameFetchedOnce(st, NextDeleteTargets(st, c, e));
    case StoreDelete(k) =>
      var t := st.flight[k];
      CommittedFetchedOnce(st, Remove(st.flight, k), t.connection, t.event, Commit(st.db, t.event));
    case Announce(k) => SameFetchedOnce(st, NextAnnounce(st, k));
    case Forward(k) => SameFetchedOnce(st, NextForward(st, k));
    case Deliver(k) => SameFetchedOnce(st, NextDeliver(st, k));
  }

  /** Steps that register nothing and take back nothing that was sent. */
  lemma SameRegistered(st: State, next: State)
    requires TablesRegistered(st)
    requires forall c :: c in next.connections ==>
      && c in st.connections && next.connections[c].client == st.connections[c].client
      && next.connections[c].registrations == st.connections[c].registrations
      && |next.connections[c].live| >= |st.connections[c].live|
    ensures TablesRegistered(next)
  {
    forall c, id: SubscriptionId | c in next.connections ensures TableRegistered(next.connections[c], id) {
      assert TableRegistered(st.connections[c], id);
    }
  }

  lemma AskKeepsRegistered(st: State, d: ConnectionId, r: Request, limits: Option<Limits>)
    requires TablesRegistered(st) && d in st.connections && DistinctIds(st.connections[d].client.table)
    ensures TablesRegistered(NextAsk(st, d, r, limits))
  {
    var next := NextAsk(st, d, r, limits);
    forall c, id: SubscriptionId | c in next.connections ensures TableRegistered(next.connections[c], id) {
      assert TableRegistered(st.connections[c], id);
      AskedSubscription(st.connections[d], r, limits, id);
    }
  }

  lemma ConnectKeepsRegistered(st: State, d: ConnectionId, w: WorkerId)
    requires TablesRegistered(st) && Enabled(st, Connect(d, w))
    ensures TablesRegistered(NextConnect(st, d, w))
  {
    var next := NextConnect(st, d, w);
    forall c, id: SubscriptionId | c in next.connections ensures TableRegistered(next.connections[c], id) {
      if c != d { assert TableRegistered(st.connections[c], id); }
    }
  }

  lemma BroadcastKeepsRegistered(st: State, next: State, w: WorkerId, e: Event)
    requires TablesRegistered(st) && next.connections == Broadcast(st.connections, w, e)
    ensures TablesRegistered(next)
  {
    SameRegistered(st, next);
  }

  lemma ReplyKeepsRegistered(st: State, next: State, f: Fetch, m: OutgoingMessage)
    requires TablesRegistered(st) && f.connection in st.connections
    requires next.connections == Replied(st.connections, f, m)
    ensures TablesRegistered(next)
  {
    SameRegistered(st, next);
  }

  lemma AnnounceKeepsRegistered(st: State, k: nat)
    requires TablesRegistered(st) && Enabled(st, Announce(k))
    ensures TablesRegistered(NextAnnounce(st, k))
  {
    var t := st.flight[k];
    var publisher := st.connections[t.connection];
    if publisher.client.open {
      BroadcastKeepsRegistered(st, NextAnnounce(st, k), publisher.worker, t.event);
    }
  }

  lemma NextKeepsRegistered(st: State, s: Step)
    requires TablesRegistered(st) && OnceInvariant(st) && Enabled(st, s)
    ensures TablesRegistered(Next(st, s))
  {
    match s
    case Connect(d, w) => ConnectKeepsRegistered(st, d, w);
    case Ask(d, r, limits) => AskKeepsRegistered(st, d, r, limits);
    case Announce(k) => AnnounceKeepsRegistered(st, k);
    case Deliver(k) =>
      BroadcastKeepsRegistered(st, NextDeliver(st, k), st.flight[k].to, st.flight[k].event);
    case Stream(k, e) =>
      ReplyKeepsRegistered(st, NextStream(st, k, e), st.fetches[k], EventMessage(st.fetches[k].id, e));
    case Finish(k) =>
      ReplyKeepsRegistered(st, NextFinish(st, k), st.fetches[k], EndOfStoredEvents(st.fetches[k].id));
    case _ => assert Next(st, s).connections == st.connections;
  }

  /** Steps after which every connection is where it was. */
  lemma SameWorkers(st: State, next: State)
    requires WorkersKnown(st) && next.workers == st.workers
    requires forall c :: c in next.connections ==>
      c in st.connections && next.connections[c].worker == st.connections[c].worker
    ensures WorkersKnown(next)
  {
  }

  lemma CommittedWorkers(st: State, flight: seq<Token>, c: ConnectionId, e: Event, o: Outcome)
    requires WorkersKnown(st)
    ensures WorkersKnown(Committed(st.(flight := flight), c, e, o))
  {
  }

  lemma ConnectWorkers(st: State, c: ConnectionId, w: WorkerId)
    requires WorkersKnown(st) && Enabled(st, Connect(c, w))
    ensures WorkersKnown(NextConnect(st, c, w))
  {
  }

  lemma AskWorkers(st: State, c: ConnectionId, r: Request, limits: Option<Limits>)
    requires WorkersKnown(st) && c in st.connections
    ensures WorkersKnown(NextAsk(st, c, r, limits))
  {
    SameWorkers(st, NextAsk(st, c, r, limits));
  }

  lemma BroadcastWorkers(st: State, next: State, w: WorkerId, e: Event)
    requires WorkersKnown(st) && next.workers == st.workers && next.connections == Broadcast(st.connections, w, e)
    ensures WorkersKnown(next)
  {
    SameWorkers(st, next);
  }

  lemma AnnounceWorkers(st: State, k: nat)
    requires WorkersKnown(st) && Enabled(st, Announce(k))
    ensures WorkersKnown(NextAnnounce(st, k))
  {
    var publisher := st.connections[st.flight[k].connection];
    if publisher.client.open {
      BroadcastWorkers(st, NextAnnounce(st, k), publisher.worker, st.flight[k].event);
    }
  }

  lemma NextKeepsWorkers(st: State, s: Step)
    requires WorkersKnown(st) && Enabled(st, s)
    ensures WorkersKnown(Next(st, s))
  {
    match s
    case Connect(c, w) => ConnectWorkers(st, c, w);
    case Ask(c, r, limits) => AskWorkers(st, c, r, limits);
    case Announce(k) => AnnounceWorkers(st, k);
    case Deliver(k) => BroadcastWorkers(st, NextDeliver(st, k), st.flight[k].to, st.flight[k].event);
    case Stream(k, e) => SameWorkers(st, NextStream(st, k, e));
    case Finish(k) => SameWorkers(st, NextFinish(st, k));
    case Publish(c, e) => CommittedWorkers(st, st.flight, c, e, Commit(st.db, e));
    case StoreDelete(k) =>
      var t := st.flight[k];
      CommittedWorkers(st, Remove(st.flight, k), t.connection, t.event, Commit(st.db, t.event));
    case DeleteTargets(c, e) => SameWorkers(st, NextDeleteTargets(st, c, e));
    case Forward(k) => SameWorkers(st, NextForward(st, k));
    case Snapshot(k) => SameWorkers(st, NextSnapshot(st, k));
  }

  lemma NextKeepsGap(st: State, s: Step)
    requires GapInvariant(st) && Enabled(st, s)
    ensures GapInvariant(Next(st, s))
  {
    NextKeepsStore(st, s);
    NextKeepsOnce(st, s);
    NextKeepsWorkers(st, s);
    NextKeepsRegistered(st, s);
    NextKeepsFetchedOnce(st, s);
    var next := Next(st, s);
    forall c, id, filters, e | Wanted(next, c, id, filters, e) ensures Covered(next, c, id, filters, e) {
      NextKeepsCovered(st, s, c, id, filters, e);
    }
  }

  lemma {:induction false} ExecKeepsGap(workers: seq<WorkerId>, steps: seq<Step>)
    requires DistinctWorkers(workers)
    ensures Exec(Initial(workers), steps).Some? ==> GapInvariant(Exec(Initial(workers), steps).value)
  {
    if steps == [] {
      ExecKeepsStore(workers, steps);
      ExecKeepsOnce(workers, steps);
    } else if Exec(Initial(workers), steps).Some? {
      var front := steps[..|steps| - 1];
      ExecKeepsGap(workers, front);
      NextKeepsGap(Exec(Initial(workers), front).value, steps[|steps| - 1]);
    }
  }

  lemma ReachableGap(st: State)
    requires Reachable(st)
    ensures GapInvariant(st)
  {
    var workers, steps :| DistinctWorkers(workers) && Exec(Initial(workers), steps) == Some(st);
    ExecKeepsGap(workers, steps);
  }

  // ---- the guarantee --------------------------------------------------------------------

  /** In every run, once nothing is in flight: every stored event that matches an open subscription has
      been sent on it since it was registered, by its own query or live, unless that query found the event
      deleted, or the event's broadcast was lost with its publisher's connection. */
  lemma NoGapBetweenHistoryAndLive(st: State, c: ConnectionId, id: SubscriptionId, filters: seq<Filter>, e: Event)
    requires Reachable(st) && Quiescent(st) && Wanted(st, c, id, filters, e)
    ensures id in st.connections[c].registrations
    ensures SentSince(st.connections[c], id, e) || e in st.lost
            || FoundDeleted(st, st.connections[c].registrations[id].number, e)
  {
    ReachableGap(st);
    assert TableRegistered(st.connections[c], id);
    assert Covered(st, c, id, filters, e);
  }

  lemma ResultsSound(db: Db, accepted: set<Event>, filters: seq<Filter>, e: Event)
    requires Sound(db, accepted) && e in Results(db, filters)
    ensures e in accepted && Stored(db, e) && !db.rows[ToBuffer(e.id)].deleted && MatchesAny(filters, e)
  {
    assert Streamed(db, filters, e) > 0;
    var row := db.rows[ToBuffer(e.id)];
    var a :| a in accepted && Holds(row, a);
    RowRoundTrip(a, row.eventDeduplication);
    assert ToNostrEvent(row) == a;
  }

  /** Asking again would bring nothing new: what a fresh query of an open subscription returns has been
      sent on it since it was registered, unless its broadcast was lost. */
  lemma FreshQueryAddsNothing(st: State, c: ConnectionId, id: SubscriptionId, filters: seq<Filter>, e: Event)
    requires Reachable(st) && Quiescent(st) && Subscribed(st, c, id, filters) && e in Results(st.db, filters)
    ensures id in st.connections[c].registrations
    ensures SentSince(st.connections[c], id, e) || e in st.lost
  {
    ReachableGap(st);
    ResultsSound(st.db, st.accepted, filters, e);
    NoGapBetweenHistoryAndLive(st, c, id, filters, e);
    assert FoundDeleted(st, st.connections[c].registrations[id].number, e) ==>
        Buried(st.db.rows, st.accepted, ToBuffer(e.id));
  }
}
