/** Exactly which stored events an open subscription was sent. */
module ExactGap {
  import opened AtMostOnce
  import opened EndOfStored
  import opened EventRepository
  import opened Events
  import opened Hex
  import opened NoGap
  import opened Relay
  import opened RelayStore
  import opened Subscriptions
  import opened Wrappers

  // ---- a subscription stands by what its registration asked for -------------------------

  ghost predicate StandsAsAsked(st: State, c: ConnectionId, id: SubscriptionId)
    requires c in st.connections
  {
    var connection := st.connections[c];
    connection.client.open && Get(connection.client.table, id).Some? ==>
      && id in connection.registrations && connection.registrations[id].number in st.asked
      && st.asked[connection.registrations[id].number] == Asked(c, id, Get(connection.client.table, id).value)
  }

  ghost predicate AskedNumbers(st: State) {
    forall r :: r in st.asked ==> r < st.registered
  }

  ghost predicate StandsInvariant(st: State) {
    && AskedNumbers(st)
    && (forall c :: c in st.connections ==> DistinctIds(st.connections[c].client.table))
    && forall c, id: SubscriptionId | c in st.connections :: StandsAsAsked(st, c, id)
  }

  lemma AcceptedStands(st: State, d: ConnectionId, r: Request, client: Client, c: ConnectionId, id: SubscriptionId)
    requires AskedNumbers(st) && d in st.connections && r.Req? && c in st.connections && StandsAsAsked(st, c, id)
    requires Get(client.table, r.id) == Some(Unique(r.filters))
    requires client.open ==> st.connections[d].client.open
    requires client.open && id != r.id && Get(client.table, id).Some? ==>
               Get(client.table, id) == Get(st.connections[d].client.table, id)
    ensures StandsAsAsked(Handled(st, d, r, true, client), c, id)
  {
  }

  lemma RefusedStands(st: State, d: ConnectionId, r: Request, client: Client, c: ConnectionId, id: SubscriptionId)
    requires d in st.connections && c in st.connections && StandsAsAsked(st, c, id)
    requires client.open ==> st.connections[d].client.open
    requires client.open && Get(client.table, id).Some? ==>
               Get(client.table, id) == Get(st.connections[d].client.table, id)
    ensures StandsAsAsked(Handled(st, d, r, false, client), c, id)
  {
  }

  lemma AskStandsOne(st: State, d: ConnectionId, r: Request, limits: Option<Limits>, c: ConnectionId,
                     id: SubscriptionId)
    requires StandsInvariant(st) && d in st.connections && c in st.connections
    ensures StandsAsAsked(NextAsk(st, d, r, limits), c, id)
  {
    var was := st.connections[d];
    var accepted, client := Accepts(was.client, limits, r), Handle(was.client, limits, r);
    assert StandsAsAsked(st, c, id);
    AskedSubscription(was, r, limits, id);
    if accepted {
      AskedSubscription(was, r, limits, r.id);
      AcceptedStands(st, d, r, client, c, id);
    } else {
      RefusedStands(st, d, r, client, c, id);
    }
  }

  lemma HandledNumbers(st: State, d: ConnectionId, r: Request, accepted: bool, client: Client)
    requires AskedNumbers(st) && d in st.connections && (accepted ==> r.Req?) && DistinctIds(client.table)
    requires forall c :: c in st.connections ==> DistinctIds(st.connections[c].client.table)
    ensures var next := Handled(st, d, r, accepted, client);
            && AskedNumbers(next) && next.connections.Keys == st.connections.Keys
            && forall c :: c in next.connections ==> DistinctIds(next.connections[c].client.table)
  {
  }

  lemma AskStands(st: State, d: ConnectionId, r: Request, limits: Option<Limits>)
    requires StandsInvariant(st) && d in st.connections
    ensures StandsInvariant(NextAsk(st, d, r, limits))
  {
    var was := st.connections[d].client;
    AskKeepsDistinctIds(was, limits, r);
    HandledNumbers(st, d, r, Accepts(was, limits, r), Handle(was, limits, r));
    forall c, id: SubscriptionId | c in st.connections ensures StandsAsAsked(NextAsk(st, d, r, limits), c, id) {
      AskStandsOne(st, d, r, limits, c, id);
    }
  }

  lemma ConnectStands(st: State, d: ConnectionId, w: WorkerId)
    requires StandsInvariant(st) && Enabled(st, Connect(d, w))
    ensures StandsInvariant(NextConnect(st, d, w))
  {
    var next := NextConnect(st, d, w);
    forall c, id: SubscriptionId | c in next.connections ensures StandsAsAsked(next, c, id) {
      if c != d { assert StandsAsAsked(st, c, id); }
    }
  }

  /** Steps that register nothing and open no connection. */
  lemma SameStands(st: State, next: State)
    requires StandsInvariant(st) && next.asked == st.asked && next.registered == st.registered
    requires forall c :: c in next.connections ==>
      && c in st.connections && next.connections[c].client == st.connections[c].client
      && next.connections[c].registrations == st.connections[c].registrations
    ensures StandsInvariant(next)
  {
    forall c, id: SubscriptionId | c in next.connections ensures StandsAsAsked(next, c, id) {
      assert StandsAsAsked(st, c, id);
    }
  }

  lemma BroadcastStands(st: State, next: State, w: WorkerId, e: Event)
    requires StandsInvariant(st) && next.asked == st.asked && next.registered == st.registered
    requires next.connections == Broadcast(st.connections, w, e)
    ensures StandsInvariant(next)
  {
    SameStands(st, next);
  }

  lemma AnnounceStands(st: State, k: nat)
    requires StandsInvariant(st) && Enabled(st, Announce(k))
    ensures StandsInvariant(NextAnnounce(st, k))
  {
    var publisher := st.connections[st.flight[k].connection];
    if publisher.client.open {
      BroadcastStands(st, NextAnnounce(st, k), publisher.worker, st.flight[k].event);
    } else {
      SameStands(st, NextAnnounce(st, k));
    }
  }

  lemma ReplyStands(st: State, next: State, f: Fetch, m: OutgoingMessage)
    requires StandsInvariant(st) && next.asked == st.asked && next.registered == st.registered
    requires f.connection in st.connections && next.connections == Replied(st.connections, f, m)
    ensures StandsInvariant(next)
  {
    SameStands(st, next);
  }

  lemma CommittedStands(st: State, flight: seq<Token>, c: ConnectionId, e: Event, o: Outcome)
    requires StandsInvariant(st)
    ensures StandsInvariant(Committed(st.(flight := flight), c, e, o))
  {
    SameStands(st, Committed(st.(flight := flight), c, e, o));
  }

  lemma NextKeepsStands(st: State, s: Step)
    requires StandsInvariant(st) && Enabled(st, s)
    ensures StandsInvariant(Next(st, s))
  {
    match s
    case Connect(d, w) => ConnectStands(st, d, w);
    case Ask(d, r, limits) => AskStands(st, d, r, limits);
    case Announce(k) => AnnounceStands(st, k);
    case Deliver(k) => BroadcastStands(st, NextDeliver(st, k), st.flight[k].to, st.flight[k].event);
    case Stream(k, e) => ReplyStands(st, NextStream(st, k, e), st.fetches[k], EventMessage(st.fetches[k].id, e));
    case Finish(k) => ReplyStands(st, NextFinish(st, k), st.fetches[k], EndOfStoredEvents(st.fetches[k].id));
    case Publish(c, e) => CommittedStands(st, st.flight, c, e, Commit(st.db, e));
    case StoreDelete(k) =>
      var t := st.flight[k];
      CommittedStands(st, Remove(st.flight, k), t.connection, t.event, Commit(st.db, t.event));
    case DeleteTargets(c, e) => SameStands(st, NextDeleteTargets(st, c, e));
    case Forward(k) => SameStands(st, NextForward(st, k));
    case Snapshot(k) => SameStands(st, NextSnapshot(st, k));
  }

  lemma {:induction false} ExecKeepsStands(workers: seq<WorkerId>, steps: seq<Step>)
    ensures Exec(Initial(workers), steps).Some? ==> StandsInvariant(Exec(Initial(workers), steps).value)
  {
    if steps != [] && Exec(Initial(workers), steps).Some? {
      var front := steps[..|steps| - 1];
      ExecKeepsStands(workers, front);
      NextKeepsStands(Exec(Initial(workers), front).value, steps[|steps| - 1]);
    }
  }

  lemma ReachableStands(st: State)
    requires Reachable(st)
    ensures StandsInvariant(st)
  {
    var workers, steps :| DistinctWorkers(workers) && Exec(Initial(workers), steps) == Some(st);
    ExecKeepsStands(workers, steps);
  }

  // ---- what it was sent -----------------------------------------------------------------

  lemma {:induction false} InAnswers(replies: seq<Answer>, r: nat, m: OutgoingMessage)
    ensures m in Answers(replies, r) <==> Answer(r, m) in replies
  {
    if replies != [] {
      var front, last := replies[..|replies| - 1], replies[|replies| - 1];
      assert replies == front + [last];
      InAnswers(front, r, m);
    }
  }

  /** A subscription's own query has sent it exactly what the query found. */
  lemma QuerySent(st: State, c: ConnectionId, id: SubscriptionId, e: Event)
    requires Reachable(st) && Quiescent(st) && c in st.connections && st.connections[c].client.open
    requires Get(st.connections[c].client.table, id).Some? && Get(st.connections[c].client.table, id).value != []
    ensures id in st.connections[c].registrations
    ensures var r := st.connections[c].registrations[id].number;
            r in st.shown && (Answer(r, EventMessage(id, e)) in st.connections[c].replies <==> e in st.shown[r])
  {
    ReachableStands(st);
    assert StandsAsAsked(st, c, id);
    var r := st.connections[c].registrations[id].number;
    assert Done(st, r);
    AnsweredCompletely(st, r);
    var ms := AnswersOf(st, c, r);
    InAnswers(st.connections[c].replies, r, EventMessage(id, e));
    assert EventMessage(id, e) in ms <==> multiset(ms)[EventMessage(id, e)] > 0;
  }

  /** In every run, once nothing is in flight: a stored event that an open subscription asks for was sent on
      it since its registration if and only if the event's broadcast was not lost, or the registration's own
      query found it; unless that query found it deleted. */
  lemma SentExactlyWhen(st: State, c: ConnectionId, id: SubscriptionId, filters: seq<Filter>, e: Event)
    requires Reachable(st) && Quiescent(st) && Wanted(st, c, id, filters, e)
    requires id in st.connections[c].registrations ==>
      !FoundDeleted(st, st.connections[c].registrations[id].number, e)
    ensures id in st.connections[c].registrations && st.connections[c].registrations[id].number in st.shown
    ensures SentSince(st.connections[c], id, e)
            <==> e !in st.lost || e in st.shown[st.connections[c].registrations[id].number]
  {
    NoGapBetweenHistoryAndLive(st, c, id, filters, e);
    QuerySent(st, c, id, e);
    LiveAtMostOnce(st, c, id, e);
    var connection := st.connections[c];
    var from := connection.registrations[id].heardFrom;
    if from <= |connection.live| && EventMessage(id, e) in connection.live[from..] {
      assert EventMessage(id, e) in connection.live;
    }
  }

  /** Asking again brings an event that the subscription was not sent if and only if its broadcast was lost
      and the present registration's query was too early for it. */
  lemma FreshQueryBrings(st: State, c: ConnectionId, id: SubscriptionId, filters: seq<Filter>, e: Event)
    requires Reachable(st) && Quiescent(st) && Subscribed(st, c, id, filters) && e in Results(st.db, filters)
    ensures id in st.connections[c].registrations && st.connections[c].registrations[id].number in st.shown
    ensures !SentSince(st.connections[c], id, e)
            <==> e in st.lost && e !in st.shown[st.connections[c].registrations[id].number]
  {
    ReachableGap(st);
    ResultsSound(st.db, st.accepted, filters, e);
    if id in st.connections[c].registrations {
      assert FoundDeleted(st, st.connections[c].registrations[id].number, e) ==>
          Buried(st.db.rows, st.accepted, ToBuffer(e.id));
    }
    SentExactlyWhen(st, c, id, filters, e);
  }
}
