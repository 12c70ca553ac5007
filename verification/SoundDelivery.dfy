/** Nothing is sent on a subscription that it did not ask for. */
module SoundDelivery {
  import AtMostOnce
  import opened EventRepository
  import opened Events
  import NoGap
  import opened Relay
  import opened RelayStore
  import opened Subscriptions
  import opened Wrappers

  /** The event was sent under the id, on whichever registration of it. */
  predicate Sent(c: Connection, id: SubscriptionId, e: Event) {
    EventMessage(id, e) in c.live || exists a :: a in c.replies && a.message == EventMessage(id, e)
  }

  /** The registration is the connection's, under that id, and one of its filters matches. */
  predicate AskedBy(st: State, r: nat, c: ConnectionId, id: SubscriptionId, e: Event) {
    r in st.asked && st.asked[r].connection == c && st.asked[r].id == id && MatchesAny(st.asked[r].filters, e)
  }

  ghost predicate TablesAsked(st: State) {
    forall c, id | c in st.connections && Get(st.connections[c].client.table, id).Some? ::
      exists r :: r in st.asked && st.asked[r] == Asked(c, id, Get(st.connections[c].client.table, id).value)
  }

  ghost predicate FetchAsked(st: State, f: Fetch) {
    && f.registration in st.asked && st.asked[f.registration] == Asked(f.connection, f.id, f.filters)
    && (f.stage.Streaming? ==> forall e :: e in f.stage.rest ==> e in st.accepted && MatchesAny(f.filters, e))
  }

  ghost predicate MessageAsked(st: State, c: ConnectionId, m: OutgoingMessage) {
    m.EventMessage? ==> m.event in st.accepted && exists r :: AskedBy(st, r, c, m.id, m.event)
  }

  ghost predicate AnswerAsked(st: State, c: ConnectionId, a: Answer) {
    a.message.EventMessage? ==>
      a.message.event in st.accepted && AskedBy(st, a.registration, c, a.message.id, a.message.event)
  }

  ghost predicate SentAsked(st: State) {
    && (forall c, m :: c in st.connections && m in st.connections[c].live ==> MessageAsked(st, c, m))
    && (forall c, a :: c in st.connections && a in st.connections[c].replies ==> AnswerAsked(st, c, a))
  }

  ghost predicate AskedInvariant(st: State) {
    && StoreInvariant(st)
    && (forall c :: c in st.connections ==> DistinctIds(st.connections[c].client.table))
    && (forall r :: r in st.asked ==> r < st.registered)
    && TablesAsked(st)
    && (forall f :: f in st.fetches ==> FetchAsked(st, f))
    && (forall t :: t in st.flight && !t.Unstored? ==> t.event in st.accepted)
    && SentAsked(st)
  }

  // ---- every step keeps it --------------------------------------------------------------

  lemma AskedTables(st: State, d: ConnectionId, r: Request, limits: Option<Limits>)
    requires d in st.connections && DistinctIds(st.connections[d].client.table) && TablesAsked(st)
    requires forall r :: r in st.asked ==> r < st.registered
    ensures TablesAsked(NextAsk(st, d, r, limits))
  {
    var was, next := st.connections[d], NextAsk(st, d, r, limits);
    forall c, id | c in next.connections && Get(next.connections[c].client.table, id).Some?
      ensures exists n ::
                n in next.asked && next.asked[n] == Asked(c, id, Get(next.connections[c].client.table, id).value)
    {
      NoGap.AskedSubscription(was, r, limits, id);
      ClosedTable(was.client, limits, r, id);
      if c == d && Accepts(was.client, limits, r) && r.id == id {
        assert st.registered in next.asked;
      } else {
        var n :| n in st.asked && st.asked[n] == Asked(c, id, Get(st.connections[c].client.table, id).value);
        assert n in next.asked && next.asked[n] == st.asked[n];
      }
    }
  }

  lemma ClosedTable(c: Client, limits: Option<Limits>, r: Request, id: SubscriptionId)
    ensures !Handle(c, limits, r).open && Get(Handle(c, limits, r).table, id).Some? ==>
              !c.open && Handle(c, limits, r) == c
  {
  }

  /** More may be asked and stored: what was asked for stays so. */
  ghost predicate Extends(st: State, next: State) {
    && (forall r :: r in st.asked ==> r in next.asked && next.asked[r] == st.asked[r])
    && st.accepted <= next.accepted
  }

  lemma MoreAsked(st: State, next: State, c: ConnectionId, m: OutgoingMessage)
    requires MessageAsked(st, c, m) && Extends(st, next)
    ensures MessageAsked(next, c, m)
  {
    if m.EventMessage? {
      var r :| AskedBy(st, r, c, m.id, m.event);
      assert AskedBy(next, r, c, m.id, m.event);
    }
  }

  /** Steps that send only what was asked for. */
  lemma SendingAsked(st: State, next: State)
    requires SentAsked(st) && Extends(st, next)
    requires forall c, m :: c in next.connections && m in next.connections[c].live ==>
      (c in st.connections && m in st.connections[c].live) || MessageAsked(st, c, m)
    requires forall c, a :: c in next.connections && a in next.connections[c].replies ==>
      (c in st.connections && a in st.connections[c].replies) || AnswerAsked(st, c, a)
    ensures SentAsked(next)
  {
    forall c, m | c in next.connections && m in next.connections[c].live ensures MessageAsked(next, c, m) {
      MoreAsked(st, next, c, m);
    }
    forall c, a | c in next.connections && a in next.connections[c].replies ensures AnswerAsked(next, c, a) {
      assert AnswerAsked(st, c, a);
    }
  }

  lemma HandledAsked(st: State, d: ConnectionId, r: Request, accepted: bool, client: Client)
    requires AskedInvariant(st) && d in st.connections && (accepted ==> r.Req?)
    requires DistinctIds(client.table) && TablesAsked(Handled(st, d, r, accepted, client))
    ensures AskedInvariant(Handled(st, d, r, accepted, client))
  {
    var next := Handled(st, d, r, accepted, client);
    forall f | f in next.fetches ensures FetchAsked(next, f) {
      assert f in st.fetches ==> FetchAsked(st, f);
    }
    HandledSends(st, d, r, accepted, client);
  }

  lemma HandledSends(st: State, d: ConnectionId, r: Request, accepted: bool, client: Client)
    requires SentAsked(st) && d in st.connections && (accepted ==> r.Req?)
    requires forall r :: r in st.asked ==> r < st.registered
    ensures SentAsked(Handled(st, d, r, accepted, client))
  {
    SendingAsked(st, Handled(st, d, r, accepted, client));
  }

  /** Steps that keep clients and what was asked. */
  lemma SameAsked(st: State, next: State)
    requires AskedInvariant(st) && StoreInvariant(next)
    requires next.asked == st.asked && next.registered == st.registered && st.accepted <= next.accepted
    requires next.connections.Keys == st.connections.Keys
    requires forall c :: c in st.connections ==> next.connections[c].client == st.connections[c].client
    requires forall f :: f in next.fetches ==> FetchAsked(st, f)
    requires forall t :: t in next.flight && !t.Unstored? ==> t.event in next.accepted
    requires SentAsked(next)
    ensures AskedInvariant(next)
  {
    forall f | f in next.fetches ensures FetchAsked(next, f) {
      assert FetchAsked(st, f);
    }
    forall c, id | c in next.connections && Get(next.connections[c].client.table, id).Some?
      ensures exists r ::
                r in next.asked && next.asked[r] == Asked(c, id, Get(next.connections[c].client.table, id).value)
    {
      assert Get(st.connections[c].client.table, id).Some?;
    }
  }

  lemma CommittedAsked(st: State, d: ConnectionId, a: Event, o: Outcome)
    requires AskedInvariant(st) && StoreInvariant(Committed(st, d, a, o))
    ensures AskedInvariant(Committed(st, d, a, o))
  {
    SendingAsked(st, Committed(st, d, a, o));
    SameAsked(st, Committed(st, d, a, o));
  }

  lemma HearAsked(st: State, w: WorkerId, a: Event, c: ConnectionId, m: OutgoingMessage)
    requires AskedInvariant(st) && a in st.accepted && c in st.connections
    requires m in Broadcast(st.connections, w, a)[c].live
    ensures m in st.connections[c].live || MessageAsked(st, c, m)
  {
    var table := st.connections[c].client.table;
    LiveMessagesExact(table, a, m);
    assert m in LiveMessages(table, a) <==> multiset(LiveMessages(table, a))[m] > 0;
    if m !in st.connections[c].live {
      var r :| r in st.asked && st.asked[r] == Asked(c, m.id, Get(table, m.id).value);
      assert AskedBy(st, r, c, m.id, m.event);
    }
  }

  lemma BroadcastAsked(st: State, next: State, w: WorkerId, a: Event)
    requires AskedInvariant(st) && StoreInvariant(next) && a in st.accepted
    requires next.asked == st.asked && next.accepted == st.accepted && next.registered == st.registered
    requires next.fetches == st.fetches && next.connections == Broadcast(st.connections, w, a)
    requires forall t :: t in next.flight && !t.Unstored? ==> t.event in next.accepted
    ensures AskedInvariant(next)
  {
    forall c, m | c in next.connections && m in next.connections[c].live
      ensures m in st.connections[c].live || MessageAsked(st, c, m)
    {
      HearAsked(st, w, a, c, m);
    }
    SendingAsked(st, next);
    SameAsked(st, next);
  }

  lemma AnnouncedTokens(flight: seq<Token>, k: nat, from: WorkerId, accepted: set<Event>)
    requires k < |flight| && (forall t :: t in flight && !t.Unstored? ==> t.event in accepted) && !flight[k].Unstored?
    ensures flight[k].event in accepted
    ensures forall t :: t in Remove(flight, k) + [ToPrimary(from, flight[k].event)] && !t.Unstored? ==>
              t.event in accepted
    ensures forall t :: t in Remove(flight, k) && !t.Unstored? ==> t.event in accepted
  {
    assert flight[k] in flight;
  }

  lemma AnnounceAsked(st: State, k: nat)
    requires Enabled(st, Announce(k)) && AskedInvariant(st) && StoreInvariant(NextAnnounce(st, k))
    ensures AskedInvariant(NextAnnounce(st, k))
  {
    var t := st.flight[k];
    var publisher, next := st.connections[t.connection], NextAnnounce(st, k);
    AnnouncedTokens(st.flight, k, publisher.worker, st.accepted);
    if publisher.client.open {
      BroadcastAsked(st, next, publisher.worker, t.event);
    } else {
      TokensAsked(st, next);
    }
  }

  /** Steps that change nothing but tokens and what is lost. */
  lemma TokensAsked(st: State, next: State)
    requires AskedInvariant(st) && StoreInvariant(next)
    requires next == st.(flight := next.flight, lost := next.lost)
    requires forall t :: t in next.flight && !t.Unstored? ==> t.event in st.accepted
    ensures AskedInvariant(next)
  {
    SendingAsked(st, next);
    SameAsked(st, next);
  }

  lemma ForwardedTokens(flight: seq<Token>, k: nat, workers: seq<WorkerId>, from: WorkerId, accepted: set<Event>)
    requires k < |flight| && (forall t :: t in flight && !t.Unstored? ==> t.event in accepted) && !flight[k].Unstored?
    ensures forall t :: t in Remove(flight, k) + Fanout(workers, from, flight[k].event) && !t.Unstored? ==>
              t.event in accepted
  {
    assert flight[k] in flight;
    FanoutTokens(workers, from, flight[k].event);
  }

  lemma ForwardAsked(st: State, k: nat)
    requires Enabled(st, Forward(k)) && AskedInvariant(st) && StoreInvariant(NextForward(st, k))
    ensures AskedInvariant(NextForward(st, k))
  {
    var t := st.flight[k];
    ForwardedTokens(st.flight, k, st.workers, t.from, st.accepted);
    TokensAsked(st, NextForward(st, k));
  }

  lemma RemoveUnstoredAsked(st: State, k: nat)
    requires Enabled(st, StoreDelete(k)) && AskedInvariant(st)
    ensures AskedInvariant(st.(flight := Remove(st.flight, k)))
  {
    TokensAsked(st, st.(flight := Remove(st.flight, k)));
  }

  lemma DeliverAsked(st: State, k: nat)
    requires Enabled(st, Deliver(k)) && AskedInvariant(st) && StoreInvariant(NextDeliver(st, k))
    ensures AskedInvariant(NextDeliver(st, k))
  {
    assert st.flight[k] in st.flight;
    BroadcastAsked(st, NextDeliver(st, k), st.flight[k].to, st.flight[k].event);
  }

  lemma ResultsAsked(st: State, filters: seq<Filter>, e: Event)
    requires StoreInvariant(st) && e in Results(st.db, filters)
    ensures e in st.accepted && MatchesAny(filters, e)
  {
    NoGap.ResultsSound(st.db, st.accepted, filters, e);
  }

  lemma SnapshotFetches(st: State, fetches: seq<Fetch>, k: nat, results: multiset<Event>)
    requires AskedInvariant(st) && fetches == st.fetches && k < |fetches|
    requires results == Results(st.db, fetches[k].filters)
    ensures forall g :: g in fetches[k := fetches[k].(stage := Streaming(results))] ==> FetchAsked(st, g)
  {
    var f := fetches[k];
    assert FetchAsked(st, f);
    forall e | e in results ensures e in st.accepted && MatchesAny(f.filters, e) {
      ResultsAsked(st, f.filters, e);
    }
    forall g | g in fetches[k := f.(stage := Streaming(results))] ensures FetchAsked(st, g) {
      assert g in fetches ==> FetchAsked(st, g);
    }
  }

  lemma SnapshotAsked(st: State, k: nat)
    requires Enabled(st, Snapshot(k)) && AskedInvariant(st) && StoreInvariant(NextSnapshot(st, k))
    ensures AskedInvariant(NextSnapshot(st, k))
  {
    var f, next := st.fetches[k], NextSnapshot(st, k);
    SnapshotFetches(st, st.fetches, k, Results(st.db, f.filters));
    SendingAsked(st, next);
    SameAsked(st, next);
  }

  /** A query's reply, and what is left of its queries. */
  lemma ReplyAsked(st: State, next: State, k: nat, m: OutgoingMessage)
    requires AskedInvariant(st) && StoreInvariant(next)
    requires k < |st.fetches| && st.fetches[k].connection in st.connections
    requires next == st.(fetches := next.fetches, connections := Replied(st.connections, st.fetches[k], m))
    requires forall f :: f in next.fetches ==> FetchAsked(st, f)
    requires AnswerAsked(st, st.fetches[k].connection, Answer(st.fetches[k].registration, m))
    ensures AskedInvariant(next)
  {
    SendingAsked(st, next);
    SameAsked(st, next);
  }

  lemma StreamAsked(st: State, k: nat, e: Event)
    requires Enabled(st, Stream(k, e)) && AskedInvariant(st) && StoreInvariant(NextStream(st, k, e))
    ensures AskedInvariant(NextStream(st, k, e))
  {
    var f, next := st.fetches[k], NextStream(st, k, e);
    assert f in st.fetches && FetchAsked(st, f);
    forall g | g in next.fetches ensures FetchAsked(st, g) {
      assert g in st.fetches ==> FetchAsked(st, g);
    }
    ReplyAsked(st, next, k, EventMessage(f.id, e));
  }

  lemma FinishAsked(st: State, k: nat)
    requires Enabled(st, Finish(k)) && AskedInvariant(st) && StoreInvariant(NextFinish(st, k))
    ensures AskedInvariant(NextFinish(st, k))
  {
    var next := NextFinish(st, k);
    forall g | g in next.fetches ensures FetchAsked(st, g) {
      assert g in st.fetches;
    }
    ReplyAsked(st, next, k, EndOfStoredEvents(st.fetches[k].id));
  }

  lemma ConnectAsked(st: State, c: ConnectionId, w: WorkerId)
    requires Enabled(st, Connect(c, w)) && AskedInvariant(st) && StoreInvariant(NextConnect(st, c, w))
    ensures AskedInvariant(NextConnect(st, c, w))
  {
    var next := NextConnect(st, c, w);
    SendingAsked(st, next);
    forall f | f in next.fetches ensures FetchAsked(next, f) {
      assert FetchAsked(st, f);
    }
  }

  lemma DeleteTargetsAsked(st: State, c: ConnectionId, a: Event)
    requires Enabled(st, DeleteTargets(c, a)) && AskedInvariant(st) && StoreInvariant(NextDeleteTargets(st, c, a))
    ensures AskedInvariant(NextDeleteTargets(st, c, a))
  {
    var next := NextDeleteTargets(st, c, a);
    SendingAsked(st, next);
    SameAsked(st, next);
  }

  lemma NextKeepsAsked(st: State, s: Step)
    requires AskedInvariant(st) && Enabled(st, s)
    ensures AskedInvariant(Next(st, s))
  {
    NextKeepsStore(st, s);
    match s
    case Connect(c, w) => ConnectAsked(st, c, w);
    case Ask(c, r, limits) =>
      var was := st.connections[c].client;
      AtMostOnce.AskKeepsDistinctIds(was, limits, r);
      AskedTables(st, c, r, limits);
      HandledAsked(st, c, r, Accepts(was, limits, r), Handle(was, limits, r));
    case Publish(c, e) => CommittedAsked(st, c, e, Commit(st.db, e));
    case DeleteTargets(c, e) => DeleteTargetsAsked(st, c, e);
    case StoreDelete(k) =>
      var t := st.flight[k];
      RemoveUnstoredAsked(st, k);
      CommittedAsked(st.(flight := Remove(st.flight, k)), t.connection, t.event, Commit(st.db, t.event));
    case Announce(k) => AnnounceAsked(st, k);
    case Forward(k) => ForwardAsked(st, k);
    case Deliver(k) => DeliverAsked(st, k);
    case Snapshot(k) => SnapshotAsked(st, k);
    case Stream(k, e) => StreamAsked(st, k, e);
    case Finish(k) => FinishAsked(st, k);
  }

  lemma {:induction false} ExecKeepsAsked(workers: seq<WorkerId>, steps: seq<Step>)
    ensures Exec(Initial(workers), steps).Some? ==> AskedInvariant(Exec(Initial(workers), steps).value)
  {
    if steps == [] {
      ExecKeepsStore(workers, steps);
    } else if Exec(Initial(workers), steps).Some? {
      var front := steps[..|steps| - 1];
      ExecKeepsAsked(workers, front);
      NextKeepsAsked(Exec(Initial(workers), front).value, steps[|steps| - 1]);
    }
  }

  lemma ReachableAsked(st: State)
    requires Reachable(st)
    ensures AskedInvariant(st)
  {
    var workers, steps :| DistinctWorkers(workers) && Exec(Initial(workers), steps) == Some(st);
    ExecKeepsAsked(workers, steps);
  }

  /** In every run, every event that a query sends was stored, and matches the filters of that query's own
      registration. */
  lemma QueriesSendWhatWasAskedFor(st: State, c: ConnectionId, r: nat, id: SubscriptionId, e: Event)
    requires Reachable(st) && c in st.connections && Answer(r, EventMessage(id, e)) in st.connections[c].replies
    ensures e in st.accepted && AskedBy(st, r, c, id, e)
  {
    ReachableAsked(st);
    assert AnswerAsked(st, c, Answer(r, EventMessage(id, e)));
  }

  /** Whatever was sent was stored before. */
  lemma OnlyStoredIsSent(st: State, c: ConnectionId, id: SubscriptionId, e: Event)
    requires Reachable(st) && c in st.connections && Sent(st.connections[c], id, e)
    ensures e in st.accepted
  {
    ReachableAsked(st);
    if EventMessage(id, e) in st.connections[c].live {
      assert MessageAsked(st, c, EventMessage(id, e));
    } else {
      var a :| a in st.connections[c].replies && a.message == EventMessage(id, e);
      assert AnswerAsked(st, c, a);
    }
  }

  // ---- live messages --------------------------------------------------------------------

  /** The message is an event for a subscription that is open at this moment and has a matching filter. */
  ghost predicate Stands(st: State, c: ConnectionId, m: OutgoingMessage) {
    && c in st.connections && st.connections[c].client.open && m.EventMessage?
    && m.event in st.accepted
    && Get(st.connections[c].client.table, m.id).Some?
    && MatchesAny(Get(st.connections[c].client.table, m.id).value, m.event)
  }

  /** What the connection had been sent live, nothing before it connected. */
  function LiveOf(st: State, c: ConnectionId): seq<OutgoingMessage> {
    if c in st.connections then st.connections[c].live else []
  }

  lemma BroadcastStands(st: State, w: WorkerId, a: Event, c: ConnectionId, i: nat)
    requires c in st.connections && DistinctIds(st.connections[c].client.table) && a in st.accepted
    ensures st.connections[c].live <= Broadcast(st.connections, w, a)[c].live
    ensures |st.connections[c].live| <= i < |Broadcast(st.connections, w, a)[c].live| ==>
              Stands(st, c, Broadcast(st.connections, w, a)[c].live[i])
  {
    var was, now := st.connections[c], Broadcast(st.connections, w, a)[c];
    if |was.live| <= i < |now.live| {
      var heard := LiveMessages(was.client.table, a);
      var m := now.live[i];
      assert m == heard[i - |was.live|] && m in heard;
      LiveMessagesExact(was.client.table, a, m);
      assert m in heard <==> multiset(heard)[m] > 0;
    }
  }

  lemma BroadcastSendsToStanding(st: State, next: State, w: WorkerId, a: Event, c: ConnectionId, i: nat)
    requires AskedInvariant(st) && a in st.accepted && next.connections == Broadcast(st.connections, w, a)
    ensures LiveOf(st, c) <= LiveOf(next, c)
    ensures |LiveOf(st, c)| <= i < |LiveOf(next, c)| ==> Stands(st, c, LiveOf(next, c)[i])
  {
    if c in st.connections { BroadcastStands(st, w, a, c, i); }
  }

  lemma AnnounceSendsToStanding(st: State, k: nat, c: ConnectionId, i: nat)
    requires Enabled(st, Announce(k)) && AskedInvariant(st)
    ensures LiveOf(st, c) <= LiveOf(NextAnnounce(st, k), c)
    ensures |LiveOf(st, c)| <= i < |LiveOf(NextAnnounce(st, k), c)| ==> Stands(st, c, LiveOf(NextAnnounce(st, k), c)[i])
  {
    var t := st.flight[k];
    var publisher := st.connections[t.connection];
    assert t in st.flight;
    if publisher.client.open {
      BroadcastSendsToStanding(st, NextAnnounce(st, k), publisher.worker, t.event, c, i);
    }
  }

  lemma DeliverSendsToStanding(st: State, k: nat, c: ConnectionId, i: nat)
    requires Enabled(st, Deliver(k)) && AskedInvariant(st)
    ensures LiveOf(st, c) <= LiveOf(NextDeliver(st, k), c)
    ensures |LiveOf(st, c)| <= i < |LiveOf(NextDeliver(st, k), c)| ==> Stands(st, c, LiveOf(NextDeliver(st, k), c)[i])
  {
    assert st.flight[k] in st.flight;
    BroadcastSendsToStanding(st, NextDeliver(st, k), st.flight[k].to, st.flight[k].event, c, i);
  }

  lemma AskSendsNothing(st: State, d: ConnectionId, r: Request, limits: Option<Limits>, c: ConnectionId)
    requires d in st.connections
    ensures LiveOf(NextAsk(st, d, r, limits), c) == LiveOf(st, c)
  {
  }

  lemma OtherStepsSendNothing(st: State, s: Step, c: ConnectionId)
    requires Enabled(st, s) && !s.Announce? && !s.Deliver?
    ensures LiveOf(Next(st, s), c) == LiveOf(st, c)
  {
    match s
    case Ask(d, r, limits) => AskSendsNothing(st, d, r, limits, c);
    case _ =>
  }

  /** Whatever a step sends live, it sends to a subscription that stands. */
  lemma StepSendsToStanding(st: State, s: Step, c: ConnectionId, i: nat)
    requires AskedInvariant(st) && Enabled(st, s)
    ensures LiveOf(st, c) <= LiveOf(Next(st, s), c)
    ensures |LiveOf(st, c)| <= i < |LiveOf(Next(st, s), c)| ==> Stands(st, c, LiveOf(Next(st, s), c)[i])
  {
    match s
    case Announce(k) => AnnounceSendsToStanding(st, k, c, i);
    case Deliver(k) => DeliverSendsToStanding(st, k, c, i);
    case _ => OtherStepsSendNothing(st, s, c);
  }

  /** The state before step k of a run, if the run gets that far. */
  ghost function Before(workers: seq<WorkerId>, steps: seq<Step>, k: nat): Option<State>
    requires k <= |steps|
  {
    Exec(Initial(workers), steps[..k])
  }

  /** Step k of the run sent the connection its live message i, for a subscription that stood. */
  ghost predicate SentByStep(workers: seq<WorkerId>, steps: seq<Step>, k: nat, c: ConnectionId, i: nat,
                             m: OutgoingMessage)
    requires k < |steps|
  {
    var before, after := Before(workers, steps, k), Before(workers, steps, k + 1);
    && before.Some? && after.Some?
    && |LiveOf(before.value, c)| <= i < |LiveOf(after.value, c)| && LiveOf(after.value, c)[i] == m
    && Stands(before.value, c, m)
  }

  lemma {:induction false} SentByStepUpTo(workers: seq<WorkerId>, steps: seq<Step>, n: nat, c: ConnectionId, i: nat)
    requires n <= |steps| && Before(workers, steps, n).Some? && i < |LiveOf(Before(workers, steps, n).value, c)|
    ensures exists k: nat :: k < n && SentByStep(workers, steps, k, c, i, LiveOf(Before(workers, steps, n).value, c)[i])
  {
    if n > 0 {
      assert steps[..n][..n - 1] == steps[..n - 1];
      var before := Before(workers, steps, n - 1).value;
      ExecKeepsAsked(workers, steps[..n - 1]);
      StepSendsToStanding(before, steps[n - 1], c, i);
      if i < |LiveOf(before, c)| {
        SentByStepUpTo(workers, steps, n - 1, c, i);
      } else {
        assert SentByStep(workers, steps, n - 1, c, i, LiveOf(Before(workers, steps, n).value, c)[i]);
      }
    }
  }

  /** In every run, every live message was sent by a step at which its subscription was open on that
      connection with a matching filter: nothing is sent live after a CLOSE or a disconnect. */
  lemma LiveWhileStanding(workers: seq<WorkerId>, steps: seq<Step>, c: ConnectionId, i: nat)
    requires Exec(Initial(workers), steps).Some? && i < |LiveOf(Exec(Initial(workers), steps).value, c)|
    ensures exists k: nat ::
              k < |steps| && SentByStep(workers, steps, k, c, i, LiveOf(Exec(Initial(workers), steps).value, c)[i])
  {
    assert steps[..|steps|] == steps;
    SentByStepUpTo(workers, steps, |steps|, c, i);
  }
}
