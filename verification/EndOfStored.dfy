/** The answer to each registration: what its query found, with repetitions, then one end-of-stored-events. */
module EndOfStored {
  import opened EventRepository
  import opened Events
  import NoGap
  import opened Relay
  import opened Subscriptions
  import opened Wrappers

  /** What the query of one registration has sent so far, in order. */
  function Answers(replies: seq<Answer>, r: nat): seq<OutgoingMessage> {
    if replies == [] then []
    else
      var last := replies[|replies| - 1];
      Answers(replies[..|replies| - 1], r) + if last.registration == r then [last.message] else []
  }

  lemma AnswersNext(replies: seq<Answer>, a: Answer, r: nat)
    ensures Answers(replies + [a], r) == Answers(replies, r) + if a.registration == r then [a.message] else []
  {
    assert (replies + [a])[..|replies|] == replies;
  }

  lemma {:induction false} NoAnswers(replies: seq<Answer>, r: nat)
    requires forall a :: a in replies ==> a.registration != r
    ensures Answers(replies, r) == []
  {
    if replies != [] { NoAnswers(replies[..|replies| - 1], r); }
  }

  /** Each of the events as often as given, under the id, and nothing else. */
  ghost predicate Enumerates(ms: seq<OutgoingMessage>, id: SubscriptionId, events: multiset<Event>) {
    forall m: OutgoingMessage ::
      multiset(ms)[m] == if m.EventMessage? && m.id == id then events[m.event] else 0
  }

  lemma EnumeratesNext(ms: seq<OutgoingMessage>, id: SubscriptionId, events: multiset<Event>, e: Event)
    requires Enumerates(ms, id, events)
    ensures Enumerates(ms + [EventMessage(id, e)], id, events + multiset{e})
  {
  }

  /** All the events, and then the one end-of-stored-events. */
  ghost predicate Complete(ms: seq<OutgoingMessage>, id: SubscriptionId, events: multiset<Event>) {
    && ms != [] && ms[|ms| - 1] == EndOfStoredEvents(id)
    && Enumerates(ms[..|ms| - 1], id, events)
  }

  lemma CompleteCounts(ms: seq<OutgoingMessage>, id: SubscriptionId, events: multiset<Event>)
    requires Complete(ms, id, events)
    ensures multiset(ms)[EndOfStoredEvents(id)] == 1
    ensures forall e :: multiset(ms)[EventMessage(id, e)] == events[e]
  {
    var front := ms[..|ms| - 1];
    assert ms == front + [EndOfStoredEvents(id)];
    assert multiset(ms) == multiset(front) + multiset{EndOfStoredEvents(id)};
  }

  function AnswersOf(st: State, c: ConnectionId, r: nat): seq<OutgoingMessage>
    requires c in st.connections
  {
    Answers(st.connections[c].replies, r)
  }

  /** What a running query has sent, as long as its connection is open. */
  ghost predicate Underway(st: State, f: Fetch) {
    && f.registration in st.asked && st.asked[f.registration] == Asked(f.connection, f.id, f.filters)
    && f.connection in st.connections
    && (st.connections[f.connection].client.open ==>
          match f.stage
          case Issued => AnswersOf(st, f.connection, f.registration) == []
          case Streaming(rest) =>
            && f.registration in st.shown && rest <= st.shown[f.registration]
            && Enumerates(AnswersOf(st, f.connection, f.registration), f.id, st.shown[f.registration] - rest))
  }

  predicate Runs(fetches: seq<Fetch>, r: nat) {
    exists f :: f in fetches && f.registration == r
  }

  /** The registration asked for something, its connection is open, and its query no longer runs. */
  predicate Done(st: State, r: nat) {
    && r in st.asked && st.asked[r].filters != [] && !Runs(st.fetches, r)
    && st.asked[r].connection in st.connections && st.connections[st.asked[r].connection].client.open
  }

  ghost predicate Answered(st: State, r: nat) {
    Done(st, r) ==> r in st.shown && Complete(AnswersOf(st, st.asked[r].connection, r), st.asked[r].id, st.shown[r])
  }

  ghost predicate AnswerInvariant(st: State) {
    && NoGap.FetchedOnce(st)
    && (forall r :: r in st.asked ==> r < st.registered && st.asked[r].connection in st.connections)
    && (forall c, a :: c in st.connections && a in st.connections[c].replies ==> a.registration < st.registered)
    && (forall f :: f in st.fetches ==> Underway(st, f))
    && (forall r :: Answered(st, r))
  }

  // ---- every step keeps it --------------------------------------------------------------

  /** Steps that send no answer, run no query, and open no connection. */
  lemma NothingAnswered(st: State, next: State)
    requires AnswerInvariant(st)
    requires next.fetches == st.fetches && next.asked == st.asked && next.shown == st.shown
    requires next.registered == st.registered && next.buried == st.buried
    requires next.connections.Keys == st.connections.Keys
    requires forall c :: c in st.connections ==>
      && next.connections[c].replies == st.connections[c].replies
      && (next.connections[c].client.open ==> st.connections[c].client.open)
    ensures AnswerInvariant(next)
  {
    forall f | f in next.fetches ensures Underway(next, f) {
      assert Underway(st, f);
    }
    forall r ensures Answered(next, r) {
      assert Answered(st, r);
    }
  }

  lemma ConnectAnswers(st: State, c: ConnectionId, w: WorkerId)
    requires AnswerInvariant(st) && Enabled(st, Connect(c, w))
    ensures AnswerInvariant(NextConnect(st, c, w))
  {
    var next := NextConnect(st, c, w);
    forall f | f in next.fetches ensures Underway(next, f) {
      assert Underway(st, f);
    }
    forall r ensures Answered(next, r) {
      assert Answered(st, r);
    }
  }

  lemma RegisterUnderway(st: State, c: ConnectionId, r: Request, client: Client, f: Fetch)
    requires AnswerInvariant(st) && c in st.connections && r.Req?
    requires client.open ==> st.connections[c].client.open
    requires f in Handled(st, c, r, true, client).fetches
    ensures Underway(Handled(st, c, r, true, client), f)
  {
    NoAnswers(st.connections[c].replies, st.registered);
    if f in st.fetches {
      assert Underway(st, f);
    }
  }

  lemma RegisterAnswered(st: State, c: ConnectionId, r: Request, client: Client, m: nat)
    requires AnswerInvariant(st) && c in st.connections && r.Req?
    requires client.open ==> st.connections[c].client.open
    ensures Answered(Handled(st, c, r, true, client), m)
  {
    var next := Handled(st, c, r, true, client);
    assert Answered(st, m);
    assert Unique(r.filters) != [] ==> Fetch(c, st.registered, r.id, Unique(r.filters), Issued) in next.fetches;
    assert forall f :: f in st.fetches ==> f in next.fetches;
  }

  lemma RegisterAnswers(st: State, c: ConnectionId, r: Request, client: Client)
    requires AnswerInvariant(st) && c in st.connections && r.Req?
    requires client.open ==> st.connections[c].client.open
    ensures AnswerInvariant(Handled(st, c, r, true, client))
  {
    var next := Handled(st, c, r, true, client);
    NoGap.HandledFetchedOnce(st, c, r, true, client);
    forall f | f in next.fetches ensures Underway(next, f) {
      RegisterUnderway(st, c, r, client, f);
    }
    forall m ensures Answered(next, m) {
      RegisterAnswered(st, c, r, client, m);
    }
  }

  lemma AskAnswers(st: State, c: ConnectionId, r: Request, accepted: bool, client: Client)
    requires AnswerInvariant(st) && c in st.connections && (accepted ==> r.Req?)
    requires client.open ==> st.connections[c].client.open
    ensures AnswerInvariant(Handled(st, c, r, accepted, client))
  {
    if accepted {
      RegisterAnswers(st, c, r, client);
    } else {
      NothingAnswered(st, Handled(st, c, r, accepted, client));
    }
  }

  /** A query that advances: what it sent is as its new stage says, and all others are as they were. */
  lemma AdvanceAnswers(st: State, next: State, k: nat, now: Fetch)
    requires AnswerInvariant(st) && k < |st.fetches|
    requires now.registration == st.fetches[k].registration && now.stage.Streaming?
    requires next.fetches == st.fetches[k := now] && NoGap.FetchedOnce(next)
    requires next.asked == st.asked && next.registered == st.registered
    requires next.connections.Keys == st.connections.Keys
    requires forall c :: c in st.connections ==> next.connections[c].client == st.connections[c].client
    requires forall r :: r != now.registration ==>
      (r in next.shown <==> r in st.shown) && (r in st.shown ==> next.shown[r] == st.shown[r])
    requires forall c, r: nat :: c in st.connections && r != now.registration ==>
               AnswersOf(next, c, r) == AnswersOf(st, c, r)
    requires forall c, a :: c in next.connections && a in next.connections[c].replies ==> a.registration < st.registered
    requires Underway(next, now)
    ensures AnswerInvariant(next)
  {
    NoGap.AdvanceFetchedOnce(st.fetches, k, now);
    forall f | f in next.fetches ensures Underway(next, f) {
      if f != now { assert Underway(st, f); }
    }
    forall r ensures Answered(next, r) {
      assert Answered(st, r);
      if Done(next, r) {
        assert now in next.fetches by { assert next.fetches[k] == now; }
        forall f | f in st.fetches ensures f.registration != r {
          NoGap.UpdateKeeps(st.fetches, k, now, f);
        }
      }
    }
  }

  lemma SnapshotAnswers(st: State, k: nat)
    requires AnswerInvariant(st) && Enabled(st, Snapshot(k))
    ensures AnswerInvariant(NextSnapshot(st, k))
  {
    var f, next := st.fetches[k], NextSnapshot(st, k);
    var now := f.(stage := Streaming(Results(st.db, f.filters)));
    assert f in st.fetches && Underway(st, f);
    NoGap.SnapshotFetchedOnce(st, k);
    AdvanceAnswers(st, next, k, now);
  }

  lemma ReplyAnswers(connections: map<ConnectionId, Connection>, f: Fetch, m: OutgoingMessage, c: ConnectionId, r: nat)
    requires f.connection in connections && c in connections
    ensures var was, now := connections[c], Replied(connections, f, m)[c];
            && now.(replies := was.replies) == was
            && Answers(now.replies, r)
               == Answers(was.replies, r)
                  + (if c == f.connection && was.client.open && r == f.registration then [m] else [])
            && (forall a :: a in now.replies ==> a in was.replies || a.registration == f.registration)
  {
    if c == f.connection {
      AnswersNext(connections[c].replies, Answer(f.registration, m), r);
    }
  }

  lemma SentOneMore(ms: seq<OutgoingMessage>, id: SubscriptionId, all: multiset<Event>, rest: multiset<Event>,
                    e: Event)
    requires Enumerates(ms, id, all - rest) && rest <= all && e in rest
    ensures Enumerates(ms + [EventMessage(id, e)], id, all - (rest - multiset{e}))
  {
    EnumeratesNext(ms, id, all - rest, e);
    assert all - rest + multiset{e} == all - (rest - multiset{e});
  }

  lemma StreamUnderway(st: State, k: nat, e: Event)
    requires Enabled(st, Stream(k, e)) && Underway(st, st.fetches[k])
    ensures var f := st.fetches[k];
            Underway(NextStream(st, k, e), f.(stage := Streaming(f.stage.rest - multiset{e})))
  {
    var f := st.fetches[k];
    ReplyAnswers(st.connections, f, EventMessage(f.id, e), f.connection, f.registration);
    if st.connections[f.connection].client.open {
      SentOneMore(AnswersOf(st, f.connection, f.registration), f.id, st.shown[f.registration], f.stage.rest, e);
    }
  }

  /** What a reply of one query changes about the answers: nothing but its own. */
  lemma OthersUnanswered(st: State, next: State, f: Fetch, m: OutgoingMessage, c: ConnectionId)
    requires f.connection in st.connections && next.connections == Replied(st.connections, f, m)
    requires c in st.connections
    ensures forall r: nat :: r != f.registration ==> AnswersOf(next, c, r) == AnswersOf(st, c, r)
    ensures forall a :: a in next.connections[c].replies ==>
              a in st.connections[c].replies || a.registration == f.registration
  {
    forall r: nat ensures r != f.registration ==> AnswersOf(next, c, r) == AnswersOf(st, c, r) {
      ReplyAnswers(st.connections, f, m, c, r);
    }
    ReplyAnswers(st.connections, f, m, c, 0);
  }

  lemma RepliedAnswers(st: State, next: State, f: Fetch, m: OutgoingMessage)
    requires AnswerInvariant(st) && f in st.fetches
    requires f.connection in st.connections && next.connections == Replied(st.connections, f, m)
    ensures forall c, r: nat :: c in st.connections && r != f.registration ==>
              AnswersOf(next, c, r) == AnswersOf(st, c, r)
    ensures forall c, a :: c in st.connections && a in next.connections[c].replies ==> a.registration < st.registered
  {
    forall c | c in st.connections
      ensures forall r: nat :: r != f.registration ==> AnswersOf(next, c, r) == AnswersOf(st, c, r)
      ensures forall a :: a in next.connections[c].replies ==> a.registration < st.registered
    {
      OthersUnanswered(st, next, f, m, c);
    }
  }

  lemma StreamAnswers(st: State, k: nat, e: Event)
    requires AnswerInvariant(st) && Enabled(st, Stream(k, e))
    ensures AnswerInvariant(NextStream(st, k, e))
  {
    var f, next := st.fetches[k], NextStream(st, k, e);
    assert f in st.fetches && Underway(st, f);
    NoGap.StreamFetchedOnce(st, k, e);
    StreamUnderway(st, k, e);
    RepliedAnswers(st, next, f, EventMessage(f.id, e));
    AdvanceAnswers(st, next, k, f.(stage := Streaming(f.stage.rest - multiset{e})));
  }

  lemma FinishAnswers(st: State, k: nat)
    requires AnswerInvariant(st) && Enabled(st, Finish(k))
    ensures AnswerInvariant(NextFinish(st, k))
  {
    var f, next := st.fetches[k], NextFinish(st, k);
    assert f in st.fetches && Underway(st, f);
    NoGap.FinishFetchedOnce(st, k);
    RepliedAnswers(st, next, f, EndOfStoredEvents(f.id));
    forall g | g in next.fetches ensures Underway(next, g) {
      RemovedIsOther(st.fetches, k, g);
      assert Underway(st, g);
    }
    forall r ensures Answered(next, r) {
      if r == f.registration {
        FinishComplete(st, k);
      } else if Done(next, r) {
        forall g | g in st.fetches ensures g.registration != r {
          NoGap.UpdateKeeps(st.fetches, k, f, g);
        }
        assert Answered(st, r);
      }
    }
  }

  lemma RemovedIsOther(fetches: seq<Fetch>, k: nat, g: Fetch)
    requires k < |fetches| && NoGap.DistinctRegistrations(fetches) && g in Remove(fetches, k)
    ensures g in fetches && g.registration != fetches[k].registration
  {
    var i :| 0 <= i < |Remove(fetches, k)| && Remove(fetches, k)[i] == g;
    assert g == fetches[if i < k then i else i + 1];
  }

  lemma FinishComplete(st: State, k: nat)
    requires AnswerInvariant(st) && Enabled(st, Finish(k))
    ensures Answered(NextFinish(st, k), st.fetches[k].registration)
  {
    var f := st.fetches[k];
    assert f in st.fetches && Underway(st, f);
    var ms := AnswersOf(st, f.connection, f.registration);
    ReplyAnswers(st.connections, f, EndOfStoredEvents(f.id), f.connection, f.registration);
    assert (ms + [EndOfStoredEvents(f.id)])[..|ms|] == ms;
    if st.connections[f.connection].client.open {
      assert st.shown[f.registration] - multiset{} == st.shown[f.registration];
    }
  }

  lemma CommittedAnswers(st: State, flight: seq<Token>, c: ConnectionId, e: Event, o: Outcome)
    requires AnswerInvariant(st)
    ensures AnswerInvariant(Committed(st.(flight := flight), c, e, o))
  {
    NothingAnswered(st, Committed(st.(flight := flight), c, e, o));
  }

  lemma BroadcastAnswers(st: State, next: State, w: WorkerId, e: Event)
    requires AnswerInvariant(st) && next.connections == Broadcast(st.connections, w, e)
    requires next.fetches == st.fetches && next.asked == st.asked && next.shown == st.shown
    requires next.registered == st.registered && next.buried == st.buried
    ensures AnswerInvariant(next)
  {
    NothingAnswered(st, next);
  }

  lemma AnnounceAnswers(st: State, k: nat)
    requires AnswerInvariant(st) && Enabled(st, Announce(k))
    ensures AnswerInvariant(NextAnnounce(st, k))
  {
    var publisher := st.connections[st.flight[k].connection];
    if publisher.client.open {
      BroadcastAnswers(st, NextAnnounce(st, k), publisher.worker, st.flight[k].event);
    } else {
      NothingAnswered(st, NextAnnounce(st, k));
    }
  }

  lemma NextKeepsAnswers(st: State, s: Step)
    requires AnswerInvariant(st) && Enabled(st, s)
    ensures AnswerInvariant(Next(st, s))
  {
    match s
    case Connect(c, w) => ConnectAnswers(st, c, w);
    case Ask(c, r, limits) =>
      var was := st.connections[c].client;
      AskAnswers(st, c, r, Accepts(was, limits, r), Handle(was, limits, r));
    case Publish(c, e) => CommittedAnswers(st, st.flight, c, e, Commit(st.db, e));
    case DeleteTargets(c, e) => NothingAnswered(st, NextDeleteTargets(st, c, e));
    case StoreDelete(k) =>
      var t := st.flight[k];
      CommittedAnswers(st, Remove(st.flight, k), t.connection, t.event, Commit(st.db, t.event));
    case Announce(k) => AnnounceAnswers(st, k);
    case Forward(k) => NothingAnswered(st, NextForward(st, k));
    case Deliver(k) => BroadcastAnswers(st, NextDeliver(st, k), st.flight[k].to, st.flight[k].event);
    case Snapshot(k) => SnapshotAnswers(st, k);
    case Stream(k, e) => StreamAnswers(st, k, e);
    case Finish(k) => FinishAnswers(st, k);
  }

  lemma {:induction false} ExecKeepsAnswers(workers: seq<WorkerId>, steps: seq<Step>)
    ensures Exec(Initial(workers), steps).Some? ==> AnswerInvariant(Exec(Initial(workers), steps).value)
  {
    if steps != [] && Exec(Initial(workers), steps).Some? {
      var front := steps[..|steps| - 1];
      ExecKeepsAnswers(workers, front);
      NextKeepsAnswers(Exec(Initial(workers), front).value, steps[|steps| - 1]);
    }
  }

  lemma ReachableAnswers(st: State)
    requires Reachable(st)
    ensures AnswerInvariant(st)
  {
    var workers, steps :| DistinctWorkers(workers) && Exec(Initial(workers), steps) == Some(st);
    ExecKeepsAnswers(workers, steps);
  }

  // ---- the guarantee --------------------------------------------------------------------

  /** In every run, on every connection that is still open: once the query of an accepted REQ no longer runs,
      it has sent exactly the rows it found, and then end-of-stored-events, exactly once and last. */
  lemma AnsweredCompletely(st: State, r: nat)
    requires Reachable(st) && Done(st, r)
    ensures r in st.shown
    ensures var ms, id := AnswersOf(st, st.asked[r].connection, r), st.asked[r].id;
            && Complete(ms, id, st.shown[r])
            && multiset(ms)[EndOfStoredEvents(id)] == 1
            && forall e :: multiset(ms)[EventMessage(id, e)] == st.shown[r][e]
  {
    ReachableAnswers(st);
    assert Answered(st, r);
    CompleteCounts(AnswersOf(st, st.asked[r].connection, r), st.asked[r].id, st.shown[r]);
  }

  /** While the query still runs, no end-of-stored-events was sent for it. */
  lemma NotAnsweredEarly(st: State, f: Fetch)
    requires Reachable(st) && f in st.fetches && f.connection in st.connections
    requires st.connections[f.connection].client.open
    ensures EndOfStoredEvents(f.id) !in AnswersOf(st, f.connection, f.registration)
  {
    ReachableAnswers(st);
    assert Underway(st, f);
    var ms := AnswersOf(st, f.connection, f.registration);
    assert EndOfStoredEvents(f.id) in ms <==> multiset(ms)[EndOfStoredEvents(f.id)] > 0;
  }
}
