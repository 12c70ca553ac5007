/** Each event is broadcast once by one worker, and reaches each subscription live at most once. */
module AtMostOnce {
  import opened EventRepository
  import opened Events
  import opened Relay
  import opened RelayStore
  import opened Subscriptions
  import opened Wrappers

  // ---- what is on its way ---------------------------------------------------------------

  /** How often a token will still lead to a broadcast of the event in the worker; without a worker,
      to a first broadcast. */
  function Weight(t: Token, w: Option<WorkerId>, e: Event): nat {
    if t.event != e then 0
    else
      match t
      case Unstored(_, _) => 0
      case Unannounced(_, _) => 1
      case ToPrimary(from, _) => if w.Some? && w.value != from then 1 else 0
      case ToWorker(to, _) => if w == Some(to) then 1 else 0
  }

  function Pending(ts: seq<Token>, w: Option<WorkerId>, e: Event): nat {
    if ts == [] then 0 else Weight(ts[0], w, e) + Pending(ts[1..], w, e)
  }

  lemma {:induction false} PendingConcat(a: seq<Token>, b: seq<Token>, w: Option<WorkerId>, e: Event)
    ensures Pending(a + b, w, e) == Pending(a, w, e) + Pending(b, w, e)
  {
    if a == [] {
      assert a + b == b;
    } else {
      assert (a + b)[1..] == a[1..] + b;
      PendingConcat(a[1..], b, w, e);
    }
  }

  lemma PendingOne(t: Token, w: Option<WorkerId>, e: Event)
    ensures Pending([t], w, e) == Weight(t, w, e)
  {
    assert Pending([t][1..], w, e) == 0;
  }

  lemma PendingRemove(ts: seq<Token>, k: nat, w: Option<WorkerId>, e: Event)
    requires k < |ts|
    ensures Pending(Remove(ts, k), w, e) == Pending(ts, w, e) - Weight(ts[k], w, e)
  {
    assert ts == ts[..k] + ([ts[k]] + ts[k + 1..]);
    PendingConcat(ts[..k], [ts[k]] + ts[k + 1..], w, e);
    PendingConcat([ts[k]], ts[k + 1..], w, e);
    PendingConcat(ts[..k], ts[k + 1..], w, e);
    PendingOne(ts[k], w, e);
  }

  lemma {:induction false} PendingFanout(workers: seq<WorkerId>, from: WorkerId, a: Event, w: Option<WorkerId>,
                                         e: Event)
    requires DistinctWorkers(workers)
    ensures Pending(Fanout(workers, from, a), w, e)
            == if a == e && w.Some? && w.value != from && w.value in workers then 1 else 0
  {
    if workers != [] {
      var rest := workers[1..];
      var first := if workers[0] == from then [] else [ToWorker(workers[0], a)];
      assert forall i :: 0 <= i < |rest| ==> rest[i] == workers[i + 1];
      PendingFanout(rest, from, a, w, e);
      PendingConcat(first, Fanout(rest, from, a), w, e);
      PendingOne(ToWorker(workers[0], a), w, e);
      assert w.Some? ==> (w.value in workers <==> w.value == workers[0] || w.value in rest);
    }
  }

  // ---- how often an event was sent ------------------------------------------------------

  function Times(st: State, e: Event): nat {
    if e in st.accepted then 1 else 0
  }

  /** Every accepted event waits for its broadcast, or was broadcast once, or was lost; no other event was. */
  ghost predicate BroadcastOnce(st: State, e: Event) {
    Pending(st.flight, None, e) + multiset(st.broadcasts)[e] + multiset(st.lost)[e] == Times(st, e)
  }

  ghost predicate WorkerOnce(st: State, w: WorkerId, e: Event) {
    Pending(st.flight, Some(w), e) + multiset(st.lost)[e] <= Times(st, e)
  }

  function LiveCount(c: Connection, id: SubscriptionId, e: Event): nat {
    multiset(c.live)[EventMessage(id, e)]
  }

  /** What was sent live on a subscription, and what is still to come, is at most one event. */
  ghost predicate LiveOnce(st: State, c: ConnectionId, id: SubscriptionId, e: Event)
    requires c in st.connections
  {
    var connection := st.connections[c];
    Pending(st.flight, Some(connection.worker), e) + multiset(st.lost)[e] + LiveCount(connection, id, e) <= Times(st, e)
  }

  ghost predicate OnceInvariant(st: State) {
    && DistinctWorkers(st.workers)
    && (forall c :: c in st.connections ==> DistinctIds(st.connections[c].client.table))
    && (forall e: Event :: BroadcastOnce(st, e))
    && (forall w: WorkerId, e: Event :: WorkerOnce(st, w, e))
    && (forall c, id: SubscriptionId, e: Event :: c in st.connections ==> LiveOnce(st, c, id, e))
  }

  lemma MultisetAppend<T>(s: seq<T>, x: T, y: T)
    ensures multiset(s + [x])[y] == multiset(s)[y] + if x == y then 1 else 0
  {
  }

  lemma HearOnce(c: Connection, a: Event, id: SubscriptionId, e: Event)
    requires DistinctIds(c.client.table)
    ensures LiveCount(Hear(c, a), id, e) <= LiveCount(c, id, e) + if a == e then 1 else 0
    ensures Hear(c, a).client == c.client && Hear(c, a).worker == c.worker
  {
    var heard := LiveMessages(c.client.table, a);
    LiveMessagesExact(c.client.table, a, EventMessage(id, e));
    assert multiset(c.live + heard) == multiset(c.live) + multiset(heard);
  }

  // ---- every step keeps it --------------------------------------------------------------

  /** Changes to the tokens that leave what is to come as it was. */
  lemma SameTokens(st: State, flight: seq<Token>)
    requires OnceInvariant(st)
    requires forall w: Option<WorkerId>, e: Event :: Pending(flight, w, e) == Pending(st.flight, w, e)
    ensures OnceInvariant(st.(flight := flight))
  {
    var next := st.(flight := flight);
    forall e: Event ensures BroadcastOnce(next, e) {
      assert BroadcastOnce(st, e);
    }
    forall w: WorkerId, e: Event ensures WorkerOnce(next, w, e) {
      assert WorkerOnce(st, w, e);
    }
    forall d, id: SubscriptionId, e: Event | d in next.connections ensures LiveOnce(next, d, id, e) {
      assert LiveOnce(st, d, id, e);
    }
  }

  /** Steps that send nothing live and keep the tokens. */
  lemma SameBroadcasts(st: State, next: State)
    requires OnceInvariant(st)
    requires next.workers == st.workers && next.flight == st.flight && next.accepted == st.accepted
    requires next.broadcasts == st.broadcasts && next.lost == st.lost
    requires forall c :: c in next.connections ==> DistinctIds(next.connections[c].client.table)
    requires forall c :: c in next.connections ==>
      if c in st.connections then
        next.connections[c].worker == st.connections[c].worker && next.connections[c].live == st.connections[c].live
      else next.connections[c].live == []
    ensures OnceInvariant(next)
  {
    forall e: Event ensures BroadcastOnce(next, e) {
      assert BroadcastOnce(st, e);
    }
    forall w: WorkerId, e: Event ensures WorkerOnce(next, w, e) {
      assert WorkerOnce(st, w, e);
    }
    forall c, id: SubscriptionId, e: Event | c in next.connections ensures LiveOnce(next, c, id, e) {
      if c in st.connections {
        assert LiveOnce(st, c, id, e);
      } else {
        assert WorkerOnce(st, next.connections[c].worker, e);
      }
    }
  }

  lemma CommittedOnce(st: State, c: ConnectionId, a: Event, o: Outcome)
    requires OnceInvariant(st) && (o.count != 0 ==> a !in st.accepted)
    ensures OnceInvariant(Committed(st, c, a, o))
  {
    var next := Committed(st, c, a, o);
    if o.count == 0 {
      SameBroadcasts(st, next);
    } else {
      forall w: Option<WorkerId>, e: Event
        ensures Pending(next.flight, w, e) == Pending(st.flight, w, e) + if a == e then 1 else 0
      {
        PendingConcat(st.flight, [Unannounced(c, a)], w, e);
        PendingOne(Unannounced(c, a), w, e);
      }
      forall e: Event ensures BroadcastOnce(next, e) {
        assert BroadcastOnce(st, e);
      }
      forall w: WorkerId, e: Event ensures WorkerOnce(next, w, e) {
        assert WorkerOnce(st, w, e);
      }
      forall d, id: SubscriptionId, e: Event | d in next.connections ensures LiveOnce(next, d, id, e) {
        assert LiveOnce(st, d, id, e);
      }
    }
  }

  /** A token for one worker, or the publisher's own, becomes a broadcast in that worker. */
  lemma BroadcastOnceMore(st: State, next: State, w: WorkerId, a: Event)
    requires OnceInvariant(st)
    requires next.workers == st.workers && next.accepted == st.accepted && next.lost == st.lost
    requires next.connections == Broadcast(st.connections, w, a)
    requires forall v: WorkerId, e: Event ::
      Pending(next.flight, Some(v), e) == Pending(st.flight, Some(v), e) - if e == a && v == w then 1 else 0
    requires forall e: Event :: BroadcastOnce(next, e)
    ensures OnceInvariant(next)
  {
    forall v: WorkerId, e: Event ensures WorkerOnce(next, v, e) {
      assert WorkerOnce(st, v, e);
    }
    forall c, id: SubscriptionId, e: Event | c in next.connections ensures LiveOnce(next, c, id, e) {
      assert LiveOnce(st, c, id, e);
      HearOnce(st.connections[c], a, id, e);
    }
  }

  lemma AnnounceTokens(st: State, k: nat, w: Option<WorkerId>, e: Event)
    requires Enabled(st, Announce(k))
    ensures var t := st.flight[k];
            var publisher := st.connections[t.connection];
            Pending(NextAnnounce(st, k).flight, w, e)
            == Pending(st.flight, w, e) - Weight(t, w, e)
               + if publisher.client.open then Weight(ToPrimary(publisher.worker, t.event), w, e) else 0
  {
    var t := st.flight[k];
    var on := ToPrimary(st.connections[t.connection].worker, t.event);
    PendingRemove(st.flight, k, w, e);
    PendingConcat(Remove(st.flight, k), [on], w, e);
    PendingOne(on, w, e);
  }

  lemma AnnounceBroadcasts(st: State, k: nat, e: Event)
    requires BroadcastOnce(st, e) && Enabled(st, Announce(k))
    ensures BroadcastOnce(NextAnnounce(st, k), e)
  {
    AnnounceTokens(st, k, None, e);
    MultisetAppend(st.broadcasts, st.flight[k].event, e);
    MultisetAppend(st.lost, st.flight[k].event, e);
  }

  lemma AnnounceOnce(st: State, k: nat)
    requires OnceInvariant(st) && Enabled(st, Announce(k))
    ensures OnceInvariant(NextAnnounce(st, k))
  {
    var next, t := NextAnnounce(st, k), st.flight[k];
    var publisher := st.connections[t.connection];
    forall e: Event ensures BroadcastOnce(next, e) {
      AnnounceBroadcasts(st, k, e);
    }
    forall v: WorkerId, e: Event
      ensures Pending(next.flight, Some(v), e)
              == Pending(st.flight, Some(v), e)
                 - if e == t.event && (!publisher.client.open || v == publisher.worker) then 1 else 0
    {
      AnnounceTokens(st, k, Some(v), e);
    }
    if publisher.client.open {
      BroadcastOnceMore(st, next, publisher.worker, t.event);
    } else {
      LostOnce(st, next, t.event);
    }
  }

  lemma LostOnce(st: State, next: State, a: Event)
    requires OnceInvariant(st)
    requires next.workers == st.workers && next.accepted == st.accepted && next.connections == st.connections
    requires next.lost == st.lost + [a]
    requires forall v: WorkerId, e: Event ::
      Pending(next.flight, Some(v), e) == Pending(st.flight, Some(v), e) - if e == a then 1 else 0
    requires forall e: Event :: BroadcastOnce(next, e)
    ensures OnceInvariant(next)
  {
    forall v: WorkerId, e: Event ensures WorkerOnce(next, v, e) {
      assert WorkerOnce(st, v, e);
      MultisetAppend(st.lost, a, e);
    }
    forall c, id: SubscriptionId, e: Event | c in next.connections ensures LiveOnce(next, c, id, e) {
      assert LiveOnce(st, c, id, e);
      MultisetAppend(st.lost, a, e);
    }
  }

  lemma ForwardOnce(st: State, k: nat)
    requires OnceInvariant(st) && Enabled(st, Forward(k))
    ensures OnceInvariant(NextForward(st, k))
  {
    var next, t := NextForward(st, k), st.flight[k];
    forall w: Option<WorkerId>, e: Event ensures Pending(next.flight, w, e) <= Pending(st.flight, w, e)
      ensures Pending(next.flight, None, e) == Pending(st.flight, None, e)
    {
      PendingForward(st, k, w, e);
      PendingForward(st, k, None, e);
    }
    forall e: Event ensures BroadcastOnce(next, e) {
      assert BroadcastOnce(st, e);
    }
    forall w: WorkerId, e: Event ensures WorkerOnce(next, w, e) {
      assert WorkerOnce(st, w, e);
    }
    forall d, id: SubscriptionId, e: Event | d in next.connections ensures LiveOnce(next, d, id, e) {
      assert LiveOnce(st, d, id, e);
    }
  }

  /** Forwarding keeps what is to come in every worker of the cluster. */
  lemma PendingForward(st: State, k: nat, w: Option<WorkerId>, e: Event)
    requires DistinctWorkers(st.workers) && Enabled(st, Forward(k))
    ensures var now, was := Pending(NextForward(st, k).flight, w, e), Pending(st.flight, w, e);
            && now <= was
            && (w.None? || w.value in st.workers ==> now == was)
  {
    var t := st.flight[k];
    PendingRemove(st.flight, k, w, e);
    PendingConcat(Remove(st.flight, k), Fanout(st.workers, t.from, t.event), w, e);
    PendingFanout(st.workers, t.from, t.event, w, e);
  }

  lemma DeliverOnce(st: State, k: nat)
    requires OnceInvariant(st) && Enabled(st, Deliver(k))
    ensures OnceInvariant(NextDeliver(st, k))
  {
    var next, t := NextDeliver(st, k), st.flight[k];
    forall w: Option<WorkerId>, e: Event
      ensures Pending(next.flight, w, e) == Pending(st.flight, w, e) - Weight(t, w, e)
    {
      PendingRemove(st.flight, k, w, e);
    }
    forall e: Event ensures BroadcastOnce(next, e) {
      assert BroadcastOnce(st, e);
    }
    BroadcastOnceMore(st, next, t.to, t.event);
  }

  lemma AskKeepsDistinctIds(c: Client, limits: Option<Limits>, r: Request)
    requires DistinctIds(c.table)
    ensures DistinctIds(Handle(c, limits, r).table)
  {
    if c.open {
      match r
      case Req(id, filters) => SetExact(c.table, id, Unique(filters), id);
      case Close(id) => DeleteElements(c.table, id);
      case Disconnect =>
    }
  }

  lemma HandledOnce(st: State, c: ConnectionId, r: Request, accepted: bool, client: Client)
    requires OnceInvariant(st) && c in st.connections && (accepted ==> r.Req?) && DistinctIds(client.table)
    ensures OnceInvariant(Handled(st, c, r, accepted, client))
  {
    SameBroadcasts(st, Handled(st, c, r, accepted, client));
  }

  lemma AskOnce(st: State, c: ConnectionId, r: Request, limits: Option<Limits>)
    requires OnceInvariant(st) && c in st.connections
    ensures OnceInvariant(NextAsk(st, c, r, limits))
  {
    var was := st.connections[c].client;
    AskKeepsDistinctIds(was, limits, r);
    HandledOnce(st, c, r, Accepts(was, limits, r), Handle(was, limits, r));
  }

  lemma PublishOnce(st: State, c: ConnectionId, e: Event)
    requires OnceInvariant(st) && Sound(st.db, st.accepted) && !IsEphemeral(e.kind)
    ensures OnceInvariant(Store(st, c, e))
  {
    CommitIsNew(st.db, st.accepted, e);
    CommittedOnce(st, c, e, Commit(st.db, e));
  }

  lemma StoreDeleteOnce(st: State, k: nat)
    requires StoreInvariant(st) && OnceInvariant(st) && Enabled(st, StoreDelete(k))
    ensures OnceInvariant(NextStoreDelete(st, k))
  {
    assert st.flight[k] in st.flight;
    RemoveUnstoredOnce(st, k);
    PublishOnce(st.(flight := Remove(st.flight, k)), st.flight[k].connection, st.flight[k].event);
  }

  lemma RemoveUnstoredOnce(st: State, k: nat)
    requires OnceInvariant(st) && Enabled(st, StoreDelete(k))
    ensures OnceInvariant(st.(flight := Remove(st.flight, k)))
  {
    forall w: Option<WorkerId>, e: Event ensures Pending(Remove(st.flight, k), w, e) == Pending(st.flight, w, e) {
      PendingRemove(st.flight, k, w, e);
    }
    SameTokens(st, Remove(st.flight, k));
  }

  lemma DeleteTargetsOnce(st: State, c: ConnectionId, a: Event)
    requires OnceInvariant(st) && Enabled(st, DeleteTargets(c, a))
    ensures OnceInvariant(NextDeleteTargets(st, c, a))
  {
    var next := NextDeleteTargets(st, c, a);
    forall w: Option<WorkerId>, e: Event ensures Pending(next.flight, w, e) == Pending(st.flight, w, e) {
      PendingConcat(st.flight, [Unstored(c, a)], w, e);
      PendingOne(Unstored(c, a), w, e);
    }
    SameTokens(st, next.flight);
    SameBroadcasts(st.(flight := next.flight), next);
  }

  lemma NextKeepsOnce(st: State, s: Step)
    requires StoreInvariant(st) && OnceInvariant(st) && Enabled(st, s)
    ensures OnceInvariant(Next(st, s))
  {
    match s
    case Connect(c, w) => SameBroadcasts(st, NextConnect(st, c, w));
    case Ask(c, r, limits) => AskOnce(st, c, r, limits);
    case Publish(c, e) => PublishOnce(st, c, e);
    case DeleteTargets(c, e) => DeleteTargetsOnce(st, c, e);
    case StoreDelete(k) => StoreDeleteOnce(st, k);
    case Announce(k) => AnnounceOnce(st, k);
    case Forward(k) => ForwardOnce(st, k);
    case Deliver(k) => DeliverOnce(st, k);
    case Snapshot(k) => SameBroadcasts(st, NextSnapshot(st, k));
    case Stream(k, e) => SameBroadcasts(st, NextStream(st, k, e));
    case Finish(k) => SameBroadcasts(st, NextFinish(st, k));
  }

  lemma {:induction false} ExecKeepsOnce(workers: seq<WorkerId>, steps: seq<Step>)
    requires DistinctWorkers(workers)
    ensures Exec(Initial(workers), steps).Some? ==> OnceInvariant(Exec(Initial(workers), steps).value)
  {
    if steps != [] && Exec(Initial(workers), steps).Some? {
      var front := steps[..|steps| - 1];
      ExecKeepsStore(workers, front);
      ExecKeepsOnce(workers, front);
      NextKeepsOnce(Exec(Initial(workers), front).value, steps[|steps| - 1]);
    }
  }

  lemma ReachableOnce(st: State)
    requires Reachable(st)
    ensures OnceInvariant(st)
  {
    var workers, steps :| DistinctWorkers(workers) && Exec(Initial(workers), steps) == Some(st);
    ExecKeepsOnce(workers, steps);
  }

  // ---- the guarantees -------------------------------------------------------------------

  /** However often and wherever an event is submitted, at most one worker broadcasts it; once nothing is
      in flight, an accepted event was broadcast exactly once, unless its publisher had left. */
  lemma BroadcastByOneWorker(st: State, e: Event)
    requires Reachable(st)
    ensures multiset(st.broadcasts)[e] <= 1
    ensures e !in st.accepted ==> multiset(st.broadcasts)[e] == 0
    ensures Quiescent(st) && e in st.accepted ==> (multiset(st.broadcasts)[e] == 1 <==> e !in st.lost)
  {
    ReachableOnce(st);
    assert BroadcastOnce(st, e);
  }

  /** Live delivery is at most once on every subscription of every connection, and only of accepted
      events; an event whose broadcast was lost reaches nobody live. */
  lemma LiveAtMostOnce(st: State, c: ConnectionId, id: SubscriptionId, e: Event)
    requires Reachable(st) && c in st.connections
    ensures LiveCount(st.connections[c], id, e) <= 1
    ensures e !in st.accepted || e in st.lost ==> EventMessage(id, e) !in st.connections[c].live
  {
    ReachableOnce(st);
    assert LiveOnce(st, c, id, e);
  }
}
