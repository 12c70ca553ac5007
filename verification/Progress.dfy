/** Whatever has begun can finish: every broadcast can reach every worker, and every query its end. */
module Progress {
  import AtMostOnce
  import opened EventRepository
  import opened Events
  import EventStrategies
  import ExactGap
  import opened Hex
  import opened LostBroadcast
  import opened NoGap
  import opened Relay
  import opened RelayStore
  import opened Subscriptions
  import opened Wrappers

  /** A step of the relay's own: nobody connects, asks or publishes. */
  predicate Internal(s: Step) {
    !s.Connect? && !s.Ask? && !s.Publish? && !s.DeleteTargets?
  }

  /** The connection that began a piece of work is known, and only delete events are stored in two steps. */
  ghost predicate Begun(st: State) {
    && (forall t :: t in st.flight && (t.Unstored? || t.Unannounced?) ==> t.connection in st.connections)
    && (forall t :: t in st.flight && t.Unstored? ==> IsDelete(t.event.kind))
    && (forall f :: f in st.fetches ==> f.connection in st.connections)
  }

  // ---- every step keeps it --------------------------------------------------------------

  /** Steps that begin nothing for a connection that is not known. */
  lemma NothingUnknown(st: State, next: State)
    requires Begun(st) && st.connections.Keys <= next.connections.Keys
    requires forall t :: t in next.flight && t !in st.flight ==> !t.Unstored? && !t.Unannounced?
    requires forall f :: f in next.fetches ==> f.connection in st.connections
    ensures Begun(next)
  {
  }

  lemma CommittedBegun(st: State, flight: seq<Token>, c: ConnectionId, e: Event, o: Outcome)
    requires Begun(st) && c in st.connections && forall t :: t in flight ==> t in st.flight
    ensures Begun(Committed(st.(flight := flight), c, e, o))
  {
  }

  lemma AskBegun(st: State, c: ConnectionId, r: Request, accepted: bool, client: Client)
    requires Begun(st) && c in st.connections && (accepted ==> r.Req?)
    ensures Begun(Handled(st, c, r, accepted, client))
  {
    NothingUnknown(st, Handled(st, c, r, accepted, client));
  }

  lemma AnnounceBegun(st: State, k: nat)
    requires Begun(st) && Enabled(st, Announce(k))
    ensures Begun(NextAnnounce(st, k))
  {
    NothingUnknown(st, NextAnnounce(st, k));
  }

  lemma ForwardBegun(st: State, k: nat)
    requires Begun(st) && Enabled(st, Forward(k))
    ensures Begun(NextForward(st, k))
  {
    FanoutTokens(st.workers, st.flight[k].from, st.flight[k].event);
    NothingUnknown(st, NextForward(st, k));
  }

  lemma SnapshotBegun(st: State, k: nat, results: multiset<Event>)
    requires Begun(st) && k < |st.fetches|
    ensures Begun(Found(st, k, results))
  {
    assert st.fetches[k] in st.fetches;
    NothingUnknown(st, Found(st, k, results));
  }

  lemma StreamBegun(st: State, k: nat, e: Event)
    requires Begun(st) && Enabled(st, Stream(k, e))
    ensures Begun(NextStream(st, k, e))
  {
    assert st.fetches[k] in st.fetches;
    NothingUnknown(st, NextStream(st, k, e));
  }

  lemma NextKeepsBegun(st: State, s: Step)
    requires Begun(st) && Enabled(st, s)
    ensures Begun(Next(st, s))
  {
    match s
    case Connect(c, w) => NothingUnknown(st, NextConnect(st, c, w));
    case Ask(c, r, limits) =>
      var was := st.connections[c].client;
      AskBegun(st, c, r, Accepts(was, limits, r), Handle(was, limits, r));
    case Publish(c, e) => CommittedBegun(st, st.flight, c, e, Commit(st.db, e));
    case DeleteTargets(c, e) =>
    case StoreDelete(k) =>
      var t := st.flight[k];
      assert t in st.flight;
      CommittedBegun(st, Remove(st.flight, k), t.connection, t.event, Commit(st.db, t.event));
    case Announce(k) => AnnounceBegun(st, k);
    case Forward(k) => ForwardBegun(st, k);
    case Deliver(k) => NothingUnknown(st, NextDeliver(st, k));
    case Snapshot(k) => SnapshotBegun(st, k, Results(st.db, st.fetches[k].filters));
    case Stream(k, e) => StreamBegun(st, k, e);
    case Finish(k) => NothingUnknown(st, NextFinish(st, k));
  }

  lemma {:induction false} ExecKeepsBegun(workers: seq<WorkerId>, steps: seq<Step>)
    ensures Exec(Initial(workers), steps).Some? ==> Begun(Exec(Initial(workers), steps).value)
  {
    if steps != [] && Exec(Initial(workers), steps).Some? {
      var front := steps[..|steps| - 1];
      ExecKeepsBegun(workers, front);
      NextKeepsBegun(Exec(Initial(workers), front).value, steps[|steps| - 1]);
    }
  }

  lemma ReachableBegun(st: State)
    requires Reachable(st)
    ensures Begun(st)
  {
    var workers, steps :| DistinctWorkers(workers) && Exec(Initial(workers), steps) == Some(st);
    ExecKeepsBegun(workers, steps);
  }

  // ---- what is left to do ---------------------------------------------------------------

  /** How many steps a token can still take in a cluster of n workers. */
  function Cost(t: Token, n: nat): nat {
    match t
    case Unstored(_, _) => n + 3
    case Unannounced(_, _) => n + 2
    case ToPrimary(_, _) => n + 1
    case ToWorker(_, _) => 1
  }

  function Work(ts: seq<Token>, n: nat): nat {
    if ts == [] then 0 else Cost(ts[0], n) + Work(ts[1..], n)
  }

  lemma {:induction false} WorkAdds(a: seq<Token>, b: seq<Token>, n: nat)
    ensures Work(a + b, n) == Work(a, n) + Work(b, n)
  {
    if a == [] {
      assert a + b == b;
    } else {
      assert (a + b)[1..] == a[1..] + b;
      WorkAdds(a[1..], b, n);
    }
  }

  lemma WorkOfOne(t: Token, n: nat)
    ensures Work([t], n) == Cost(t, n)
  {
    assert [t][1..] == [];
  }

  lemma {:induction false} FanoutWork(workers: seq<WorkerId>, from: WorkerId, e: Event, n: nat)
    ensures Work(Fanout(workers, from, e), n) <= |workers|
  {
    if workers != [] {
      var first := if workers[0] == from then [] else [ToWorker(workers[0], e)];
      FanoutWork(workers[1..], from, e, n);
      WorkOfOne(ToWorker(workers[0], e), n);
      WorkAdds(first, Fanout(workers[1..], from, e), n);
    }
  }

  /** The first token is replaced by tokens that cost less. */
  lemma LessWork(flight: seq<Token>, more: seq<Token>, n: nat)
    requires flight != [] && Work(more, n) < Cost(flight[0], n)
    ensures Work(Remove(flight, 0) + more, n) < Work(flight, n)
  {
    assert Remove(flight, 0) == flight[1..];
    WorkAdds(flight[1..], more, n);
  }

  /** The step that the first token is waiting for. */
  function StepOf(t: Token): Step {
    match t
    case Unstored(_, _) => StoreDelete(0)
    case Unannounced(_, _) => Announce(0)
    case ToPrimary(_, _) => Forward(0)
    case ToWorker(_, _) => Deliver(0)
  }

  lemma CommittedWork(st: State, e: Event, c: ConnectionId, o: Outcome)
    requires st.flight != [] && st.flight[0].Unstored?
    ensures Work(Committed(st.(flight := Remove(st.flight, 0)), c, e, o).flight, |st.workers|)
            < Work(st.flight, |st.workers|)
  {
    WorkOfOne(Unannounced(c, e), |st.workers|);
    LessWork(st.flight, [], |st.workers|);
    LessWork(st.flight, [Unannounced(c, e)], |st.workers|);
    assert Remove(st.flight, 0) + [] == Remove(st.flight, 0);
  }

  lemma AnnounceWork(st: State)
    requires st.flight != [] && Enabled(st, Announce(0))
    ensures Work(NextAnnounce(st, 0).flight, |st.workers|) < Work(st.flight, |st.workers|)
  {
    var t := st.flight[0];
    var on := ToPrimary(st.connections[t.connection].worker, t.event);
    WorkOfOne(on, |st.workers|);
    LessWork(st.flight, [on], |st.workers|);
    LessWork(st.flight, [], |st.workers|);
    assert Remove(st.flight, 0) + [] == Remove(st.flight, 0);
  }

  lemma TokenStep(st: State)
    requires Begun(st) && st.flight != []
    ensures Enabled(st, StepOf(st.flight[0])) && Internal(StepOf(st.flight[0]))
    ensures Next(st, StepOf(st.flight[0])).workers == st.workers
    ensures Work(Next(st, StepOf(st.flight[0])).flight, |st.workers|) < Work(st.flight, |st.workers|)
  {
    var t := st.flight[0];
    assert t in st.flight;
    match t
    case Unstored(c, e) => CommittedWork(st, e, c, Commit(st.db, e));
    case Unannounced(_, _) => AnnounceWork(st);
    case ToPrimary(from, e) =>
      FanoutWork(st.workers, from, e, |st.workers|);
      LessWork(st.flight, Fanout(st.workers, from, e), |st.workers|);
    case ToWorker(_, _) =>
      LessWork(st.flight, [], |st.workers|);
      assert Remove(st.flight, 0) + [] == Remove(st.flight, 0);
  }

  /** The step that a query is waiting for. */
  ghost function FetchStep(f: Fetch): Step {
    match f.stage
    case Issued => Snapshot(0)
    case Streaming(rest) => if rest == multiset{} then Finish(0) else var e :| e in rest; Stream(0, e)
  }

  function Stages(f: Fetch): nat {
    match f.stage
    case Issued => 0
    case Streaming(rest) => |rest|
  }

  lemma FetchAdvances(st: State)
    requires Begun(st) && st.fetches != []
    ensures Enabled(st, FetchStep(st.fetches[0])) && Internal(FetchStep(st.fetches[0]))
    ensures var f, next := st.fetches[0], Next(st, FetchStep(st.fetches[0]));
            && next.flight == st.flight && next.workers == st.workers
            && match f.stage
               case Issued => |next.fetches| == |st.fetches| && next.fetches[0].stage.Streaming?
               case Streaming(rest) =>
                 if rest == multiset{} then |next.fetches| < |st.fetches|
                 else |next.fetches| == |st.fetches| && next.fetches[0].stage.Streaming?
                      && |next.fetches[0].stage.rest| < |rest|
  {
    assert st.fetches[0] in st.fetches;
  }

  // ---- every run can come to rest -------------------------------------------------------

  ghost predicate Settles(st: State, steps: seq<Step>) {
    && Exec(st, steps).Some? && Quiescent(Exec(st, steps).value)
    && forall s :: s in steps ==> Internal(s)
  }

  lemma SettlesAfter(st: State, s: Step, more: seq<Step>)
    requires Enabled(st, s) && Internal(s) && Settles(Next(st, s), more)
    ensures Settles(st, [s] + more)
  {
    ExecOne(st, s);
    ExecConcat(st, [s], more);
  }

  lemma {:induction false} SettleFrom(st: State) returns (steps: seq<Step>)
    requires Begun(st)
    ensures Settles(st, steps)
    decreases Work(st.flight, |st.workers|), |st.fetches|,
              if st.fetches != [] && st.fetches[0].stage.Issued? then 1 else 0,
              if st.fetches != [] then Stages(st.fetches[0]) else 0
  {
    if st.flight != [] {
      var s := StepOf(st.flight[0]);
      TokenStep(st);
      NextKeepsBegun(st, s);
      var more := SettleFrom(Next(st, s));
      SettlesAfter(st, s, more);
      steps := [s] + more;
    } else if st.fetches != [] {
      var s := FetchStep(st.fetches[0]);
      FetchAdvances(st);
      NextKeepsBegun(st, s);
      var more := SettleFrom(Next(st, s));
      SettlesAfter(st, s, more);
      steps := [s] + more;
    } else {
      steps := [];
    }
  }

  /** From every reachable state the relay's own steps can bring everything that has begun to its end. */
  lemma AlwaysSettles(st: State) returns (steps: seq<Step>)
    requires Reachable(st)
    ensures Exec(st, steps).Some? && Quiescent(Exec(st, steps).value)
    ensures forall s :: s in steps ==> !s.Connect? && !s.Ask? && !s.Publish? && !s.DeleteTargets?
  {
    ReachableBegun(st);
    steps := SettleFrom(st);
  }

  // ---- what the relay's own steps leave alone -------------------------------------------

  ghost predicate SameClients(st: State, next: State) {
    && next.connections.Keys == st.connections.Keys
    && forall c :: c in st.connections ==>
         && next.connections[c].client == st.connections[c].client
         && next.connections[c].registrations == st.connections[c].registrations
         && next.connections[c].worker == st.connections[c].worker
  }

  /** What queries found stays on record, what was broadcast stays so, and no stored event is removed. */
  ghost predicate Kept(st: State, next: State) {
    && SameClients(st, next)
    && st.accepted <= next.accepted && (forall e :: e in st.broadcasts ==> e in next.broadcasts)
    && (forall r :: r in st.buried ==> r in next.buried && next.buried[r] == st.buried[r])
    && (forall r :: r in st.buried && r in st.shown ==> r in next.shown && next.shown[r] == st.shown[r])
    && (forall e :: e in st.accepted && Stored(st.db, e) ==> Stored(next.db, e))
  }

  lemma CreateKeepsStored(db: Db, a: Event, e: Event)
    requires IsDelete(a.kind) && Stored(db, e)
    ensures Stored(Commit(db, a).db, e)
  {
    EventStrategies.DispatchAgreesWithIndex(a.kind);
  }

  lemma CommittedKept(st: State, flight: seq<Token>, c: ConnectionId, a: Event, o: Outcome)
    requires forall e :: e in st.accepted && Stored(st.db, e) ==> Stored(o.db, e)
    requires o.count == 0 ==> o.db == st.db
    ensures Kept(st, Committed(st.(flight := flight), c, a, o))
  {
  }

  /** Steps that only move tokens and send messages. */
  lemma SendingKept(st: State, next: State)
    requires SameClients(st, next) && next.db == st.db && next.accepted == st.accepted
    requires st.broadcasts <= next.broadcasts && next.buried == st.buried && next.shown == st.shown
    ensures Kept(st, next)
  {
  }

  lemma AnnounceKept(st: State, k: nat)
    requires Enabled(st, Announce(k))
    ensures Kept(st, NextAnnounce(st, k))
  {
    SendingKept(st, NextAnnounce(st, k));
  }

  lemma DeliverKept(st: State, k: nat)
    requires Enabled(st, Deliver(k))
    ensures Kept(st, NextDeliver(st, k))
  {
    SendingKept(st, NextDeliver(st, k));
  }

  lemma ReplyKept(st: State, next: State, f: Fetch, m: OutgoingMessage)
    requires f.connection in st.connections
    requires next == st.(fetches := next.fetches, connections := Replied(st.connections, f, m))
    ensures Kept(st, next)
  {
    SendingKept(st, next);
  }

  lemma StoreDeleteKept(st: State, k: nat)
    requires StoreInvariant(st) && Begun(st) && Enabled(st, StoreDelete(k))
    ensures Kept(st, NextStoreDelete(st, k))
  {
    var t := st.flight[k];
    assert t in st.flight;
    forall e | e in st.accepted && Stored(st.db, e) ensures Stored(Commit(st.db, t.event).db, e) {
      CreateKeepsStored(st.db, t.event, e);
    }
    CommitTakes(st.db, t.event);
    CommittedKept(st, Remove(st.flight, k), t.connection, t.event, Commit(st.db, t.event));
  }

  lemma FoundKept(st: State, k: nat, results: multiset<Event>)
    requires FetchedOnce(st) && Enabled(st, Snapshot(k))
    ensures Kept(st, Found(st, k, results))
  {
    assert st.fetches[k] in st.fetches;
  }

  lemma InternalKeeps(st: State, s: Step)
    requires StoreInvariant(st) && FetchedOnce(st) && Begun(st) && Enabled(st, s) && Internal(s)
    ensures Kept(st, Next(st, s))
  {
    match s
    case StoreDelete(k) => StoreDeleteKept(st, k);
    case Announce(k) => AnnounceKept(st, k);
    case Forward(k) => SendingKept(st, NextForward(st, k));
    case Deliver(k) => DeliverKept(st, k);
    case Snapshot(k) => FoundKept(st, k, Results(st.db, st.fetches[k].filters));
    case Stream(k, e) => ReplyKept(st, NextStream(st, k, e), st.fetches[k], EventMessage(st.fetches[k].id, e));
    case Finish(k) => ReplyKept(st, NextFinish(st, k), st.fetches[k], EndOfStoredEvents(st.fetches[k].id));
  }

  lemma KeptOn(a: State, b: State, c: State)
    requires Kept(a, b) && Kept(b, c)
    ensures Kept(a, c)
  {
  }

  lemma {:induction false} InternalRunKeeps(st: State, steps: seq<Step>)
    requires Reachable(st) && Exec(st, steps).Some? && forall s :: s in steps ==> Internal(s)
    ensures Reachable(Exec(st, steps).value) && Kept(st, Exec(st, steps).value)
  {
    ReachableRun(st, steps);
    if steps != [] {
      var front, s := steps[..|steps| - 1], steps[|steps| - 1];
      assert forall x :: x in front ==> x in steps;
      InternalRunKeeps(st, front);
      var before := Exec(st, front).value;
      ReachableGap(before);
      ReachableBegun(before);
      InternalKeeps(before, s);
      KeptOn(st, before, Exec(st, steps).value);
    }
  }

  // ---- what was broadcast arrives -------------------------------------------------------

  lemma StillWanted(st: State, next: State, c: ConnectionId, id: SubscriptionId, filters: seq<Filter>, e: Event)
    requires Wanted(st, c, id, filters, e) && Kept(st, next)
    ensures Wanted(next, c, id, filters, e)
  {
  }

  lemma NotLost(st: State, e: Event)
    requires Reachable(st) && Quiescent(st) && e in st.accepted && e in st.broadcasts
    ensures e !in st.lost
  {
    AtMostOnce.BroadcastByOneWorker(st, e);
    assert multiset(st.broadcasts)[e] > 0;
  }

  /** From every reachable state, an event whose broadcast has begun can come to be sent on every open
      subscription that asks for it, by the relay's own steps alone, unless the subscription's own query found
      it deleted; and it did not if it had run before and had not. */
  lemma BroadcastArrives(st: State, c: ConnectionId, id: SubscriptionId, filters: seq<Filter>, e: Event)
    returns (steps: seq<Step>)
    requires Reachable(st) && Wanted(st, c, id, filters, e) && e in st.broadcasts
    ensures Exec(st, steps).Some? && Quiescent(Exec(st, steps).value) && Kept(st, Exec(st, steps).value)
    ensures forall s :: s in steps ==> !s.Connect? && !s.Ask? && !s.Publish? && !s.DeleteTargets?
    ensures var last := Exec(st, steps).value;
            && c in last.connections && id in last.connections[c].registrations
            && var r := last.connections[c].registrations[id].number;
               && (SentSince(last.connections[c], id, e) || FoundDeleted(last, r, e))
               && (r in st.buried && !FoundDeleted(st, r, e) ==> SentSince(last.connections[c], id, e))
  {
    steps := AlwaysSettles(st);
    InternalRunKeeps(st, steps);
    var last := Exec(st, steps).value;
    StillWanted(st, last, c, id, filters, e);
    NotLost(last, e);
    NoGapBetweenHistoryAndLive(last, c, id, filters, e);
  }

  // ---- across two workers ---------------------------------------------------------------

  /** The publisher stores the event and broadcasts it in its own worker. */
  lemma Announced(st: State, p: ConnectionId, e: Event) returns (next: State)
    requires Reachable(st) && st.flight == [] && p in st.connections && st.connections[p].client.open
    requires Submittable(st, e) && Commit(Ready(st.db, e), e).count != 0
    ensures Reachable(next) && SameClients(st, next) && e in next.broadcasts && e in next.accepted
    ensures next.db == Commit(Ready(st.db, e), e).db
    ensures next.buried == st.buried && next.shown == st.shown && next.fetches == st.fetches
  {
    var o := Commit(Ready(st.db, e), e);
    StoringRun(st, p, e);
    ReachableRun(st, StoringSteps(p, e));
    var stored := AfterStoring(st, p, e, o);
    StoredBy(st, p, e, o);
    ReachableNext(stored, Announce(0));
    next := NextAnnounce(stored, 0);
    StoredFrame(st, p, e, o);
  }

  lemma StoredFrame(st: State, p: ConnectionId, e: Event, o: Outcome)
    requires o.count != 0
    ensures var stored := AfterStoring(st, p, e, o);
            stored.buried == st.buried && stored.shown == st.shown
  {
  }

  /** For any two workers of a cluster and every valid event that is not ephemeral there is a run in which a
      client of the one publishes the event and a client of the other is sent it live. */
  lemma OtherWorkerHears(workers: seq<WorkerId>, v: WorkerId, w: WorkerId, e: Event) returns (last: State)
    requires DistinctWorkers(workers) && v in workers && w in workers && v != w
    requires ValidEvent(e) && !IsEphemeral(e.kind)
    ensures Reachable(last) && Quiescent(last)
    ensures 0 in last.connections && last.connections[0].worker == v
    ensures 1 in last.connections && last.connections[1].worker == w
    ensures EventMessage("feed", e) in last.connections[1].live
  {
    var st := SetupRuns(workers, v, w);
    EmptyTakes(e);
    var announced := Announced(st, 0, e);
    WantedByAll(st, announced, e);
    var steps := BroadcastArrives(announced, 1, "feed", [EVERYTHING], e);
    InternalRunKeeps(announced, steps);
    last := Exec(announced, steps).value;
    ExactGap.QuerySent(last, 1, "feed", e);
  }

  lemma WantedByAll(st: State, next: State, e: Event)
    requires Subscribed(st, 1, "feed", [EVERYTHING]) && SameClients(st, next) && e in next.accepted
    requires st.db == EmptyDb && next.db == Commit(Ready(EmptyDb, e), e).db && !IsEphemeral(e.kind)
    ensures Wanted(next, 1, "feed", [EVERYTHING], e)
  {
    EmptyTakes(e);
    NothingToDelete(ToBuffer(e.pubkey), Buffers(EventStrategies.IdsToDelete(e.tags)));
    EventStrategies.EmptyIsConsistent();
    CommitTakes(EmptyDb, e);
    assert EVERYTHING in [EVERYTHING] && IsEventMatchingFilter(EVERYTHING, e);
  }

  /** So it is in the smallest cluster, of two workers. */
  lemma TwoWorkers(e: Event) returns (last: State)
    requires ValidEvent(e) && !IsEphemeral(e.kind)
    ensures Reachable(last) && Quiescent(last)
    ensures 0 in last.connections && last.connections[0].worker == 1
    ensures 1 in last.connections && last.connections[1].worker == 2
    ensures EventMessage("feed", e) in last.connections[1].live
  {
    last := OtherWorkerHears([1, 2], 1, 2, e);
  }
}
