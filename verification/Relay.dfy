/** A cluster of workers over one events table, as a state machine of atomic steps. */
module Relay {
  import opened EventRepository
  import opened Events
  import EventStrategies
  import FilterMeaning
  import opened Hex
  import opened Sets
  import opened Subscriptions
  import opened TagIndex
  import opened Wrappers

  type ConnectionId = nat
  type WorkerId = nat

  /** An accepted REQ: its number, and how many live messages the connection had been sent before it. */
  datatype Registration = Registration(number: nat, heardFrom: nat)

  /** A message sent by the query of a registration. */
  datatype Answer = Answer(registration: nat, message: OutgoingMessage)

  datatype Connection = Connection(
    worker: WorkerId,
    client: Client,
    /** The REQ by which each subscription was last registered. */
    registrations: map<SubscriptionId, Registration>,
    /** What broadcasts have sent. */
    live: seq<OutgoingMessage>,
    /** What the connection's own queries have sent. */
    replies: seq<Answer>)

  /** Work that was begun and whose next step is still to come. */
  datatype Token =
    /** A delete event that has deleted its targets, and is to be stored itself. */
    | Unstored(connection: ConnectionId, event: Event)
    /** A stored event whose publisher's handler is to broadcast it. */
    | Unannounced(connection: ConnectionId, event: Event)
    | ToPrimary(from: WorkerId, event: Event)
    | ToWorker(to: WorkerId, event: Event)

  datatype Stage = Issued | Streaming(rest: multiset<Event>)

  /** The query of an accepted REQ. */
  datatype Fetch = Fetch(
    connection: ConnectionId,
    registration: nat,
    id: SubscriptionId,
    filters: seq<Filter>,
    stage: Stage)

  datatype Asked = Asked(connection: ConnectionId, id: SubscriptionId, filters: seq<Filter>)

  datatype State = State(
    db: Db,
    workers: seq<WorkerId>,
    connections: map<ConnectionId, Connection>,
    flight: seq<Token>,
    fetches: seq<Fetch>,
    registered: nat,
    // history
    /** What each registration asked for. */
    asked: map<nat, Asked>,
    submitted: set<Event>,
    accepted: set<Event>,
    broadcasts: seq<Event>,
    /** Stored events whose publisher was gone when the broadcast was due. */
    lost: seq<Event>,
    /** What a registration's query found, with repetitions, and the ids that were soft-deleted when it ran. */
    shown: map<nat, multiset<Event>>,
    buried: map<nat, set<Bytes>>)

  function Initial(workers: seq<WorkerId>): State {
    State(EmptyDb, workers, map[], [], [], 0, map[], {}, {}, [], [], map[], map[])
  }

  // ---- parts of steps -------------------------------------------------------------------

  function Remove<T>(s: seq<T>, k: nat): seq<T>
    requires k < |s|
  {
    s[..k] + s[k + 1..]
  }

  /** The statement by which the strategy of the event's kind stores it. */
  ghost function Commit(db: Db, e: Event): Outcome {
    var strategy := EventStrategies.StrategyFor(e.kind);
    if strategy in {EventStrategies.Replaceable, EventStrategies.ParameterizedReplaceable} then
      match Upsert(db, e, EventStrategies.MetadataOf(e))
      case Ok(o) => o
      case Err(_) => Outcome(db, 0)
    else Create(db, e)
  }

  /** What a commit leads to: if it changed a row, the event's broadcast is to come. */
  function Committed(st: State, c: ConnectionId, e: Event, o: Outcome): State {
    if o.count == 0 then st.(db := o.db, submitted := st.submitted + {e})
    else st.(db := o.db, submitted := st.submitted + {e}, accepted := st.accepted + {e},
             flight := st.flight + [Unannounced(c, e)])
  }

  ghost function Store(st: State, c: ConnectionId, e: Event): State {
    Committed(st, c, e, Commit(st.db, e))
  }

  function Hear(c: Connection, e: Event): Connection {
    if c.client.open then c.(live := c.live + LiveMessages(c.client.table, e)) else c
  }

  /** A broadcast inside one worker. */
  function Broadcast(connections: map<ConnectionId, Connection>, w: WorkerId, e: Event): map<ConnectionId, Connection> {
    map c | c in connections :: if connections[c].worker == w then Hear(connections[c], e) else connections[c]
  }

  /** The primary sends to every worker except the one it came from. */
  function Fanout(workers: seq<WorkerId>, from: WorkerId, e: Event): seq<Token> {
    if workers == [] then []
    else (if workers[0] == from then [] else [ToWorker(workers[0], e)]) + Fanout(workers[1..], from, e)
  }

  predicate InTable(rows: Rows, e: Event) {
    ToBuffer(e.id) in rows && ToNostrEvent(rows[ToBuffer(e.id)]) == e
  }

  /** How often the query of a list of filters streams the event, below its limits: the filters of the
      stream keep or drop each row of the query's answer. */
  function Streamed(db: Db, filters: seq<Filter>, e: Event): nat {
    if InTable(db.rows, e) && !db.rows[ToBuffer(e.id)].deleted && MatchesAny(filters, e)
    then FilterMeaning.AnswerCopies(filters, db.rows[ToBuffer(e.id)], db.tags)
    else 0
  }

  /** All that the query streams. */
  ghost function Results(db: Db, filters: seq<Filter>): (r: multiset<Event>)
    ensures forall e :: r[e] == Streamed(db, filters, e)
  {
    var events := set id | id in db.rows :: ToNostrEvent(db.rows[id]);
    assert forall e :: InTable(db.rows, e) ==> e in events;
    Tally(map e | e in events :: Streamed(db, filters, e))
  }

  function DeletedIds(rows: Rows): set<Bytes> {
    set id | id in rows && rows[id].deleted
  }

  function Reply(c: Connection, registration: nat, m: OutgoingMessage): Connection {
    if c.client.open then c.(replies := c.replies + [Answer(registration, m)]) else c
  }

  /** The connection of a query sends one of its messages. */
  function Replied(connections: map<ConnectionId, Connection>, f: Fetch, m: OutgoingMessage)
    : map<ConnectionId, Connection>
    requires f.connection in connections
  {
    connections[f.connection := Reply(connections[f.connection], f.registration, m)]
  }

  // ---- steps ----------------------------------------------------------------------------

  datatype Step =
    | Connect(connection: ConnectionId, worker: WorkerId)
    /** A REQ up to its query, a CLOSE, or a disconnect. */
    | Ask(connection: ConnectionId, request: Request, limits: Option<Limits>)
    /** An event other than a delete event is stored. */
    | Publish(connection: ConnectionId, event: Event)
    /** A delete event deletes its targets. */
    | DeleteTargets(connection: ConnectionId, event: Event)
    | StoreDelete(k: nat)
    | Announce(k: nat)
    | Forward(k: nat)
    | Deliver(k: nat)
    | Snapshot(k: nat)
    | Stream(k: nat, event: Event)
    | Finish(k: nat)

  /** A valid event, whose id no different event has. */
  predicate Submittable(st: State, e: Event) {
    ValidEvent(e) && !IsEphemeral(e.kind) && forall a :: a in st.submitted && a.id == e.id ==> a == e
  }

  predicate Enabled(st: State, s: Step) {
    match s
    case Connect(c, w) => c !in st.connections && w in st.workers
    case Ask(c, _, _) => c in st.connections
    case Publish(c, e) => c in st.connections && Submittable(st, e) && !IsDelete(e.kind)
    case DeleteTargets(c, e) => c in st.connections && Submittable(st, e) && IsDelete(e.kind)
    case StoreDelete(k) => k < |st.flight| && st.flight[k].Unstored?
    case Announce(k) => k < |st.flight| && st.flight[k].Unannounced? && st.flight[k].connection in st.connections
    case Forward(k) => k < |st.flight| && st.flight[k].ToPrimary?
    case Deliver(k) => k < |st.flight| && st.flight[k].ToWorker?
    case Snapshot(k) => k < |st.fetches| && st.fetches[k].stage.Issued?
    case Stream(k, e) =>
      && k < |st.fetches| && st.fetches[k].stage.Streaming? && e in st.fetches[k].stage.rest
      && st.fetches[k].connection in st.connections
    case Finish(k) =>
      && k < |st.fetches| && st.fetches[k].stage == Streaming(multiset{}) && st.fetches[k].connection in st.connections
  }

  function NextConnect(st: State, c: ConnectionId, w: WorkerId): State {
    st.(connections := st.connections[c := Connection(w, Client(true, []), map[], [], [])])
  }

  function NextDeleteTargets(st: State, c: ConnectionId, e: Event): State {
    st.(db := DeleteByPubkeyAndIds(st.db, e.pubkey, EventStrategies.IdsToDelete(e.tags)).db,
        submitted := st.submitted + {e}, flight := st.flight + [Unstored(c, e)])
  }

  ghost function NextStoreDelete(st: State, k: nat): State
    requires k < |st.flight| && st.flight[k].Unstored?
  {
    Store(st.(flight := Remove(st.flight, k)), st.flight[k].connection, st.flight[k].event)
  }

  function NextForward(st: State, k: nat): State
    requires k < |st.flight| && st.flight[k].ToPrimary?
  {
    st.(flight := Remove(st.flight, k) + Fanout(st.workers, st.flight[k].from, st.flight[k].event))
  }

  function NextDeliver(st: State, k: nat): State
    requires k < |st.flight| && st.flight[k].ToWorker?
  {
    st.(flight := Remove(st.flight, k), connections := Broadcast(st.connections, st.flight[k].to, st.flight[k].event))
  }

  ghost function NextSnapshot(st: State, k: nat): State
    requires k < |st.fetches| && st.fetches[k].stage.Issued?
  {
    Found(st, k, Results(st.db, st.fetches[k].filters))
  }

  function Found(st: State, k: nat, results: multiset<Event>): State
    requires k < |st.fetches|
  {
    var f := st.fetches[k];
    st.(fetches := st.fetches[k := f.(stage := Streaming(results))],
        shown := st.shown[f.registration := results],
        buried := st.buried[f.registration := DeletedIds(st.db.rows)])
  }

  function NextStream(st: State, k: nat, e: Event): State
    requires k < |st.fetches| && st.fetches[k].stage.Streaming? && st.fetches[k].connection in st.connections
  {
    var f := st.fetches[k];
    st.(fetches := st.fetches[k := f.(stage := Streaming(f.stage.rest - multiset{e}))],
        connections := Replied(st.connections, f, EventMessage(f.id, e)))
  }

  function NextFinish(st: State, k: nat): State
    requires k < |st.fetches| && st.fetches[k].connection in st.connections
  {
    var f := st.fetches[k];
    st.(fetches := Remove(st.fetches, k),
        connections := Replied(st.connections, f, EndOfStoredEvents(f.id)))
  }

  /** An accepted REQ registers first, and issues its query after that. */
  function NextAsk(st: State, c: ConnectionId, r: Request, limits: Option<Limits>): State
    requires c in st.connections
  {
    var was := st.connections[c].client;
    Handled(st, c, r, Accepts(was, limits, r), Handle(was, limits, r))
  }

  function Handled(st: State, c: ConnectionId, r: Request, accepted: bool, client: Client): State
    requires c in st.connections && (accepted ==> r.Req?)
  {
    var now := st.connections[c].(client := client);
    if accepted then
      var filters := Unique(r.filters);
      var registration := Registration(st.registered, |now.live|);
      st.(connections := st.connections[c := now.(registrations := now.registrations[r.id := registration])],
          registered := st.registered + 1,
          asked := st.asked[st.registered := Asked(c, r.id, filters)],
          fetches := st.fetches + if filters == [] then [] else [Fetch(c, st.registered, r.id, filters, Issued)])
    else
      st.(connections := st.connections[c := now])
  }

  /** The publisher's handler goes on: local broadcast, then to the primary. A closed publisher's
      adapter has no listeners left, and nothing happens. */
  function NextAnnounce(st: State, k: nat): State
    requires k < |st.flight| && st.flight[k].Unannounced? && st.flight[k].connection in st.connections
  {
    var t := st.flight[k];
    var publisher := st.connections[t.connection];
    if publisher.client.open then
      st.(connections := Broadcast(st.connections, publisher.worker, t.event),
          flight := Remove(st.flight, k) + [ToPrimary(publisher.worker, t.event)],
          broadcasts := st.broadcasts + [t.event])
    else
      st.(flight := Remove(st.flight, k), lost := st.lost + [t.event])
  }

  ghost function Next(st: State, s: Step): State
    requires Enabled(st, s)
  {
    match s
    case Connect(c, w) => NextConnect(st, c, w)
    case Ask(c, r, limits) => NextAsk(st, c, r, limits)
    case Publish(c, e) => Store(st, c, e)
    case DeleteTargets(c, e) => NextDeleteTargets(st, c, e)
    case StoreDelete(k) => NextStoreDelete(st, k)
    case Announce(k) => NextAnnounce(st, k)
    case Forward(k) => NextForward(st, k)
    case Deliver(k) => NextDeliver(st, k)
    case Snapshot(k) => NextSnapshot(st, k)
    case Stream(k, e) => NextStream(st, k, e)
    case Finish(k) => NextFinish(st, k)
  }

  /** The state after the steps, if each of them was enabled in its turn. */
  ghost function Exec(st: State, steps: seq<Step>): Option<State> {
    if steps == [] then Some(st)
    else
      var before := Exec(st, steps[..|steps| - 1]);
      var s := steps[|steps| - 1];
      if before.Some? && Enabled(before.value, s) then Some(Next(before.value, s)) else None
  }

  predicate DistinctWorkers(workers: seq<WorkerId>) {
    forall i, j :: 0 <= i < j < |workers| ==> workers[i] != workers[j]
  }

  /** Some run of the cluster ends in the state. */
  ghost predicate Reachable(st: State) {
    exists workers, steps :: DistinctWorkers(workers) && Exec(Initial(workers), steps) == Some(st)
  }

  /** Nothing is in flight: no broadcast on its way, no query running. */
  predicate Quiescent(st: State) {
    st.flight == [] && st.fetches == []
  }

  // ---- runs -----------------------------------------------------------------------------

  lemma ExecStep(st: State, steps: seq<Step>, s: Step)
    requires Exec(st, steps).Some? && Enabled(Exec(st, steps).value, s)
    ensures Exec(st, steps + [s]) == Some(Next(Exec(st, steps).value, s))
  {
    assert (steps + [s])[..|steps + [s]| - 1] == steps;
  }

  lemma {:induction false} ExecConcat(st: State, a: seq<Step>, b: seq<Step>)
    requires Exec(st, a).Some?
    ensures Exec(st, a + b) == Exec(Exec(st, a).value, b)
  {
    if b == [] {
      assert a + b == a;
    } else {
      assert (a + b)[..|a + b| - 1] == a + b[..|b| - 1];
      ExecConcat(st, a, b[..|b| - 1]);
    }
  }

  lemma ReachableNext(st: State, s: Step)
    requires Reachable(st) && Enabled(st, s)
    ensures Reachable(Next(st, s))
  {
    var workers, steps :| DistinctWorkers(workers) && Exec(Initial(workers), steps) == Some(st);
    ExecStep(Initial(workers), steps, s);
  }

  lemma ExecOne(st: State, s: Step)
    requires Enabled(st, s)
    ensures Exec(st, [s]) == Some(Next(st, s))
  {
    assert Exec(st, []) == Some(st);
    ExecStep(st, [], s);
    assert [] + [s] == [s];
  }

  lemma ReachableRun(st: State, steps: seq<Step>)
    requires Reachable(st) && Exec(st, steps).Some?
    ensures Reachable(Exec(st, steps).value)
  {
    var workers, before :| DistinctWorkers(workers) && Exec(Initial(workers), before) == Some(st);
    ExecConcat(Initial(workers), before, steps);
  }
}
