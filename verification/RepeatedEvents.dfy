/** How often a query sends an event: the rows that the join repeats are all sent. */
module RepeatedEvents {
  import opened EndOfStored
  import opened EventRepository
  import opened Events
  import EventStrategies
  import opened FilterMeaning
  import opened Hex
  import LostBroadcast
  import NoGap
  import opened Relay
  import opened RelayStore
  import opened RepeatedRows
  import opened Subscriptions
  import opened TagIndex
  import opened Wrappers

  predicate ValidFilters(filters: seq<Filter>) {
    forall f :: f in filters ==> ValidFilter(f)
  }

  lemma ResultsCount(db: Db, accepted: set<Event>, filters: seq<Filter>, e: Event)
    requires Sound(db, accepted) && ValidFilters(filters) && e in Results(db, filters)
    ensures Results(db, filters)[e] == Repeats(filters, e)
  {
    NoGap.ResultsSound(db, accepted, filters, e);
    AnswerRepeats(filters, e, db.rows[ToBuffer(e.id)], db.rows, db.tags);
  }

  // ---- what every query found -----------------------------------------------------------

  ghost predicate FoundAsCounted(st: State, r: nat, e: Event) {
    r in st.shown && e in st.shown[r] ==>
      r in st.asked && (ValidFilters(st.asked[r].filters) ==> st.shown[r][e] == Repeats(st.asked[r].filters, e))
  }

  ghost predicate CountInvariant(st: State) {
    forall r, e :: FoundAsCounted(st, r, e)
  }

  lemma SnapshotCounts(st: State, k: nat)
    requires StoreInvariant(st) && AnswerInvariant(st) && CountInvariant(st) && Enabled(st, Snapshot(k))
    ensures CountInvariant(NextSnapshot(st, k))
  {
    var f, next := st.fetches[k], NextSnapshot(st, k);
    assert f in st.fetches && Underway(st, f);
    forall r, e ensures FoundAsCounted(next, r, e) {
      assert FoundAsCounted(st, r, e);
      if r == f.registration && e in Results(st.db, f.filters) && ValidFilters(f.filters) {
        ResultsCount(st.db, st.accepted, f.filters, e);
      }
    }
  }

  /** Steps that find nothing: what was asked for stays so. */
  lemma NothingFound(st: State, next: State)
    requires CountInvariant(st) && next.shown == st.shown
    requires forall r :: r in st.asked ==> r in next.asked && next.asked[r] == st.asked[r]
    ensures CountInvariant(next)
  {
    forall r, e ensures FoundAsCounted(next, r, e) {
      assert FoundAsCounted(st, r, e);
    }
  }

  lemma AskCounts(st: State, c: ConnectionId, r: Request, accepted: bool, client: Client)
    requires AnswerInvariant(st) && CountInvariant(st) && c in st.connections && (accepted ==> r.Req?)
    ensures CountInvariant(Handled(st, c, r, accepted, client))
  {
    NothingFound(st, Handled(st, c, r, accepted, client));
  }

  lemma CommittedCounts(st: State, flight: seq<Token>, c: ConnectionId, e: Event, o: Outcome)
    requires CountInvariant(st)
    ensures CountInvariant(Committed(st.(flight := flight), c, e, o))
  {
    NothingFound(st, Committed(st.(flight := flight), c, e, o));
  }

  lemma AnnounceCounts(st: State, k: nat)
    requires CountInvariant(st) && Enabled(st, Announce(k))
    ensures CountInvariant(NextAnnounce(st, k))
  {
    NothingFound(st, NextAnnounce(st, k));
  }

  lemma StreamCounts(st: State, k: nat, e: Event)
    requires CountInvariant(st) && Enabled(st, Stream(k, e))
    ensures CountInvariant(NextStream(st, k, e))
  {
    NothingFound(st, NextStream(st, k, e));
  }

  lemma FinishCounts(st: State, k: nat)
    requires CountInvariant(st) && Enabled(st, Finish(k))
    ensures CountInvariant(NextFinish(st, k))
  {
    NothingFound(st, NextFinish(st, k));
  }

  lemma NextKeepsCounts(st: State, s: Step)
    requires StoreInvariant(st) && AnswerInvariant(st) && CountInvariant(st) && Enabled(st, s)
    ensures CountInvariant(Next(st, s))
  {
    match s
    case Connect(c, w) => NothingFound(st, NextConnect(st, c, w));
    case Ask(c, r, limits) =>
      var was := st.connections[c].client;
      AskCounts(st, c, r, Accepts(was, limits, r), Handle(was, limits, r));
    case Publish(c, e) => CommittedCounts(st, st.flight, c, e, Commit(st.db, e));
    case DeleteTargets(c, e) => NothingFound(st, NextDeleteTargets(st, c, e));
    case StoreDelete(k) =>
      var t := st.flight[k];
      CommittedCounts(st, Remove(st.flight, k), t.connection, t.event, Commit(st.db, t.event));
    case Announce(k) => AnnounceCounts(st, k);
    case Forward(k) => NothingFound(st, NextForward(st, k));
    case Deliver(k) => NothingFound(st, NextDeliver(st, k));
    case Snapshot(k) => SnapshotCounts(st, k);
    case Stream(k, e) => StreamCounts(st, k, e);
    case Finish(k) => FinishCounts(st, k);
  }

  lemma {:induction false} ExecKeepsCounts(workers: seq<WorkerId>, steps: seq<Step>)
    ensures Exec(Initial(workers), steps).Some? ==> CountInvariant(Exec(Initial(workers), steps).value)
  {
    if steps != [] && Exec(Initial(workers), steps).Some? {
      var front := steps[..|steps| - 1];
      ExecKeepsStore(workers, front);
      ExecKeepsAnswers(workers, front);
      ExecKeepsCounts(workers, front);
      NextKeepsCounts(Exec(Initial(workers), front).value, steps[|steps| - 1]);
    }
  }

  // ---- the guarantee, and where it ends -------------------------------------------------

  /** In every run, on every connection that is still open, once the query of an accepted REQ no longer runs:
      an event that the query found was sent as often as the answer repeats it. */
  lemma SentAsRepeated(st: State, r: nat, e: Event)
    requires Reachable(st) && Done(st, r) && ValidFilters(st.asked[r].filters)
    ensures r in st.shown
    ensures var sent := multiset(AnswersOf(st, st.asked[r].connection, r))[EventMessage(st.asked[r].id, e)];
            sent == if e in st.shown[r] then Repeats(st.asked[r].filters, e) else 0
  {
    AnsweredCompletely(st, r);
    var workers, steps :| DistinctWorkers(workers) && Exec(Initial(workers), steps) == Some(st);
    ExecKeepsCounts(workers, steps);
    assert FoundAsCounted(st, r, e);
  }

  /** It was sent exactly once if and only if the REQ has several distinct filters, or its one filter no tag
      key, or exactly one row of the tag index answers that key: for plain criteria, exactly one of the
      event's tags is named by them. */
  lemma SentOnceExactly(st: State, r: nat, e: Event)
    requires Reachable(st) && Done(st, r) && r in st.shown && e in st.shown[r] && ValidFilters(st.asked[r].filters)
    ensures var filters := st.asked[r].filters;
            var once := multiset(AnswersOf(st, st.asked[r].connection, r))[EventMessage(st.asked[r].id, e)] == 1;
            && (once <==> |filters| >= 2 || filters[0].tags == []
                          || AnsweringRows(filters[0], IndexTags(ToBuffer(e.id), e.tags)) == 1)
            && ((forall f :: f in filters ==> Answerable(f))
                ==> (once <==> |filters| >= 2 || filters[0].tags == [] || TagsNaming(e.tags, filters[0].tags[0]) == 1))
  {
    SentAsRepeated(st, r, e);
    if forall f :: f in st.asked[r].filters ==> Answerable(f) {
      FoundOnceExactly(st.asked[r].filters, e);
    }
  }

  // ---- runs that repeat -----------------------------------------------------------------

  /** One query runs, and nothing but what it has left and what it sent differs. */
  ghost predicate Continues(st: State, next: State) {
    && next.asked == st.asked && next.shown == st.shown && next.connections.Keys == st.connections.Keys
    && forall c :: c in st.connections ==> next.connections[c].client == st.connections[c].client
  }

  lemma StreamOne(st: State, e: Event)
    requires st.fetches != [] && Enabled(st, Stream(0, e))
    ensures var f, next := st.fetches[0], NextStream(st, 0, e);
            && Continues(st, next) && next.fetches == st.fetches[0 := next.fetches[0]]
            && next.fetches[0] == f.(stage := Streaming(f.stage.rest - multiset{e}))
  {
  }

  lemma FinishOne(st: State)
    requires |st.fetches| == 1 && Enabled(st, Finish(0))
    ensures Continues(st, NextFinish(st, 0)) && NextFinish(st, 0).fetches == []
  {
  }

  /** The one running query goes on to its end. */
  lemma {:induction false} StreamedOut(st: State) returns (last: State)
    requires Reachable(st) && |st.fetches| == 1 && st.fetches[0].stage.Streaming?
    requires st.fetches[0].connection in st.connections
    ensures Reachable(last) && last.fetches == [] && Continues(st, last)
    decreases |st.fetches[0].stage.rest|
  {
    if st.fetches[0].stage.rest == multiset{} {
      ReachableNext(st, Finish(0));
      FinishOne(st);
      last := NextFinish(st, 0);
    } else {
      var e :| e in st.fetches[0].stage.rest;
      ReachableNext(st, Stream(0, e));
      StreamOne(st, e);
      last := StreamedOut(NextStream(st, 0, e));
    }
  }

  const NO_LIMITS := Some(Limits(0, 0, None))

  lemma NewIsAccepted(c: Client, id: SubscriptionId, filters: seq<Filter>)
    requires c.open && Get(c.table, id).None?
    ensures Accepts(c, NO_LIMITS, Req(id, filters)) && Handle(c, NO_LIMITS, Req(id, filters)).open
  {
  }

  lemma Registered(st: State, c: ConnectionId, id: SubscriptionId, filters: seq<Filter>) returns (next: State)
    requires Reachable(st) && st.fetches == [] && c in st.connections && st.connections[c].client.open
    requires Get(st.connections[c].client.table, id).None? && Unique(filters) != []
    ensures Reachable(next) && next.fetches == [Fetch(c, st.registered, id, Unique(filters), Issued)]
    ensures next.asked == st.asked[st.registered := Asked(c, id, Unique(filters))] && next.db == st.db
    ensures c in next.connections && next.connections[c].client.open
  {
    var was := st.connections[c].client;
    NewIsAccepted(was, id, filters);
    ReachableNext(st, Ask(c, Req(id, filters), NO_LIMITS));
    next := Handled(st, c, Req(id, filters), true, Handle(was, NO_LIMITS, Req(id, filters)));
  }

  lemma Fetched(st: State, f: Fetch) returns (last: State)
    requires Reachable(st) && st.fetches == [f] && f.stage.Issued? && f.connection in st.connections
    ensures Reachable(last) && last.fetches == [] && last.asked == st.asked
    ensures last.shown == st.shown[f.registration := Results(st.db, f.filters)]
    ensures last.connections.Keys == st.connections.Keys
    ensures forall c :: c in st.connections ==> last.connections[c].client == st.connections[c].client
  {
    ReachableNext(st, Snapshot(0));
    last := StreamedOut(NextSnapshot(st, 0));
  }

  /** From every state in which no query runs, a new subscription can come to be sent a stored event as often
      as its filters repeat it. */
  lemma RepetitionIsReal(st: State, c: ConnectionId, id: SubscriptionId, filters: seq<Filter>, e: Event)
    returns (last: State)
    requires Reachable(st) && st.fetches == [] && c in st.connections && st.connections[c].client.open
    requires Get(st.connections[c].client.table, id).None? && ValidFilters(Unique(filters))
    requires e in Results(st.db, Unique(filters))
    ensures Reachable(last) && Done(last, st.registered)
    ensures last.asked[st.registered] == Asked(c, id, Unique(filters))
    ensures multiset(AnswersOf(last, c, st.registered))[EventMessage(id, e)] == Repeats(Unique(filters), e)
  {
    ReachableStore(st);
    NoGap.ResultsSound(st.db, st.accepted, Unique(filters), e);
    var asked := Registered(st, c, id, filters);
    last := Fetched(asked, asked.fetches[0]);
    SentAsRepeated(last, st.registered, e);
  }

  lemma PublishedAlone(workers: seq<WorkerId>, e: Event) returns (st: State)
    requires workers != [] && DistinctWorkers(workers)
    requires ValidEvent(e) && !IsEphemeral(e.kind) && !IsDelete(e.kind)
    ensures Reachable(st) && st.fetches == [] && st.registered == 0
    ensures 0 in st.connections && st.connections[0].client == Client(true, [])
    ensures e in st.accepted && Stored(st.db, e) && !st.db.rows[ToBuffer(e.id)].deleted
  {
    var s0 := Initial(workers);
    assert Exec(s0, []) == Some(s0);
    ReachableNext(s0, Connect(0, workers[0]));
    var s1 := NextConnect(s0, 0, workers[0]);
    LostBroadcast.EmptyTakes(e);
    EventStrategies.EmptyIsConsistent();
    CommitTakes(EmptyDb, e);
    ReachableNext(s1, Publish(0, e));
    st := Committed(s1, 0, e, Commit(EmptyDb, e));
  }

  lemma FoundAlone(st: State, f: Filter, e: Event)
    requires Reachable(st) && e in st.accepted && Stored(st.db, e) && !st.db.rows[ToBuffer(e.id)].deleted
    requires Answerable(f) && IsEventMatchingFilter(f, e)
    ensures e in Results(st.db, [f])
  {
    ReachableStore(st);
    assert f in [f];
    NoGap.ResultsComplete(st.db, st.accepted, [f], e);
  }

  lemma UniqueOne(f: Filter)
    ensures Unique([f]) == [f]
  {
    assert [f][..0] == [];
    assert Unique([f][..0]) == [];
  }

  /** Every event and every matching filter have a run in which the query repeats it so. */
  lemma RepeatedAlone(workers: seq<WorkerId>, id: SubscriptionId, f: Filter, e: Event) returns (last: State)
    requires workers != [] && DistinctWorkers(workers)
    requires ValidEvent(e) && !IsEphemeral(e.kind) && !IsDelete(e.kind)
    requires Answerable(f) && IsEventMatchingFilter(f, e)
    ensures Reachable(last) && Done(last, 0) && last.asked[0] == Asked(0, id, [f])
    ensures multiset(AnswersOf(last, 0, 0))[EventMessage(id, e)] == Repeats([f], e)
  {
    var st := PublishedAlone(workers, e);
    UniqueOne(f);
    FoundAlone(st, f, e);
    last := RepetitionIsReal(st, 0, id, [f], e);
  }

  const THREAD := Filter(None, None, None, None, None, None, [TagCriteria('e', ["a", "b"])])

  const REPLY_TAGS: seq<Tag> := [["e", "a"], ["e", "b"]]

  lemma ThreadRepeats(e: Event)
    requires e.tags == REPLY_TAGS
    ensures Answerable(THREAD) && IsEventMatchingFilter(THREAD, e) && Repeats([THREAD], e) == 2
  {
    var c := THREAD.tags[0];
    assert THREAD.tags == [c];
    assert e.tags[0] in e.tags && HasTag(e.tags, c);
    AnsweringTags(THREAD, c, ToBuffer(e.id), e.tags);
    assert REPLY_TAGS[..1] == [["e", "a"]] && REPLY_TAGS[..1][..0] == [];
    assert TagsNaming(REPLY_TAGS[..1][..0], c) == 0;
    assert TagsNaming(REPLY_TAGS[..1], c) == 1;
  }

  /** A reply to two events is sent twice to a REQ for the replies to either, and then end-of-stored-events. */
  lemma SentTwice(workers: seq<WorkerId>, e: Event) returns (last: State)
    requires workers != [] && DistinctWorkers(workers)
    requires ValidEvent(e) && !IsEphemeral(e.kind) && !IsDelete(e.kind) && e.tags == REPLY_TAGS
    ensures Reachable(last) && Done(last, 0) && last.asked[0] == Asked(0, "thread", [THREAD])
    ensures multiset(AnswersOf(last, 0, 0))[EventMessage("thread", e)] == 2
  {
    ThreadRepeats(e);
    last := RepeatedAlone(workers, "thread", THREAD, e);
  }
}
