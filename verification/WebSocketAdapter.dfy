/** One client's connection: its subscriptions, updated in place, and what is sent to it. */
module WebSocketAdapter {
  import opened Events
  import opened Relay
  import opened Subscriptions
  import opened Wrappers

  class WebSocketAdapter {
    /** The socket's ready state is OPEN. */
    var open: bool
    /** Cleared when the socket closes: from then on an emitted event reaches no handler. */
    var listening: bool
    var alive: bool
    var subscriptions: Table
    var sent: seq<OutgoingMessage>

    ghost predicate Valid()
      reads this
    {
      DistinctIds(subscriptions) && (!listening ==> subscriptions == [])
    }

    constructor ()
      ensures Valid() && open && listening && alive && subscriptions == [] && sent == []
    {
      open, listening, alive, subscriptions, sent := true, true, true, [], [];
    }

    method SendMessage(m: OutgoingMessage)
      modifies this`sent
      ensures sent == old(sent) + if open then [m] else []
    {
      if !open {
        return;
      }
      sent := sent + [m];
    }

    method OnSubscribed(id: SubscriptionId, filters: seq<Filter>)
      requires Valid() && listening
      modifies this`subscriptions
      ensures Valid() && subscriptions == Set(old(subscriptions), id, filters)
    {
      SetExact(subscriptions, id, filters, id);
      subscriptions := Set(subscriptions, id, filters);
    }

    method OnUnsubscribed(id: SubscriptionId)
      requires Valid()
      modifies this`subscriptions
      ensures Valid() && subscriptions == Delete(old(subscriptions), id)
      ensures forall limits :: State() == Handle(old(State()), limits, Close(id))
      ensures Get(subscriptions, id) == None
    {
      DeleteExact(subscriptions, id, id);
      subscriptions := Delete(subscriptions, id);
    }

    /** Sends the event once to every subscription that has a matching filter. */
    method OnSendEvent(e: Event)
      modifies this`sent
      ensures sent == old(sent) + if open then LiveMessages(subscriptions, e) else []
    {
      var i := 0;
      while i < |subscriptions|
        invariant 0 <= i <= |subscriptions|
        invariant sent == old(sent) + if open then LiveMessages(subscriptions[..i], e) else []
      {
        assert subscriptions[..i + 1][..i] == subscriptions[..i];
        var entry := subscriptions[i];
        var matches := Matches(entry.filters, e);
        if matches {
          SendMessage(EventMessage(entry.id, e));
        }
        i := i + 1;
      }
      assert subscriptions[..i] == subscriptions;
    }

    static method Matches(filters: seq<Filter>, e: Event) returns (matches: bool)
      ensures matches <==> MatchesAny(filters, e)
    {
      matches := false;
      var i := 0;
      while i < |filters|
        invariant 0 <= i <= |filters|
        invariant matches <==> exists k :: 0 <= k < i && IsEventMatchingFilter(filters[k], e)
      {
        matches := matches || IsEventMatchingFilter(filters[i], e);
        i := i + 1;
      }
    }

    /** A client that did not answer the last ping is dropped, unless it has subscriptions. */
    method OnHeartbeat() returns (pinged: bool)
      modifies this`alive, this`open
      ensures pinged <==> old(alive) || subscriptions != []
      ensures !alive && open == (old(open) && pinged)
    {
      if !alive && subscriptions == [] {
        open := false;
        return false;
      }
      alive := false;
      pinged := true;
    }

    method OnClientClose()
      requires Valid()
      modifies this`open, this`listening, this`alive, this`subscriptions
      ensures Valid() && !open && !alive
      ensures forall limits :: State() == Handle(old(State()), limits, Disconnect)
    {
      open, alive, subscriptions := false, false, [];
      listening := false;
    }

    /** The connection as the run of one client sees it. */
    function State(): Client
      reads this
    {
      Client(listening, subscriptions)
    }

    static function RefusalOf(decision: Decision, heard: bool): seq<OutgoingMessage> {
      if decision.Reject? && heard then [Notice("Subscription rejected: " + decision.reason)] else []
    }

    /** What a decided REQ does to the connection. */
    static lemma Decided(c: Client, limits: Option<Limits>, id: SubscriptionId, filters: seq<Filter>,
                         decision: Decision)
      requires decision == CanSubscribe(c.table, id, Unique(filters), limits)
      ensures Handle(c, limits, Req(id, filters))
              == if c.open && decision == Accept then c.(table := Set(c.table, id, Unique(filters))) else c
    {
    }

    method Act(id: SubscriptionId, filters: seq<Filter>,
               decision: Decision) returns (query: Result<Option<seq<Filter>>, string>)
      requires Valid()
      modifies this`subscriptions, this`sent
      ensures Valid()
      ensures subscriptions
              == if decision == Accept && listening then Set(old(subscriptions), id, filters) else old(subscriptions)
      ensures sent == old(sent) + RefusalOf(decision, listening && open)
      ensures match decision
              case Accept => query == Ok(Some(filters))
              case Reject(_) => query == Ok(None)
              case Fail => query.Err?
    {
      match decision
      case Fail =>
        query := Err("Cannot read properties of undefined (reading 'maxSubscriptionIdLength')");
      case Reject(reason) =>
        if listening {
          SendMessage(Notice("Subscription rejected: " + reason));
        }
        query := Ok(None);
      case Accept =>
        if listening {
          OnSubscribed(id, filters);
        }
        query := Ok(Some(filters));
    }

    /** A REQ up to its query: registered, refused with a notice, or failed on missing settings. */
    method HandleRequest(id: SubscriptionId, filters: seq<Filter>, limits: Option<Limits>)
      returns (query: Result<Option<seq<Filter>>, string>)
      requires Valid()
      modifies this`subscriptions, this`sent
      ensures Valid()
      ensures State() == Handle(old(State()), limits, Req(id, filters))
      ensures sent
              == old(sent) + RefusalOf(CanSubscribe(old(subscriptions), id, Unique(filters), limits), listening && open)
      ensures match CanSubscribe(old(subscriptions), id, Unique(filters), limits)
              case Accept => query == Ok(Some(Unique(filters)))
              case Reject(_) => query == Ok(None)
              case Fail => query.Err?
    {
      var unique := Unique(filters);
      var decision := CanSubscribe(subscriptions, id, unique, limits);
      Decided(State(), limits, id, filters, decision);
      query := Act(id, unique, decision);
    }
  }

  /** The client as a connection of the cluster: its log of live messages is what was sent to it. */
  function ConnectionOf(client: Client, sent: seq<OutgoingMessage>): Connection {
    Connection(0, client, map[], sent, [])
  }

  lemma HeardExactly(was: seq<OutgoingMessage>, now: seq<OutgoingMessage>, t: Table, e: Event)
    requires DistinctIds(t) && now == was + LiveMessages(t, e)
    ensures forall m: OutgoingMessage ::
              multiset(now)[m] == multiset(was)[m] + if m.EventMessage? then Sends(m, e, m.id, Get(t, m.id)) else 0
  {
    forall m: OutgoingMessage
      ensures multiset(now)[m] == multiset(was)[m] + if m.EventMessage? then Sends(m, e, m.id, Get(t, m.id)) else 0
    {
      LiveMessagesExact(t, e, m);
      assert multiset(now) == multiset(was) + multiset(LiveMessages(t, e));
    }
  }

  class WebSocketServerAdapter {
    var clients: seq<WebSocketAdapter>

    ghost predicate Valid()
      reads this, clients
    {
      && (forall i, j :: 0 <= i < j < |clients| ==> clients[i] != clients[j])
      && (forall c :: c in clients ==> c.Valid())
    }

    constructor ()
      ensures Valid() && clients == []
    {
      clients := [];
    }

    method OnConnection(client: WebSocketAdapter)
      requires Valid() && client !in clients && client.Valid()
      modifies this
      ensures Valid() && clients == old(clients) + [client]
    {
      clients := clients + [client];
    }

    /** The loop over the clients. */
    method EmitEvent(e: Event)
      requires Valid()
      modifies clients
      ensures forall c :: c in clients ==>
        && c.sent == old(c.sent) + (if c.open && c.listening then LiveMessages(c.subscriptions, e) else [])
        && c.State() == old(c.State()) && c.open == old(c.open) && c.alive == old(c.alive)
    {
      var i := 0;
      while i < |clients|
        invariant 0 <= i <= |clients|
        invariant forall k :: 0 <= k < i ==>
          clients[k].sent
          == old(clients[k].sent)
             + if clients[k].open && clients[k].listening then LiveMessages(clients[k].subscriptions, e) else []
        invariant forall k :: i <= k < |clients| ==> clients[k].sent == old(clients[k].sent)
        invariant forall c :: c in clients ==>
          c.State() == old(c.State()) && c.open == old(c.open) && c.alive == old(c.alive)
      {
        var client := clients[i];
        if client.open && client.listening {
          client.OnSendEvent(e);
        }
        i := i + 1;
      }
    }

    /** Every open client hears the event once on each matching subscription, as a connection of the cluster
        does; no other client hears anything, and no subscription changes. */
    method OnBroadcast(e: Event)
      requires Valid()
      modifies clients
      ensures Valid()
      ensures forall c :: c in clients ==>
        && old(c.sent) <= c.sent
        && (c.open && c.listening ==> forall m: OutgoingMessage ::
              multiset(c.sent)[m] == multiset(old(c.sent))[m]
                                     + if m.EventMessage? then Sends(m, e, m.id, Get(c.subscriptions, m.id)) else 0)
        && (!(c.open && c.listening) ==> c.sent == old(c.sent))
        && (c.open ==> c.sent == Hear(ConnectionOf(c.State(), old(c.sent)), e).live)
      ensures forall c :: c in clients ==>
        c.State() == old(c.State()) && c.open == old(c.open) && c.alive == old(c.alive)
    {
      EmitEvent(e);
      forall c | c in clients && c.open && c.listening
        ensures forall m: OutgoingMessage ::
                  multiset(c.sent)[m] == multiset(old(c.sent))[m]
                                         + if m.EventMessage? then Sends(m, e, m.id, Get(c.subscriptions, m.id)) else 0
      {
        HeardExactly(old(c.sent), c.sent, c.subscriptions, e);
      }
    }
  }

  /** A worker process: its server, and what it has sent to the primary. */
  class AppWorker {
    const adapter: WebSocketServerAdapter
    var toPrimary: seq<Event>

    constructor (adapter: WebSocketServerAdapter)
      ensures this.adapter == adapter && toPrimary == []
    {
      this.adapter := adapter;
      toPrimary := [];
    }

    /** A broadcast of one of the worker's own clients: to the worker's clients, and once to the primary. */
    method OnBroadcast(e: Event)
      requires adapter.Valid()
      modifies this, adapter.clients
      ensures toPrimary == old(toPrimary) + [e]
      ensures forall c :: c in adapter.clients ==>
        && old(c.sent) <= c.sent
        && (c.open && c.listening ==> forall m: OutgoingMessage ::
              multiset(c.sent)[m] == multiset(old(c.sent))[m]
                                     + if m.EventMessage? then Sends(m, e, m.id, Get(c.subscriptions, m.id)) else 0)
        && (!(c.open && c.listening) ==> c.sent == old(c.sent))
        && (c.open ==> c.sent == Hear(ConnectionOf(c.State(), old(c.sent)), e).live)
      ensures forall c :: c in adapter.clients ==> c.State() == old(c.State()) && c.open == old(c.open)
    {
      adapter.OnBroadcast(e);
      toPrimary := toPrimary + [e];
    }

    /** A forwarded broadcast: to the worker's clients only, never back to the primary. */
    method OnMessage(e: Event)
      requires adapter.Valid()
      modifies adapter.clients
      ensures toPrimary == old(toPrimary)
      ensures forall c :: c in adapter.clients ==>
        && old(c.sent) <= c.sent
        && (c.open && c.listening ==> forall m: OutgoingMessage ::
              multiset(c.sent)[m] == multiset(old(c.sent))[m]
                                     + if m.EventMessage? then Sends(m, e, m.id, Get(c.subscriptions, m.id)) else 0)
        && (!(c.open && c.listening) ==> c.sent == old(c.sent))
        && (c.open ==> c.sent == Hear(ConnectionOf(c.State(), old(c.sent)), e).live)
      ensures forall c :: c in adapter.clients ==> c.State() == old(c.State()) && c.open == old(c.open)
    {
      adapter.OnBroadcast(e);
    }
  }

  /** The primary's handle of a worker. */
  class Worker {
    const id: nat
    var inbox: seq<Event>

    constructor (id: nat)
      ensures this.id == id && inbox == []
    {
      this.id := id;
      inbox := [];
    }

    method Send(e: Event)
      modifies this
      ensures inbox == old(inbox) + [e]
    {
      inbox := inbox + [e];
    }
  }

  class App {
    var workers: seq<Worker>

    ghost predicate Valid()
      reads this
    {
      forall i, j :: 0 <= i < j < |workers| ==> workers[i] != workers[j]
    }

    constructor ()
      ensures Valid() && workers == []
    {
      workers := [];
    }

    /** Every worker except the one it came from gets the message exactly once. */
    method OnClusterMessage(source: nat, e: Event)
      requires Valid()
      modifies workers
      ensures forall w :: w in workers ==> w.inbox == old(w.inbox) + if w.id == source then [] else [e]
    {
      var i := 0;
      while i < |workers|
        invariant 0 <= i <= |workers|
        invariant forall k :: 0 <= k < i ==>
          workers[k].inbox == old(workers[k].inbox) + if workers[k].id == source then [] else [e]
        invariant forall k :: i <= k < |workers| ==> workers[k].inbox == old(workers[k].inbox)
      {
        var worker := workers[i];
        i := i + 1;
        if worker.id == source {
          continue;
        }
        worker.Send(e);
      }
    }
  }
}
