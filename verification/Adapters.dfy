/** The connection, server, worker and primary objects, proved against the functions the runs are about. */
module Adapters {
  import opened Wrappers
  import opened Nostr
  import opened Subscriptions
  import Authentication
  import Cluster

  datatype MessageType = EVENT | REQ | CLOSE | AUTHENTICATE

  // ----- one connection -----

  class WebSocketAdapter {
    /** client.readyState === OPEN */
    var isOpen: bool
    /** Whether the adapter still has its listeners; what is emitted on it without them is dropped. */
    var listening: bool
    var subscriptions: seq<Subscription>
    var authChallenge: Option<Authentication.Challenge>
    var authenticated: bool
    /** What client.send was given. */
    var outbox: seq<Outgoing>

    constructor ()
      ensures Valid() && isOpen && listening && subscriptions == [] && outbox == []
      ensures AuthState() == Authentication.INITIAL
    {
      isOpen, listening, subscriptions, outbox := true, true, [], [];
      authChallenge, authenticated := None, false;
    }

    predicate Valid()
      reads this
    {
      DistinctIds(subscriptions)
    }

    function AuthState(): Authentication.State
      reads this
    {
      Authentication.State(authChallenge, authenticated)
    }

    method SendMessage(m: Outgoing)
      modifies this`outbox
      ensures outbox == old(outbox) + if isOpen then [m] else []
    {
      if !isOpen {
        return;
      }
      outbox := outbox + [m];
    }

    /** emit(Message) */
    method EmitMessage(m: Outgoing)
      modifies this`outbox
      ensures outbox == old(outbox) + if listening && isOpen then [m] else []
    {
      if listening {
        SendMessage(m);
      }
    }

    /** Afterwards the id has these filters, and every other id what it had. */
    method OnSubscribed(id: string, filters: seq<Filter>)
      requires Valid()
      modifies this`subscriptions
      ensures Valid() && Lookup(subscriptions, id) == filters
      ensures forall other | other != id :: Lookup(subscriptions, other) == Lookup(old(subscriptions), other)
      ensures forall x :: x in subscriptions <==>
                x == Subscription(id, filters) || (x in old(subscriptions) && x.id != id)
      ensures subscriptions == Put(old(subscriptions), id, filters)
    {
      hide Put, Lookup, DistinctIds;
      PutMeans(subscriptions, id, filters);
      forall other ensures Lookup(Put(subscriptions, id, filters), other) ==
        if other == id then filters else Lookup(subscriptions, other)
      {
        LookupPut(subscriptions, id, filters, other);
      }
      subscriptions := Put(subscriptions, id, filters);
    }

    /** Afterwards the id has no subscription, and every other id what it had. */
    method OnUnsubscribed(id: string)
      requires Valid()
      modifies this`subscriptions
      ensures Valid() && Lookup(subscriptions, id) == []
      ensures forall other | other != id :: Lookup(subscriptions, other) == Lookup(old(subscriptions), other)
      ensures subscriptions == Remove(old(subscriptions), id)
    {
      hide Remove, Lookup, DistinctIds;
      RemoveKeeps(subscriptions, id, Subscription(id, []));
      forall other ensures Lookup(Remove(subscriptions, id), other) ==
        if other == id then [] else Lookup(subscriptions, other)
      {
        LookupRemove(subscriptions, id, other);
      }
      subscriptions := Remove(subscriptions, id);
    }

    /** The client is closed; the subscriptions and the listeners go. */
    method OnClientClose()
      requires !isOpen
      modifies this`subscriptions, this`listening
      ensures Valid() && subscriptions == [] && !listening
    {
      subscriptions := [];
      listening := false;
    }

    /** Offers a live event to every subscription. */
    method OnSendEvent(e: Event)
      modifies this`outbox
      ensures outbox == old(outbox) + if isOpen then LiveMessages(subscriptions, e) else []
    {
      hide MatchesAny, LiveMessages;
      ghost var sent: seq<Outgoing> := [];
      var i := 0;
      LiveNone(e);
      while i < |subscriptions|
        invariant i <= |subscriptions|
        invariant sent == LiveMessages(subscriptions[..i], e)
        invariant outbox == old(outbox) + if isOpen then sent else []
      {
        LiveSnoc(subscriptions[..i], subscriptions[i], e);
        assert subscriptions[..i + 1] == subscriptions[..i] + [subscriptions[i]];
        if MatchesAny(subscriptions[i].filters, e) {
          SendMessage(EventMessage(subscriptions[i].id, e));
          sent := sent + [EventMessage(subscriptions[i].id, e)];
        }
        i := i + 1;
      }
      assert subscriptions[..i] == subscriptions;
    }

    /** emit(Event) */
    method EmitEvent(e: Event)
      modifies this`outbox
      ensures outbox == old(outbox) + if listening && isOpen then LiveMessages(subscriptions, e) else []
    {
      hide LiveMessages;
      if listening {
        OnSendEvent(e);
      }
    }

    method SetNewAuthChallenge(now: int, nonce: string) returns (challenge: string)
      modifies this`authChallenge
      ensures challenge == nonce && authChallenge == Some(Authentication.Challenge(now, nonce))
    {
      authChallenge := Some(Authentication.Challenge(now, nonce));
      return nonce;
    }

    method SetClientToAuthenticated()
      modifies this`authChallenge, this`authenticated
      ensures AuthState() == Authentication.State(None, true)
    {
      authenticated, authChallenge := true, None;
    }

    /** Only EVENT messages are ever held back; the check lets AUTH, CLOSE and REQ through first. */
    method IsAuthenticationRequired(kind: MessageType, id: string, enabled: bool, now: int, nonce: string)
      returns (required: bool)
      modifies this
      ensures required <==> kind == EVENT && enabled && Authentication.Blocked(old(AuthState()))
      ensures kind == EVENT && enabled ==>
                AuthState() == Authentication.Next(old(AuthState()), Authentication.Arrive(now, nonce))
      ensures !required ==> unchanged(this)
      ensures isOpen == old(isOpen) && listening == old(listening) && subscriptions == old(subscriptions)
      ensures required ==> outbox == old(outbox) + if isOpen
                then [CommandResult(id, false, "rejected: unauthorized"), AuthMessage(nonce)] else []
    {
      if !authenticated && kind != AUTHENTICATE && kind != CLOSE && kind != REQ && enabled {
        var challenge := SetNewAuthChallenge(now, nonce);
        SendMessage(CommandResult(id, false, "rejected: unauthorized"));
        SendMessage(AuthMessage(challenge));
        return true;
      }
      return false;
    }
  }

  function AuthReply(e: Event, accepted: bool): Outgoing {
    CommandResult(e.id, accepted, if accepted then "authentication: succeeded" else "authentication: failed")
  }

  /** SignedAuthEventStrategy.execute; without an issued challenge, reading it throws. */
  method ExecuteAuth(webSocket: WebSocketAdapter, e: Event, now: int) returns (r: Result<bool, TypeError>)
    modifies webSocket
    ensures webSocket.AuthState() == Authentication.Next(old(webSocket.AuthState()), Authentication.Execute(e, now))
    ensures r.Err? <==> old(webSocket.authChallenge).None?
    ensures r.Ok? ==> r.value == Authentication.Accepts(old(webSocket.AuthState()), e, now)
    ensures webSocket.isOpen == old(webSocket.isOpen) && webSocket.listening == old(webSocket.listening)
    ensures webSocket.subscriptions == old(webSocket.subscriptions)
    ensures webSocket.outbox == old(webSocket.outbox)
              + if r.Ok? && webSocket.listening && webSocket.isOpen then [AuthReply(e, r.value)] else []
  {
    if webSocket.authChallenge.None? {
      return Err(TypeError.TypeError);
    }
    var challenge := webSocket.authChallenge.value;
    var verified := Authentication.IsValidSignedAuthEvent(e, challenge.text);
    var timeIsWithinBounds := challenge.createdAt + Authentication.RESPONSE_TIME > now;
    if verified && timeIsWithinBounds {
      webSocket.SetClientToAuthenticated();
      webSocket.EmitMessage(AuthReply(e, true));
      return Ok(true);
    }
    webSocket.EmitMessage(AuthReply(e, false));
    return Ok(false);
  }

  method UniqWith(filters: seq<Filter>) returns (kept: seq<Filter>)
    ensures kept == Uniq(filters)
  {
    kept := [];
    for i := 0 to |filters|
      invariant kept == Uniq(filters[..i])
    {
      assert filters[..i + 1][..i] == filters[..i];
      if filters[i] !in kept {
        kept := kept + [filters[i]];
      }
    }
    assert filters[..|filters|] == filters;
  }

  function Reason(r: Refusal): string {
    match r
    case Duplicate => "Duplicate subscription"
    case TooManySubscriptions => "Too many subscriptions"
    case TooManyFilters => "Too many filters"
    case IdTooLong => "Subscription ID too long"
  }

  /**
   SubscribeMessageHandler.handleMessage up to the query: register first.  A refused REQ gets a notice, and
   without configured limits the admission of anything but a duplicate throws.
   */
  method HandleReq(webSocket: WebSocketAdapter, limits: Option<Limits>, id: string, filters: seq<Filter>)
    returns (admitted: Result<bool, TypeError>)
    requires webSocket.Valid()
    modifies webSocket
    ensures webSocket.Valid()
    ensures webSocket.subscriptions == if webSocket.listening
              then Next(limits, old(webSocket.subscriptions), Req(id, filters)) else old(webSocket.subscriptions)
    ensures webSocket.listening && admitted == Ok(true) ==> Lookup(webSocket.subscriptions, id) == Uniq(filters)
    ensures admitted.Err? <==> limits.None? && !IsDuplicate(old(webSocket.subscriptions), id, Uniq(filters))
    ensures admitted.Ok? ==>
              match CanSubscribe(limits, old(webSocket.subscriptions), id, Uniq(filters)).value
              case None => admitted.value && webSocket.outbox == old(webSocket.outbox)
              case Some(refusal) =>
                && !admitted.value && webSocket.subscriptions == old(webSocket.subscriptions)
                && webSocket.outbox == old(webSocket.outbox)
                     + if webSocket.listening && webSocket.isOpen then [RefusalNotice(refusal)] else []
    ensures admitted.Err? ==>
              webSocket.outbox == old(webSocket.outbox) && webSocket.subscriptions == old(webSocket.subscriptions)
    ensures webSocket.isOpen == old(webSocket.isOpen) && webSocket.listening == old(webSocket.listening)
    ensures webSocket.AuthState() == old(webSocket.AuthState())
  {
    hide Put, Lookup, Uniq;
    var unique := UniqWith(filters);
    var decision := CanSubscribe(limits, webSocket.subscriptions, id, unique);
    match decision {
      case Err(error) => return Err(error);
      case Ok(refusal) =>
        if refusal.Some? {
          webSocket.EmitMessage(RefusalNotice(refusal.value));
          return Ok(false);
        }
        if webSocket.listening {
          webSocket.OnSubscribed(id, unique);
        }
        return Ok(true);
    }
  }

  function RefusalNotice(refusal: Refusal): Outgoing {
    Notice("Subscription rejected: " + Reason(refusal))
  }

  /** The connection already has these very filters, and at least one, under the id. */
  predicate IsDuplicate(subs: seq<Subscription>, id: string, filters: seq<Filter>) {
    Lookup(subs, id) != [] && Lookup(subs, id) == filters
  }

  // ----- the connections of one worker -----

  class WebSocketServerAdapter {
    var clients: seq<WebSocketAdapter>

    constructor ()
      ensures clients == []
    {
      clients := [];
    }

    ghost predicate Valid()
      reads this
    {
      forall i, j | 0 <= i < j < |clients| :: clients[i] != clients[j]
    }

    /** Every open connection is offered the event once. */
    method OnBroadcast(e: Event)
      requires Valid()
      modifies clients
      ensures forall i | 0 <= i < |clients| ::
        var c := clients[i];
        && c.outbox == old(c.outbox) + (if c.listening && c.isOpen then LiveMessages(c.subscriptions, e) else [])
        && c.isOpen == old(c.isOpen) && c.listening == old(c.listening)
        && c.subscriptions == old(c.subscriptions) && c.AuthState() == old(c.AuthState())
    {
      hide LiveMessages;
      var i := 0;
      while i < |clients|
        invariant i <= |clients|
        invariant forall k | 0 <= k < |clients| ::
          var c := clients[k];
          && c.isOpen == old(c.isOpen) && c.listening == old(c.listening)
          && c.subscriptions == old(c.subscriptions) && c.AuthState() == old(c.AuthState())
        invariant forall k | 0 <= k < i ::
          clients[k].outbox == old(clients[k].outbox)
            + (if clients[k].listening && clients[k].isOpen then LiveMessages(clients[k].subscriptions, e) else [])
        invariant forall k | i <= k < |clients| :: clients[k].outbox == old(clients[k].outbox)
      {
        if clients[i].isOpen {
          clients[i].EmitEvent(e);
        }
        i := i + 1;
      }
    }
  }

  // ----- worker and primary -----

  /** A worker process as the primary sees it: what was sent to it, and its id. */
  class Worker {
    const id: nat
    var inbox: seq<Cluster.Message>

    constructor (id: nat)
      ensures this.id == id && inbox == []
    {
      this.id, inbox := id, [];
    }
  }

  class App {
    const workers: seq<Worker>

    constructor (workers: seq<Worker>)
      ensures this.workers == workers
    {
      this.workers := workers;
    }

    /** Worker ids are distinct, so workers are. */
    ghost predicate Valid() {
      forall i, j | 0 <= i < j < |workers| :: workers[i].id != workers[j].id
    }

    function Inboxes(): seq<seq<Cluster.Message>>
      reads workers
    {
      seq(|workers|, i requires 0 <= i < |workers| reads workers => workers[i].inbox)
    }

    /** The primary sends a message on to every worker but the one it came from. */
    method OnClusterMessage(source: nat, message: Cluster.Message)
      requires Valid() && source < |workers|
      modifies workers
      ensures Inboxes() == Cluster.Forwarded(old(Inboxes()), source, message)
    {
      ghost var before := Inboxes();
      var i := 0;
      while i < |workers|
        invariant i <= |workers|
        invariant forall k | 0 <= k < i :: workers[k].inbox == if k == source then before[k] else before[k] + [message]
        invariant forall k | i <= k < |workers| :: workers[k].inbox == before[k]
      {
        if workers[i].id != workers[source].id {
          workers[i].inbox := workers[i].inbox + [message];
        }
        i := i + 1;
      }
      ghost var after := Inboxes();
      assert forall k | 0 <= k < |workers| :: after[k] == workers[k].inbox;
    }
  }

  /** The worker's end of its channel to the primary. */
  class Process {
    var sent: seq<Event>

    constructor ()
      ensures sent == []
    {
      sent := [];
    }
  }

  /**
   emit(Broadcast) on the publisher's adapter: this worker's connections first, then the primary.  An adapter
   that has lost its listeners drops the broadcast.
   */
  method OnLocalBroadcast(publisher: WebSocketAdapter, server: WebSocketServerAdapter, process: Process, e: Event)
    requires server.Valid()
    modifies server.clients, process
    ensures process.sent == old(process.sent) + if old(publisher.listening) then [e] else []
    ensures forall i | 0 <= i < |server.clients| ::
      var c := server.clients[i];
      c.outbox == old(c.outbox)
        + (if old(publisher.listening) && c.listening && c.isOpen then LiveMessages(c.subscriptions, e) else [])
  {
    hide LiveMessages;
    if publisher.listening {
      server.OnBroadcast(e);
      process.sent := process.sent + [e];
    }
  }

  /** AppWorker.onMessage: a forwarded broadcast is applied here; nothing but these connections is touched. */
  method OnForwarded(server: WebSocketServerAdapter, e: Event)
    requires server.Valid()
    modifies server.clients
    ensures forall i | 0 <= i < |server.clients| ::
      var c := server.clients[i];
      c.outbox == old(c.outbox) + (if c.listening && c.isOpen then LiveMessages(c.subscriptions, e) else [])
  {
    hide LiveMessages;
    server.OnBroadcast(e);
  }
}
