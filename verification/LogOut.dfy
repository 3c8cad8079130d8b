/** The log-out of services when a granting ticket is expired: one call per granted service ticket. */
module LogOut {
  import opened Tickets
  import opened Wrappers

  /** One HTTP post of a log-out request that names a service ticket as the session. */
  datatype Message<S> = Message(service: S, url: string, session: Id)

  /** The service objects whose `loggedOutAlready` is set, and the messages sent so far. */
  datatype Log<S(==)> = Log(notified: set<S>, sent: seq<Message<S>>)

  /** Where a service object posts to; None without an HTTP client. */
  type Endpoint<!S> = S -> Option<string>

  function LogOutOne<S>(endpoint: Endpoint<S>, l: Log<S>, session: Id, s: S): Log<S> {
    if s in l.notified then l
    else Log(l.notified + {s},
             match endpoint(s) case None => l.sent case Some(url) => l.sent + [Message(s, url, session)])
  }

  /** `order` is how the hash map enumerates its keys. */
  function LogOutAll<S>(endpoint: Endpoint<S>, l: Log<S>, services: map<Id, S>, order: seq<Id>): Log<S>
    requires forall k :: 0 <= k < |order| ==> order[k] in services
  {
    if |order| == 0 then l
    else
      var last := order[|order| - 1];
      LogOutOne(endpoint, LogOutAll(endpoint, l, services, order[..|order| - 1]), last, services[last])
  }

  ghost predicate Enumerates<S>(order: seq<Id>, services: map<Id, S>) {
    && (forall k :: 0 <= k < |order| ==> order[k] in services)
    && (forall id :: id in services ==> id in order)
  }

  /** The messages for one service object. */
  function Sends<S(==)>(sent: seq<Message<S>>, s: S): (n: nat) {
    if |sent| == 0 then 0
    else Sends(sent[..|sent| - 1], s) + if sent[|sent| - 1].service == s then 1 else 0
  }

  /** A service object has been sent one message if it was notified and has a client, otherwise none. */
  ghost predicate OnceEach<S(!new)>(endpoint: Endpoint<S>, l: Log<S>) {
    forall s :: Sends(l.sent, s) == if s in l.notified && endpoint(s).Some? then 1 else 0
  }

  lemma OneOnce<S(!new)>(endpoint: Endpoint<S>, l: Log<S>, session: Id, s: S)
    requires OnceEach(endpoint, l)
    ensures OnceEach(endpoint, LogOutOne(endpoint, l, session, s))
  {
    var e := LogOutOne(endpoint, l, session, s);
    if |e.sent| > |l.sent| {
      assert e.sent[..|e.sent| - 1] == l.sent;
    }
  }

  lemma {:induction false} AllOnce<S(!new)>(endpoint: Endpoint<S>, l: Log<S>, services: map<Id, S>, order: seq<Id>)
    requires OnceEach(endpoint, l) && forall k :: 0 <= k < |order| ==> order[k] in services
    ensures OnceEach(endpoint, LogOutAll(endpoint, l, services, order))
  {
    if |order| > 0 {
      var last := order[|order| - 1];
      AllOnce(endpoint, l, services, order[..|order| - 1]);
      OneOnce(endpoint, LogOutAll(endpoint, l, services, order[..|order| - 1]), last, services[last]);
    }
  }

  /**
    Exactly the services of the map are notified, and every new message names a ticket granted for its service and goes
    to the endpoint of that service.
   */
  lemma {:induction false} AllNotified<S>(endpoint: Endpoint<S>, l: Log<S>, services: map<Id, S>, order: seq<Id>)
    requires forall k :: 0 <= k < |order| ==> order[k] in services
    ensures var e := LogOutAll(endpoint, l, services, order);
            && (forall s :: s in e.notified <==>
                  s in l.notified || exists k :: 0 <= k < |order| && services[order[k]] == s)
            && l.sent <= e.sent
            && forall i :: |l.sent| <= i < |e.sent| ==>
                 && e.sent[i].session in services && services[e.sent[i].session] == e.sent[i].service
                 && endpoint(e.sent[i].service) == Some(e.sent[i].url)
  {
    if |order| > 0 {
      AllNotified(endpoint, l, services, order[..|order| - 1]);
    }
  }

  // ---------------------------------------------------------------- the objects

  /** The messages sent by all clients, in order. */
  class Network {
    var sent: seq<Message<WebApplicationService>>
  }

  class HttpClient {
    const network: Network

    constructor (network: Network)
      ensures this.network == network
    {
      this.network := network;
    }

    /** Whether the post succeeds is up to the network. */
    method SendMessageToEndPoint(m: Message<WebApplicationService>) returns (ok: bool)
      modifies network
      ensures network.sent == old(network.sent) + [m]
    {
      network.sent := network.sent + [m];
      ok := *;
    }
  }

  class WebApplicationService {
    const id: string
    const originalUrl: string
    const callbackLogOutUrl: Option<string>
    const httpClient: HttpClient?
    var loggedOutAlready: bool

    constructor (id: string, originalUrl: string, callbackLogOutUrl: Option<string>, httpClient: HttpClient?)
      ensures !loggedOutAlready && this.httpClient == httpClient
      ensures this.originalUrl == originalUrl && this.callbackLogOutUrl == callbackLogOutUrl
    {
      this.id, this.originalUrl, this.callbackLogOutUrl := id, originalUrl, callbackLogOutUrl;
      this.httpClient, loggedOutAlready := httpClient, false;
    }

    function EndpointUrl(): Option<string> {
      if httpClient == null then None
      else if callbackLogOutUrl.Some? && |callbackLogOutUrl.value| > 0 then callbackLogOutUrl
      else Some(originalUrl)
    }

    method LogOutOfService(sessionIdentifier: Id) returns (ok: bool)
      modifies this, if httpClient == null then {} else {httpClient.network}
      ensures loggedOutAlready && (old(loggedOutAlready) ==> ok)
      ensures !old(loggedOutAlready) && httpClient == null ==> !ok
      ensures httpClient != null ==>
        httpClient.network.sent
        == old(httpClient.network.sent)
           + if old(loggedOutAlready) then []
             else if callbackLogOutUrl == None || callbackLogOutUrl == Some("") then
               [Message(this, originalUrl, sessionIdentifier)]
             else [Message(this, callbackLogOutUrl.value, sessionIdentifier)]
    {
      if loggedOutAlready {
        return true;
      }
      loggedOutAlready := true;
      if httpClient != null {
        if callbackLogOutUrl.Some? && |callbackLogOutUrl.value| > 0 {
          ok := httpClient.SendMessageToEndPoint(Message(this, callbackLogOutUrl.value, sessionIdentifier));
        } else {
          ok := httpClient.SendMessageToEndPoint(Message(this, originalUrl, sessionIdentifier));
        }
        return;
      }
      return false;
    }
  }

  function UrlOf(s: WebApplicationService): Option<string> { s.EndpointUrl() }

  /** What the flags of a set of service objects and the trace of the network record. */
  ghost function Recorded(objects: set<WebApplicationService>, network: Network): Log<WebApplicationService>
    reads objects, network
  {
    Log((set s | s in objects && s.loggedOutAlready), network.sent)
  }

  /** `TicketGrantingTicketImpl.logOutOfServices`, over the entries in some order; each object has its own client. */
  method LogOutOfServices(services: map<Id, WebApplicationService>, network: Network) returns (ghost order: seq<Id>)
    requires forall id :: id in services ==>
      services[id].httpClient == null || services[id].httpClient.network == network
    modifies services.Values, network
    ensures Enumerates(order, services)
    ensures Recorded(services.Values, network)
         == LogOutAll(UrlOf, old(Recorded(services.Values, network)), services, order)
  {
    order := [];
    var todo := services.Keys;
    while todo != {}
      invariant forall id :: id in order || id in todo <==> id in services
      invariant forall k :: 0 <= k < |order| ==> order[k] in services
      invariant Recorded(services.Values, network)
             == LogOutAll(UrlOf, old(Recorded(services.Values, network)), services, order)
      decreases todo
    {
      var id :| id in todo;
      assert id in services;
      var s := services[id];
      ghost var before := Recorded(services.Values, network);
      var ok := s.LogOutOfService(id);
      assert Recorded(services.Values, network) == LogOutOne(UrlOf, before, id, s);
      assert (order + [id])[..|order|] == order;
      order, todo := order + [id], todo - {id};
    }
  }
}
