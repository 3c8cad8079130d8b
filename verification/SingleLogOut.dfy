/** Single log-out over whole runs of the ticket protocol, with either registry. */
module SingleLogOut {
  import opened Tickets
  import opened TicketRuns
  import opened TicketAccounting
  import opened LogOut
  import opened Wrappers

  /**
    A service object as a granting ticket holds it. In memory it is the object the caller passed, shared by all tickets
    granted for it; a row of the database holds a copy of its own for every grant.
   */
  datatype Held = Held(copy: Option<Id>, service: Service)

  function Holds(kind: RegistryKind, session: Id, service: Service): Held {
    Held(if kind.InMemory? then None else Some(session), service)
  }

  /** The operation expires a granting ticket. */
  ghost predicate Ends(s: State, op: Op)
    requires s.registry <= s.heap.Keys
  {
    op.Destroy? && op.id in s.registry && s.heap[op.id].detail.Granting?
  }

  /** What one operation tells: the services of the granting ticket it expires. */
  ghost function ToTell(kind: RegistryKind, s: State, op: Op): map<Id, Held>
    requires s.registry <= s.heap.Keys
  {
    if Ends(s, op) then
      var services := s.heap[op.id].detail.services;
      map x | x in services :: Holds(kind, x, services[x])
    else map[]
  }

  /** A run from the empty registry, with the order in which each of its events enumerates what it tells. */
  ghost predicate Possible(kind: RegistryKind, cfg: Config, es: seq<Event>, orders: seq<seq<Id>>, clock: int): (b: bool)
    ensures b ==> Admits(kind, cfg, EMPTY, es, clock)
    decreases |es|
  {
    && |orders| == |es|
    && (|es| > 0 ==>
          var n := |es| - 1;
          && Possible(kind, cfg, es[..n], orders[..n], clock)
          && var s := After(kind, cfg, EMPTY, es[..n], clock);
          && Clock(es[..n], clock) <= es[n].now && Fresh(s, es[n].op)
          && Enumerates(orders[n], ToTell(kind, s, es[n].op))
          && (RunSnoc(kind, cfg, EMPTY, es[..n], clock, es[n]);
              assert es[..n] + [es[n]] == es;
              true))
  }

  const NO_LOG: Log<Held> := Log({}, [])

  /** The flags and messages at the end of a run. */
  ghost function Logged(endpoint: Endpoint<Held>, kind: RegistryKind, cfg: Config, es: seq<Event>, orders: seq<seq<Id>>,
                        clock: int): Log<Held>
    requires Possible(kind, cfg, es, orders, clock)
    decreases |es|
  {
    if |es| == 0 then NO_LOG
    else
      var n := |es| - 1;
      LogOutAll(endpoint, Logged(endpoint, kind, cfg, es[..n], orders[..n], clock),
                ToTell(kind, After(kind, cfg, EMPTY, es[..n], clock), es[n].op), orders[n])
  }

  function Pairs(gs: seq<(Id, Service)>): set<(Id, Service)> { set g | g in gs }

  /**
    The service tickets, with their services, whose log-out a run owes: all that were issued by a granting ticket by the
    time the run expired it.
   */
  ghost function Due(kind: RegistryKind, cfg: Config, es: seq<Event>, orders: seq<seq<Id>>, clock: int)
    : set<(Id, Service)>
    requires Possible(kind, cfg, es, orders, clock)
    decreases |es|
  {
    if |es| == 0 then {}
    else
      var n := |es| - 1;
      Due(kind, cfg, es[..n], orders[..n], clock)
      + if Ends(After(kind, cfg, EMPTY, es[..n], clock), es[n].op) then
          Pairs(GrantedBy(es[..n], Outcomes(kind, cfg, EMPTY, es[..n], clock), es[n].op.id))
        else {}
  }

  // ---------------------------------------------------------------- who is told

  /** The objects flagged are those of the tickets due, and every message is about one of these tickets. */
  ghost predicate Fair(kind: RegistryKind, l: Log<Held>, due: set<(Id, Service)>) {
    && (forall h :: h in l.notified <==> exists p :: p in due && h == Holds(kind, p.0, p.1))
    && (forall i :: 0 <= i < |l.sent| ==>
          && (l.sent[i].session, l.sent[i].service.service) in due
          && l.sent[i].service == Holds(kind, l.sent[i].session, l.sent[i].service.service))
  }

  lemma FairNext(endpoint: Endpoint<Held>, kind: RegistryKind, l: Log<Held>, due: set<(Id, Service)>,
                 services: map<Id, Service>, gs: seq<(Id, Service)>, held: map<Id, Held>, order: seq<Id>)
    requires Fair(kind, l, due) && Files(services, gs)
    requires held == (map x | x in services :: Holds(kind, x, services[x])) && Enumerates(order, held)
    ensures Fair(kind, LogOutAll(endpoint, l, held, order), due + Pairs(gs))
  {
    AllNotified(endpoint, l, held, order);
    var e, all := LogOutAll(endpoint, l, held, order), due + Pairs(gs);
    forall h | h in e.notified ensures exists p :: p in all && h == Holds(kind, p.0, p.1) {
      if h in l.notified {
        var p :| p in due && h == Holds(kind, p.0, p.1);
        assert p in all;
      } else {
        var k :| 0 <= k < |order| && held[order[k]] == h;
        assert (order[k], services[order[k]]) in services.Items;
      }
    }
    forall p | p in all ensures Holds(kind, p.0, p.1) in e.notified {
      if p in gs {
        assert p in services.Items && p.0 in held && p.0 in order;
      }
    }
    forall i | 0 <= i < |e.sent|
      ensures && (e.sent[i].session, e.sent[i].service.service) in all
              && e.sent[i].service == Holds(kind, e.sent[i].session, e.sent[i].service.service) {
      if i < |l.sent| {
        assert e.sent[i] == l.sent[i];
      } else {
        assert (e.sent[i].session, services[e.sent[i].session]) in services.Items;
      }
    }
  }

  /**
    Single log-out: at the end of every run, with either registry and however the maps are enumerated, the service
    objects told are exactly those of the service tickets issued by granting tickets the run expired; each was sent one
    message if it has a client and none otherwise; and every message names such a ticket as its session.
   */
  lemma {:induction false} ToldExactly(endpoint: Endpoint<Held>, kind: RegistryKind, cfg: Config, es: seq<Event>,
                                       orders: seq<seq<Id>>, clock: int)
    requires Possible(kind, cfg, es, orders, clock)
    ensures var l := Logged(endpoint, kind, cfg, es, orders, clock);
            Fair(kind, l, Due(kind, cfg, es, orders, clock)) && OnceEach(endpoint, l)
    decreases |es|
  {
    if |es| > 0 {
      var n := |es| - 1;
      ToldExactly(endpoint, kind, cfg, es[..n], orders[..n], clock);
      var l := Logged(endpoint, kind, cfg, es[..n], orders[..n], clock);
      var due := Due(kind, cfg, es[..n], orders[..n], clock);
      var s, op := After(kind, cfg, EMPTY, es[..n], clock), es[n].op;
      AllOnce(endpoint, l, ToTell(kind, s, op), orders[n]);
      if Ends(s, op) {
        CountedAlways(kind, cfg, es[..n], clock, s, op.id);
        FairNext(endpoint, kind, l, due, s.heap[op.id].detail.services,
                 GrantedBy(es[..n], Outcomes(kind, cfg, EMPTY, es[..n], clock), op.id), ToTell(kind, s, op), orders[n]);
      } else {
        FairNext(endpoint, kind, l, due, map[], [], map[], orders[n]);
        assert due + Pairs([]) == due;
      }
    }
  }
}
