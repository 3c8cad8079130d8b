/** The granting relation, the authentications along it, and the assertions built from them. */
module TicketChains {
  import opened Tickets
  import opened TicketInvariants
  import opened TicketRuns
  import opened TicketOutcomes
  import opened TicketAccounting
  import opened Wrappers

  /** Each ticket of the path was granted from the next. */
  ghost predicate GrantingPath(heap: map<Id, Ticket>, path: seq<Id>) {
    && (forall i :: 0 <= i < |path| ==> path[i] in heap)
    && (forall i :: 0 <= i < |path| - 1 ==> heap[path[i]].parent == Some(path[i + 1]))
  }

  lemma {:induction false} PathDescends(heap: map<Id, Ticket>, rank: map<Id, nat>, path: seq<Id>)
    requires Forest(heap, rank) && GrantingPath(heap, path) && |path| > 1
    ensures rank[path[|path| - 1]] < rank[path[0]]
  {
    assert ParentBelow(heap, rank, path[0]);
    assert heap[path[0]].parent == Some(path[1]);
    if |path| > 2 {
      var rest := path[1..];
      forall i | 0 <= i < |rest| - 1 ensures heap[rest[i]].parent == Some(rest[i + 1]) {
        assert heap[path[i + 1]].parent == Some(path[i + 1 + 1]);
      }
      PathDescends(heap, rank, rest);
    }
  }

  /** In every state a run reaches, no ticket is reached from itself by following granting tickets. */
  lemma GrantingAcyclic(kind: RegistryKind, cfg: Config, es: seq<Event>, clock: int, path: seq<Id>)
    requires Admits(kind, cfg, EMPTY, es, clock)
    requires GrantingPath(After(kind, cfg, EMPTY, es, clock).heap, path) && |path| > 1
    ensures path[0] != path[|path| - 1]
  {
    var end := After(kind, cfg, EMPTY, es, clock);
    PathDescends(end.heap, end.rank, path);
  }

  /** The granting chain of `id`, up to the login. */
  ghost function Chain(heap: map<Id, Ticket>, rank: map<Id, nat>, id: Id): (path: seq<Id>)
    requires Forest(heap, rank) && id in heap
    ensures |path| > 0 && path[0] == id
    decreases rank[id]
  {
    assert ParentBelow(heap, rank, id);
    [id] + if heap[id].parent.Some? then Chain(heap, rank, heap[id].parent.value) else []
  }

  /** It is the one granting path from `id` to a ticket without parent. */
  lemma {:induction false} ChainIsPath(heap: map<Id, Ticket>, rank: map<Id, nat>, id: Id)
    requires Forest(heap, rank) && id in heap
    ensures GrantingPath(heap, Chain(heap, rank, id))
    ensures var c := Chain(heap, rank, id); c[|c| - 1] in heap && heap[c[|c| - 1]].parent.None?
    decreases rank[id]
  {
    assert ParentBelow(heap, rank, id);
    if heap[id].parent.Some? {
      var p := heap[id].parent.value;
      ChainIsPath(heap, rank, p);
      var c, d := Chain(heap, rank, id), Chain(heap, rank, p);
      assert c == [id] + d;
      forall i | 0 <= i < |c| ensures c[i] in heap {
        if i > 0 { assert c[i] == d[i - 1]; }
      }
      forall i | 0 <= i < |c| - 1 ensures heap[c[i]].parent == Some(c[i + 1]) {
        if i > 0 { assert heap[d[i - 1]].parent == Some(d[i - 1 + 1]); }
      }
    }
  }

  lemma {:induction false} PathIsChain(heap: map<Id, Ticket>, rank: map<Id, nat>, path: seq<Id>)
    requires Forest(heap, rank) && GrantingPath(heap, path) && |path| > 0
    requires heap[path[|path| - 1]].parent.None?
    ensures path == Chain(heap, rank, path[0])
  {
    if |path| > 1 {
      var rest := path[1..];
      assert heap[path[0]].parent == Some(path[0 + 1]);
      forall i | 0 <= i < |rest| - 1 ensures heap[rest[i]].parent == Some(rest[i + 1]) {
        assert heap[path[i + 1]].parent == Some(path[i + 1 + 1]);
      }
      PathIsChain(heap, rank, rest);
      assert path == [path[0]] + rest;
    }
  }

  /** `getChainedAuthentications` lists the authentications along the chain, the ticket's own first, the login last. */
  lemma {:induction false} AuthenticationsFollowChain(heap: map<Id, Ticket>, rank: map<Id, nat>, id: Id)
    requires Forest(heap, rank) && id in heap && heap[id].detail.Granting?
    ensures var c, a := Chain(heap, rank, id), Authentications(heap, rank, id);
            |a| == |c| && forall i :: 0 <= i < |c| ==>
              c[i] in heap && heap[c[i]].detail.Granting? && a[i] == heap[c[i]].detail.authentication
    decreases rank[id]
  {
    assert ParentBelow(heap, rank, id);
    if heap[id].parent.Some? {
      var p := heap[id].parent.value;
      AuthenticationsFollowChain(heap, rank, p);
      var c, a := Chain(heap, rank, id), Authentications(heap, rank, id);
      var d, b := Chain(heap, rank, p), Authentications(heap, rank, p);
      forall i | 0 <= i < |c|
        ensures c[i] in heap && heap[c[i]].detail.Granting? && a[i] == heap[c[i]].detail.authentication {
        if i > 0 { assert c[i] == d[i - 1] && a[i] == b[i - 1]; }
      }
    }
  }

  /** What a service may learn of the login: nothing but released attributes, and all of those that exist. */
  ghost predicate ReleasedOnly(root: Authentication, last: Authentication, r: RegisteredService) {
    && last.date == root.date
    && (forall a :: a in last.principal.attributes <==>
         a in root.principal.attributes && (r.ignoreAttributes || a in r.allowedAttributes))
    && (forall a :: a in last.principal.attributes ==> last.principal.attributes[a] == root.principal.attributes[a])
    && (last.attributes == if r.ignoreAttributes then map[] else root.attributes)
  }

  /** The service has a username attribute, may see it, and the login has it. */
  predicate NameShown(root: Principal, r: RegisteredService) {
    && r.usernameAttribute.Some? && r.usernameAttribute.value in root.attributes
    && (r.ignoreAttributes || r.usernameAttribute.value in r.allowedAttributes)
  }

  /** The user name of an assertion. */
  ghost predicate NamedBy(root: Principal, name: string, r: RegisteredService, persistent: string) {
    && (r.anonymousAccess ==> name == persistent)
    && (!r.anonymousAccess && NameShown(root, r) ==> name == root.attributes[r.usernameAttribute.value])
    && (!r.anonymousAccess && !NameShown(root, r) ==> name == root.id)
  }

  /**
    A validation that returns an assertion was made with a live registered service ticket for a matching service; the
    assertion has one authentication for each ticket of the chain that granted it, unchanged but for the login, which is
    cut down to what the registered service may see.
   */
  lemma AssertionFollowsChain(kind: RegistryKind, cfg: Config, s: State, op: Op, now: int)
    requires Valid(kind, s) && op.Validate? && Step(kind, cfg, s, op, now).1.Asserted?
    ensures op.id in s.registry && s.heap[op.id].detail.Granted? && s.heap[op.id].parent.Some?
    ensures s.heap[op.id].parent.value in s.heap
    ensures !Expired(s.heap, s.rank, op.id, now) && op.found.Some? && op.found.value.enabled
    ensures op.matches(s.heap[op.id].detail.service)
    ensures var c, a := Chain(s.heap, s.rank, s.heap[op.id].parent.value), Step(kind, cfg, s, op, now).1.assertion;
            && a.service == s.heap[op.id].detail.service && a.fromNewLogin == s.heap[op.id].detail.fromNewLogin
            && |a.chain| == |c|
            && (forall i :: 0 <= i < |c| ==> c[i] in s.heap && s.heap[c[i]].detail.Granting?)
            && (forall i :: 0 <= i < |c| - 1 ==> a.chain[i] == s.heap[c[i]].detail.authentication)
            && var root := s.heap[c[|c| - 1]].detail.authentication;
               var last := a.chain[|c| - 1];
               ReleasedOnly(root, last, op.found.value)
               && NamedBy(root.principal, last.principal.id, op.found.value, op.persistentId(root.principal, a.service))
  {
    AssertedLive(kind, cfg, s, op, now);
    var p := s.heap[op.id].parent.value;
    AuthenticationsFollowChain(s.heap, s.rank, p);
    AssertionMeets(Authentications(s.heap, s.rank, p), s.heap[op.id].detail, op.found.value, op.persistentId);
  }

  lemma AssertedLive(kind: RegistryKind, cfg: Config, s: State, op: Op, now: int)
    requires Valid(kind, s) && op.Validate? && Step(kind, cfg, s, op, now).1.Asserted?
    ensures op.id in s.registry && s.heap[op.id].detail.Granted? && s.heap[op.id].parent.Some?
    ensures var p := s.heap[op.id].parent.value; p in s.heap && s.heap[p].detail.Granting?
    ensures !Expired(s.heap, s.rank, op.id, now) && op.found.Some? && op.found.value.enabled
    ensures op.matches(s.heap[op.id].detail.service)
    ensures Step(kind, cfg, s, op, now).1.assertion
         == AssertionOf(Authentications(s.heap, s.rank, s.heap[op.id].parent.value), s.heap[op.id].detail,
                        op.found.value, op.persistentId)
  {
    assert ParentBelow(s.heap, s.rank, op.id);
    Use1Valid(kind, s, op.id, now);
    UseKeepsAuthentications(kind, s, op.id, s.heap[op.id].parent.value, now);
  }

  lemma AssertionMeets(chain: seq<Authentication>, st: Detail, r: RegisteredService,
                       persistentId: (Principal, Service) -> string)
    requires |chain| > 0 && st.Granted?
    ensures var a, root := AssertionOf(chain, st, r, persistentId), chain[|chain| - 1];
            && |a.chain| == |chain| && a.service == st.service && a.fromNewLogin == st.fromNewLogin
            && a.chain[..|chain| - 1] == chain[..|chain| - 1]
            && ReleasedOnly(root, a.chain[|chain| - 1], r)
            && NamedBy(root.principal, a.chain[|chain| - 1].principal.id, r, persistentId(root.principal, a.service))
  {}

  /** The registered service may see the attribute. */
  predicate Sees(r: RegisteredService, a: string) { r.ignoreAttributes || a in r.allowedAttributes }

  /** The two logins differ at most in attributes the service may not see. */
  ghost predicate LooksSame(x: Authentication, y: Authentication, r: RegisteredService) {
    && x.principal.id == y.principal.id && x.date == y.date && (!r.ignoreAttributes ==> x.attributes == y.attributes)
    && forall a :: Sees(r, a) ==>
         && (a in x.principal.attributes <==> a in y.principal.attributes)
         && (a in x.principal.attributes ==> x.principal.attributes[a] == y.principal.attributes[a])
  }

  /**
    What a service may not see of a login does not reach it: logins that look the same to it give the same assertion,
    the user name included, provided the generator of persistent ids tells them apart as little.
   */
  lemma AssertionHides(before: seq<Authentication>, x: Authentication, y: Authentication, st: Detail,
                       r: RegisteredService, persistentId: (Principal, Service) -> string)
    requires st.Granted? && LooksSame(x, y, r)
    requires r.anonymousAccess ==> persistentId(x.principal, st.service) == persistentId(y.principal, st.service)
    ensures AssertionOf(before + [x], st, r, persistentId) == AssertionOf(before + [y], st, r, persistentId)
  {
    var p, q := PrincipalId(x.principal, r, persistentId(x.principal, st.service)),
                PrincipalId(y.principal, r, persistentId(y.principal, st.service));
    assert p == q by {
      assert r.usernameAttribute.Some? && Sees(r, r.usernameAttribute.value) ==>
        (r.usernameAttribute.value in x.principal.attributes <==> r.usernameAttribute.value in y.principal.attributes);
    }
    assert Restricted(x, r, p) == Restricted(y, r, q) by {
      if r.ignoreAttributes {
        assert forall a :: Sees(r, a);
        assert x.principal.attributes == y.principal.attributes;
      } else {
        assert forall a :: a in r.allowedAttributes ==> Sees(r, a);
        assert Released(x.principal.attributes, r.allowedAttributes)
            == Released(y.principal.attributes, r.allowedAttributes);
      }
    }
    assert (before + [x])[..|before|] == before && (before + [y])[..|before|] == before;
  }

  /** Using a service ticket changes no granting ticket. */
  lemma {:induction false} UseKeepsAuthentications(kind: RegistryKind, s: State, id: Id, p: Id, now: int)
    requires Valid(kind, s) && id in s.heap && s.heap[id].detail.Granted? && Valid(kind, Use1(s, id, now))
    requires p in s.heap && s.heap[p].detail.Granting?
    ensures Authentications(Use1(s, id, now).heap, s.rank, p) == Authentications(s.heap, s.rank, p)
    decreases s.rank[p]
  {
    assert ParentBelow(s.heap, s.rank, p) && ParentBelow(Use1(s, id, now).heap, s.rank, p);
    if s.heap[p].parent.Some? {
      UseKeepsAuthentications(kind, s, id, s.heap[p].parent.value, now);
    }
  }

  // ---------------------------------------------------------------- from the grant to the assertion

  lemma {:induction false} LoginsEvolve(s: State, end: State, id: Id, now: int)
    requires Evolves(s, end, now) && Forest(end.heap, end.rank)
    requires id in s.heap && s.heap[id].detail.Granting? && id in end.heap
    ensures end.heap[id].detail.Granting?
    ensures Authentications(end.heap, end.rank, id) == Authentications(s.heap, s.rank, id)
    decreases s.rank[id]
  {
    assert ParentBelow(s.heap, s.rank, id) && ParentBelow(end.heap, end.rank, id) && Evolved(s, end.heap, id, now);
    if s.heap[id].parent.Some? {
      LoginsEvolve(s, end, s.heap[id].parent.value, now);
    }
  }

  /** The authentications of a granting ticket never change. */
  lemma {:induction false} LoginsKept(kind: RegistryKind, cfg: Config, s: State, es: seq<Event>, clock: int, id: Id)
    requires Valid(kind, s) && Admits(kind, cfg, s, es, clock) && id in s.heap && s.heap[id].detail.Granting?
    ensures var end := After(kind, cfg, s, es, clock);
            id in end.heap ==>
              && end.heap[id].detail.Granting?
              && Authentications(end.heap, end.rank, id) == Authentications(s.heap, s.rank, id)
    decreases |es|
  {
    if |es| > 0 {
      var op, now := es[0].op, es[0].now;
      StepProper(kind, cfg, s, op, now);
      var mid := Step(kind, cfg, s, op, now).0;
      if id in mid.heap {
        LoginsEvolve(s, mid, id, now);
        LoginsKept(kind, cfg, mid, es[1..], now, id);
      } else {
        GoneForever(kind, cfg, mid, es[1..], now, id);
      }
    }
  }

  /** The assertion is for this service and made of these logins, the last one cut down to what may be seen. */
  ghost predicate Tells(a: Assertion, service: Service, logins: seq<Authentication>, op: Op)
    requires op.Validate? && op.found.Some?
  {
    && a.service == service && op.matches(service) && |a.chain| == |logins| > 0
    && var n := |logins| - 1;
       && a.chain[..n] == logins[..n] && ReleasedOnly(logins[n], a.chain[n], op.found.value)
       && NamedBy(logins[n].principal, a.chain[n].principal.id, op.found.value,
                  op.persistentId(logins[n].principal, service))
  }

  lemma AssertedTells(kind: RegistryKind, cfg: Config, s: State, op: Op, now: int)
    requires Valid(kind, s) && op.Validate? && Step(kind, cfg, s, op, now).1.Asserted?
    ensures op.id in s.heap && s.heap[op.id].detail.Granted? && s.heap[op.id].parent.Some? && op.found.Some?
    ensures var p := s.heap[op.id].parent.value; p in s.heap && s.heap[p].detail.Granting?
    ensures var t, a := s.heap[op.id], Step(kind, cfg, s, op, now).1.assertion;
            && Tells(a, t.detail.service, Authentications(s.heap, s.rank, t.parent.value), op)
            && a.fromNewLogin == t.detail.fromNewLogin
  {
    AssertedLive(kind, cfg, s, op, now);
    AssertionMeets(Authentications(s.heap, s.rank, s.heap[op.id].parent.value), s.heap[op.id].detail, op.found.value,
                   op.persistentId);
  }

  /**
    Whatever lies between, an assertion is about the service the ticket was granted for, and about the logins that the
    granting ticket had then.
   */
  lemma AssertionOfGrant(kind: RegistryKind, cfg: Config, s: State, first: Op, a: int, mid: State, st: Id,
                         es: seq<Event>, end: State, op: Op, now: int)
    requires Valid(kind, s) && Fresh(s, first) && first.Grant? && Step(kind, cfg, s, first, a) == (mid, Issued(st))
    requires Valid(kind, mid) && Admits(kind, cfg, mid, es, a) && end == After(kind, cfg, mid, es, a)
    requires op.Validate? && op.id == st && Step(kind, cfg, end, op, now).1.Asserted?
    ensures first.id in s.heap && s.heap[first.id].detail.Granting? && op.found.Some?
    ensures Tells(Step(kind, cfg, end, op, now).1.assertion, first.service,
                  Authentications(s.heap, s.rank, first.id), op)
    ensures Step(kind, cfg, end, op, now).1.assertion.fromNewLogin
         <==> first.credentials.Some? || s.heap[first.id].use.count == 0
  {
    IssuedState(kind, cfg, s, first, a);
    TicketMade(kind, cfg, s, first, a, st);
    MarkKept(kind, cfg, mid, es, a, st);
    AssertedTells(kind, cfg, end, op, now);
    StepProper(kind, cfg, s, first, a);
    LoginsEvolve(s, mid, first.id, a);
    LoginsKept(kind, cfg, mid, es, a, first.id);
  }
}
