/**
  CentralAuthenticationServiceImpl over ticket objects and the in-memory registry: every operation moves the objects
  from one state of the ticket protocol to the next and answers as the protocol does.
 */
module CentralAuthentication {
  import opened Policies
  import opened Tickets
  import opened TicketInvariants
  import opened TicketOutcomes
  import opened TicketObjects
  import opened Wrappers

  // ---------------------------------------------------------------- building an assertion

  /** The loop over the attributes a service may see. */
  method ReleaseAttributes(attributes: map<string, string>, allowed: seq<string>) returns (r: map<string, string>)
    ensures r == Released(attributes, allowed)
  {
    r := map[];
    for i := 0 to |allowed|
      invariant r == Released(attributes, allowed[..i])
    {
      assert allowed[..i + 1] == allowed[..i] + [allowed[i]];
      if allowed[i] in attributes {
        r := r[allowed[i] := attributes[allowed[i]]];
      }
    }
    assert allowed[..|allowed|] == allowed;
  }

  method DeterminePrincipalId(p: Principal, r: RegisteredService, persistent: string) returns (principalId: string)
    ensures principalId == PrincipalId(p, r, persistent)
  {
    if r.anonymousAccess {
      principalId := persistent;
    } else if r.usernameAttribute.None? {
      principalId := p.id;
    } else if (r.ignoreAttributes || r.usernameAttribute.value in r.allowedAttributes)
           && r.usernameAttribute.value in p.attributes {
      principalId := p.attributes[r.usernameAttribute.value];
    } else {
      principalId := p.id;
    }
  }

  /** The loop that copies all authentications but the last, then the restricted one. */
  method BuildAssertion(chain: seq<Authentication>, st: Detail, r: RegisteredService,
                        persistentId: (Principal, Service) -> string) returns (a: Assertion)
    requires |chain| > 0 && st.Granted?
    ensures a == AssertionOf(chain, st, r, persistentId)
  {
    var authentication := chain[|chain| - 1];
    var principal := authentication.principal;
    var principalId := DeterminePrincipalId(principal, r, persistentId(principal, st.service));
    var authToUse: Authentication;
    if !r.ignoreAttributes {
      var attributes := ReleaseAttributes(principal.attributes, r.allowedAttributes);
      authToUse := Authentication(Principal(principalId, attributes), authentication.attributes, authentication.date);
    } else {
      authToUse := Authentication(Principal(principalId, principal.attributes), map[], authentication.date);
    }
    var authentications := [];
    for i := 0 to |chain| - 1
      invariant authentications == chain[..i]
    {
      authentications := authentications + [chain[i]];
    }
    a := Assertion(authentications + [authToUse], st.service, st.fromNewLogin);
  }

  lemma StepValid(cfg: Config, s: State, op: Op, now: int)
    requires Valid(InMemory, s) && Fresh(s, op)
    ensures Valid(InMemory, Step(InMemory, cfg, s, op, now).0)
  {
    StepProper(InMemory, cfg, s, op, now);
  }

  lemma DeleteInMemory(s: State, id: Id)
    requires Valid(InMemory, s)
    ensures Delete(InMemory, s, id) == s.(registry := s.registry - {id})
  {
    if id !in s.registry {
      assert s.registry - {id} == s.registry;
    }
  }

  // ---------------------------------------------------------------- the service

  /** One new object was filed under `id`, one not allocated before. */
  twostate predicate Extended(was: map<Id, TicketObject>, new all: map<Id, TicketObject>, id: Id) {
    id in all && fresh(all[id]) && all == was[id := all[id]]
  }

  class CentralAuthenticationService {
    const ticketGrantingTicketExpirationPolicy: Policy
    const serviceTicketExpirationPolicy: Policy
    const ticketRegistry: DefaultTicketRegistry
    /** Every ticket object ever made: those the registry has dropped live on as parents. */
    ghost var all: map<Id, TicketObject>
    /** The protocol state that the objects represent. */
    ghost var s: State

    ghost function Cfg(): Config { Config(ticketGrantingTicketExpirationPolicy, serviceTicketExpirationPolicy) }

    ghost predicate Represents()
      reads this, ticketRegistry, all.Values
    {
      && Linked(all) && Heap(all) == s.heap && ticketRegistry.cache.Keys == s.registry
      && forall id :: id in ticketRegistry.cache ==> id in all && ticketRegistry.cache[id] == all[id]
    }

    ghost predicate Sound()
      reads this, ticketRegistry, all.Values
    {
      Represents() && Valid(InMemory, s)
    }

    constructor (granting: Policy, service: Policy)
      ensures Sound() && s == EMPTY && Cfg() == Config(granting, service)
    {
      ticketGrantingTicketExpirationPolicy, serviceTicketExpirationPolicy := granting, service;
      ticketRegistry := new DefaultTicketRegistry();
      all, s := map[], EMPTY;
    }

    /** A new object enters the store and the registry. */
    method Add(t: TicketObject)
      requires Represents() && t.id !in all && (t.parent != null ==> t.parent.id in all && all[t.parent.id] == t.parent)
      modifies `all, `s, ticketRegistry
      ensures Represents() && all == old(all)[t.id := t] && s == AddTicket(old(s), t.id, t.Value())
    {
      Enter(t);
      ticketRegistry.AddTicket(t);
    }

    ghost method Enter(t: TicketObject)
      requires Linked(all) && Heap(all) == s.heap && t.id !in all
      requires t.parent != null ==> t.parent.id in all && all[t.parent.id] == t.parent
      modifies `all, `s
      ensures all == old(all)[t.id := t] && s == AddTicket(old(s), t.id, t.Value())
      ensures Linked(all) && Heap(all) == s.heap
    {
      HeapExtended(all, t);
      LinkedExtended(all, t);
      all, s := all[t.id := t], AddTicket(s, t.id, t.Value());
    }

    method CreateTicketGrantingTicket(verdict: Verdict, newId: Id, now: int) returns (r: Outcome)
      requires Sound() && Fresh(s, Create(verdict, newId))
      modifies this, ticketRegistry
      ensures Sound() && if r.Issued? then Extended(old(all), all, r.id) else all == old(all)
      ensures (s, r) == StepCreate(Cfg(), old(s), Create(verdict, newId), now)
    {
      ghost var op := Create(verdict, newId);
      StepValid(Cfg(), s, op, now);
      if verdict.Refused? {
        return Failed(TicketCreation);
      }
      var t := new TicketObject(newId, null, ticketGrantingTicketExpirationPolicy,
                                Granting(verdict.authentication, false, map[]), now);
      Add(t);
      return Issued(newId);
    }

    method DestroyTicketGrantingTicket(id: Id, now: int) returns (r: Outcome)
      requires Sound()
      modifies this, ticketRegistry, all.Values
      ensures Sound() && all == old(all)
      ensures (s, r) == StepDestroy(InMemory, old(s), Destroy(id))
    {
      StepValid(Cfg(), s, Destroy(id), now);
      var t := ticketRegistry.GetTicket(id);
      if t == null {
        return Done;
      }
      if t.detail.Granted? {
        return Failed(ClassCast);
      }
      DestroyKnown(t, now);
      return Done;
    }

    method DestroyKnown(t: TicketObject, now: int)
      requires Sound() && t.id in ticketRegistry.cache && all[t.id] == t && t.detail.Granting?
      modifies `s, ticketRegistry, t
      ensures Represents() && all == old(all) && (s, Done) == StepDestroy(InMemory, old(s), Destroy(t.id))
    {
      FlagValid(InMemory, s, t.id);
      ExpireTicket(t);
      var found := Forget(t.id);
    }

    method ExpireTicket(t: TicketObject)
      requires Represents() && t.id in all && all[t.id] == t && t.detail.Granting?
      modifies `s, t
      ensures Represents() && all == old(all) && s == Flag(old(s), t.id)
    {
      t.Expire();
      assert forall id :: id in all && id != t.id ==> all[id] != t;
      s := Flag(s, t.id);
    }

    method Forget(id: Id) returns (found: bool)
      requires Sound()
      modifies `s, ticketRegistry
      ensures Represents() && all == old(all) && s == Delete(InMemory, old(s), id)
    {
      DeleteInMemory(s, id);
      found := ticketRegistry.DeleteTicket(id);
      s := s.(registry := s.registry - {id});
    }

    /** The checks between finding the ticket live and granting. */
    method Refusal(t: TicketObject, service: Service, credentials: Option<Verdict>, found: Option<RegisteredService>,
                   generated: Option<Id>) returns (e: Option<Error>)
      requires Sound() && t.id in all && all[t.id] == t && t.detail.Granting?
      ensures e == GrantRefusal(s, Grant(t.id, service, credentials, found, generated))
    {
      if found.None? || !found.value.enabled {
        return Some(UnauthorizedService);
      }
      if !found.value.ssoEnabled && credentials.None? && t.countOfUses > 0 {
        return Some(UnauthorizedSso);
      }
      var authns := t.GetChainedAuthentications(all, s.rank);
      if |authns| > 1 {
        if !found.value.allowedToProxy {
          return Some(UnauthorizedProxying);
        }
      }
      if credentials.Some? {
        if credentials.value.Refused? {
          return Some(TicketCreation);
        }
        if !SameLogin(credentials.value.authentication, t.detail.authentication) {
          return Some(TicketCreation);
        }
      }
      return if generated.None? then Some(NullPointer) else None;
    }

    method GrantFrom(t: TicketObject, service: Service, credentials: Option<Verdict>, found: Option<RegisteredService>,
                     newId: Id, now: int)
      requires Represents() && t.id in all && all[t.id] == t && t.detail.Granting? && newId !in all
      modifies this, ticketRegistry, t
      ensures Represents() && Extended(old(all), all, newId)
      ensures s == Granting'(Cfg(), old(s), Grant(t.id, service, credentials, found, Some(newId)), now)
    {
      var st := t.GrantServiceTicket(newId, service, serviceTicketExpirationPolicy, credentials.Some?, now);
      assert forall id :: id in all && id != t.id ==> all[id] != t;
      s := s.(heap := s.heap[t.id := t.Value()]);
      Add(st);
    }

    method GrantServiceTicket(id: Id, service: Service, credentials: Option<Verdict>, found: Option<RegisteredService>,
                              generated: Option<Id>, now: int) returns (r: Outcome)
      requires Sound() && Fresh(s, Grant(id, service, credentials, found, generated))
      modifies this, ticketRegistry, all.Values
      ensures Sound() && if r.Issued? then Extended(old(all), all, r.id) else all == old(all)
      ensures (s, r) == StepGrant(InMemory, Cfg(), old(s), Grant(id, service, credentials, found, generated), now)
    {
      ghost var op := Grant(id, service, credentials, found, generated);
      StepValid(Cfg(), s, op, now);
      var t := ticketRegistry.GetTicket(id);
      if t == null {
        return Failed(InvalidTicket);
      }
      if t.detail.Granted? {
        return Failed(ClassCast);
      }
      r := GrantKnown(t, service, credentials, found, generated, now);
    }

    method GrantKnown(t: TicketObject, service: Service, credentials: Option<Verdict>, found: Option<RegisteredService>,
                      generated: Option<Id>, now: int) returns (r: Outcome)
      requires Sound() && t.id in ticketRegistry.cache && all[t.id] == t && t.detail.Granting?
      requires generated.Some? ==> generated.value !in all
      modifies this, ticketRegistry, t
      ensures Represents() && if r.Issued? then Extended(old(all), all, r.id) else all == old(all)
      ensures (s, r) == StepGrant(InMemory, Cfg(), old(s), Grant(t.id, service, credentials, found, generated), now)
    {
      var expired := t.IsExpired(all, s.rank, now);
      if expired {
        ExpiredGrant(InMemory, Cfg(), s, Grant(t.id, service, credentials, found, generated), now);
        r := GrantExpired(t);
      } else {
        r := GrantLive(t, service, credentials, found, generated, now);
      }
    }

    method GrantExpired(t: TicketObject) returns (r: Outcome)
      requires Sound()
      modifies `s, ticketRegistry
      ensures Represents() && all == old(all) && (s, r) == (Delete(InMemory, old(s), t.id), Failed(InvalidTicket))
    {
      var known := Forget(t.id);
      return Failed(InvalidTicket);
    }

    method GrantLive(t: TicketObject, service: Service, credentials: Option<Verdict>, found: Option<RegisteredService>,
                     generated: Option<Id>, now: int) returns (r: Outcome)
      requires Sound() && t.id in ticketRegistry.cache && all[t.id] == t && t.detail.Granting?
      requires generated.Some? ==> generated.value !in all
      requires !Expired(s.heap, s.rank, t.id, now)
      modifies this, ticketRegistry, t
      ensures Represents() && if r.Issued? then Extended(old(all), all, r.id) else all == old(all)
      ensures (s, r) == StepGrant(InMemory, Cfg(), old(s), Grant(t.id, service, credentials, found, generated), now)
    {
      LiveGrant(InMemory, Cfg(), s, Grant(t.id, service, credentials, found, generated), now);
      var e := Refusal(t, service, credentials, found, generated);
      if e.Some? {
        return Failed(e.value);
      }
      GrantFrom(t, service, credentials, found, generated.value, now);
      return Issued(generated.value);
    }

    method DelegateTicketGrantingTicket(id: Id, verdict: Verdict, find: Service -> Option<RegisteredService>, newId: Id,
                                        now: int) returns (r: Outcome)
      requires Sound() && Fresh(s, Delegate(id, verdict, find, newId))
      modifies this, ticketRegistry, all.Values
      ensures Sound() && if r.Issued? then Extended(old(all), all, r.id) else all == old(all)
      ensures (s, r) == StepDelegate(InMemory, Cfg(), old(s), Delegate(id, verdict, find, newId), now)
    {
      ghost var op := Delegate(id, verdict, find, newId);
      StepValid(Cfg(), s, op, now);
      if verdict.Refused? {
        return Failed(TicketCreation);
      }
      var t := ticketRegistry.GetTicket(id);
      if t == null {
        return Failed(InvalidTicket);
      }
      if t.detail.Granting? {
        return Failed(ClassCast);
      }
      r := DelegateKnown(t, verdict.authentication, find, newId, now);
    }

    method DelegateKnown(t: TicketObject, authentication: Authentication, find: Service -> Option<RegisteredService>,
                         newId: Id, now: int) returns (r: Outcome)
      requires Sound() && t.id in ticketRegistry.cache && all[t.id] == t && t.detail.Granted? && newId !in all
      modifies this, ticketRegistry, t
      ensures Represents() && if r.Issued? then Extended(old(all), all, r.id) else all == old(all)
      ensures (s, r)
           == StepDelegate(InMemory, Cfg(), old(s), Delegate(t.id, Accepted(authentication), find, newId), now)
    {
      var expired := t.IsExpired(all, s.rank, now);
      if expired {
        return Failed(InvalidTicket);
      }
      var found := find(t.detail.service);
      if found.None? || !found.value.enabled || !found.value.allowedToProxy {
        return Failed(UnauthorizedProxying);
      }
      LiveDelegation(InMemory, Cfg(), s, Delegate(t.id, Accepted(authentication), find, newId), now);
      var ok := DelegateFrom(t, authentication, newId, now);
      return if ok then Issued(newId) else Failed(IllegalState);
    }

    method DelegateFrom(t: TicketObject, authentication: Authentication, newId: Id, now: int) returns (ok: bool)
      requires Represents() && t.id in all && all[t.id] == t && t.detail.Granted? && newId !in all
      modifies this, ticketRegistry, t
      ensures Represents() && ok == !old(t.detail).delegated
      ensures if ok then Extended(old(all), all, newId) else all == old(all) && s == old(s)
      ensures ok ==>
        var before, u := old(s), old(t.Value());
        s == AddTicket(before.(heap := before.heap[t.id := u.(detail := u.detail.(delegated := true))]), newId,
                       Ticket(u.parent, ticketGrantingTicketExpirationPolicy, NewUse(now),
                              Granting(authentication, false, map[])))
    {
      var pgt := t.GrantTicketGrantingTicket(newId, authentication, ticketGrantingTicketExpirationPolicy, now);
      assert forall id :: id in all && id != t.id ==> all[id] != t;
      if pgt == null {
        assert s.heap[t.id := t.Value()] == s.heap;
        return false;
      }
      s := s.(heap := s.heap[t.id := t.Value()]);
      Add(pgt);
      return true;
    }

    /** The `finally` clause. */
    method CleanUp(t: TicketObject, now: int)
      requires Sound() && t.id in ticketRegistry.cache && all[t.id] == t
      modifies `s, ticketRegistry
      ensures Represents() && all == old(all) && s == Finally(InMemory, old(s), t.id, now)
    {
      var expired := t.IsExpired(all, s.rank, now);
      if expired {
        var known := Forget(t.id);
      }
    }

    /** The use is counted before the service is compared. */
    method UseFor(t: TicketObject, matches: Service -> bool, now: int) returns (b: bool)
      requires Represents() && t.id in all && all[t.id] == t && t.detail.Granted? && Valid(InMemory, Use1(s, t.id, now))
      modifies `s, t
      ensures Sound() && all == old(all) && s == Use1(old(s), t.id, now) && b == matches(t.detail.service)
      ensures t.detail == old(t.detail)
    {
      b := t.IsValidFor(matches, now);
      assert forall id :: id in all && id != t.id ==> all[id] != t;
      s := Use1(s, t.id, now);
    }

    method ValidateServiceTicket(id: Id, service: Service, found: Option<RegisteredService>, matches: Service -> bool,
                                 persistentId: (Principal, Service) -> string, now: int) returns (r: Outcome)
      requires Sound()
      modifies this, ticketRegistry, all.Values
      ensures Sound() && all == old(all)
      ensures (s, r) == StepValidate(InMemory, old(s), Validate(id, service, found, matches, persistentId), now)
    {
      StepValid(Cfg(), s, Validate(id, service, found, matches, persistentId), now);
      var t := ticketRegistry.GetTicket(id);
      if t != null && t.detail.Granting? {
        return Failed(ClassCast);
      }
      if found.None? || !found.value.enabled {
        return Failed(UnauthorizedService);
      }
      if t == null {
        return Failed(InvalidTicket);
      }
      r := ValidateKnown(t, service, found.value, matches, persistentId, now);
    }

    method ValidateKnown(t: TicketObject, service: Service, found: RegisteredService, matches: Service -> bool,
                         persistentId: (Principal, Service) -> string, now: int) returns (r: Outcome)
      requires Sound() && t.id in ticketRegistry.cache && all[t.id] == t && t.detail.Granted? && found.enabled
      modifies `s, ticketRegistry, t
      ensures Represents() && all == old(all)
      ensures (s, r) == StepValidate(InMemory, old(s), Validate(t.id, service, Some(found), matches, persistentId), now)
    {
      var expired := t.IsExpired(all, s.rank, now);
      if expired {
        CleanUp(t, now);
        return Failed(InvalidTicket);
      }
      r := ValidateLive(t, service, found, matches, persistentId, now);
    }

    method ValidateLive(t: TicketObject, service: Service, found: RegisteredService, matches: Service -> bool,
                        persistentId: (Principal, Service) -> string, now: int) returns (r: Outcome)
      requires Sound() && t.id in ticketRegistry.cache && all[t.id] == t && t.detail.Granted? && found.enabled
      requires !Expired(s.heap, s.rank, t.id, now)
      modifies `s, ticketRegistry, t
      ensures Represents() && all == old(all)
      ensures (s, r) == StepValidate(InMemory, old(s), Validate(t.id, service, Some(found), matches, persistentId), now)
    {
      LiveValidation(InMemory, s, Validate(t.id, service, Some(found), matches, persistentId), now);
      r := Respond(t, found, matches, persistentId, now);
      CleanUp(t, now);
    }

    method Respond(t: TicketObject, found: RegisteredService, matches: Service -> bool,
                   persistentId: (Principal, Service) -> string, now: int) returns (r: Outcome)
      requires Represents() && t.id in ticketRegistry.cache && all[t.id] == t && t.detail.Granted? && t.parent != null
      requires t.parent.id in all && t.parent.detail.Granting? && Valid(InMemory, Use1(s, t.id, now))
      modifies `s, t
      ensures Sound() && all == old(all) && s == Use1(old(s), t.id, now) && t.detail == old(t.detail)
      ensures r == if matches(t.detail.service) then
                     Asserted(AssertionOf(Authentications(s.heap, s.rank, t.parent.id), t.detail, found, persistentId))
                   else Failed(TicketValidation)
    {
      var valid := UseFor(t, matches, now);
      r := Answer(t, valid, found, persistentId);
    }

    /** What the use is answered with. */
    method Answer(t: TicketObject, valid: bool, found: RegisteredService, persistentId: (Principal, Service) -> string)
      returns (r: Outcome)
      requires Sound() && t.id in ticketRegistry.cache && all[t.id] == t && t.detail.Granted? && t.parent != null
      requires t.parent.id in all && t.parent.detail.Granting?
      ensures r == if valid then
                     Asserted(AssertionOf(Authentications(s.heap, s.rank, t.parent.id), t.detail, found, persistentId))
                   else Failed(TicketValidation)
    {
      if !valid {
        return Failed(TicketValidation);
      }
      var chain := t.parent.GetChainedAuthentications(all, s.rank);
      var a := BuildAssertion(chain, t.detail, found, persistentId);
      r := Asserted(a);
    }
  }
}
