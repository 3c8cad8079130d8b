/**
  CentralAuthenticationServiceImpl over the JPA registry: every operation, with its delegators and its row-by-row
  deletion, moves the table from one state of the ticket protocol to the next and answers as the protocol does.
 */
module JpaAuthentication {
  import opened Wrappers
  import opened Policies
  import opened Tickets
  import opened TicketInvariants
  import opened TicketOutcomes
  import opened JpaRegistry
  import CentralAuthentication

  lemma StepValid(cfg: Config, s: State, op: Op, now: int)
    requires Valid(Jpa, s) && Fresh(s, op)
    ensures Valid(Jpa, Step(Jpa, cfg, s, op, now).0)
  {
    StepProper(Jpa, cfg, s, op, now);
  }

  /**
    The checks are those of `CentralAuthentication.CentralAuthenticationService`, whose registry hands out the ticket
    objects themselves; here each request works on a delegator of its own.
   */
  class CentralAuthenticationService {
    const ticketGrantingTicketExpirationPolicy: Policy
    const serviceTicketExpirationPolicy: Policy
    const ticketRegistry: JpaTicketRegistry
    /** The history of issue: the table does not know it. */
    ghost var rank: map<Id, nat>
    ghost var issued: nat

    ghost function Cfg(): Config { Config(ticketGrantingTicketExpirationPolicy, serviceTicketExpirationPolicy) }

    /** The protocol state that the table represents. */
    ghost function Current(): State
      reads `rank, `issued, ticketRegistry
    {
      State(ticketRegistry.rows, ticketRegistry.rows.Keys, rank, issued)
    }

    ghost predicate Sound()
      reads `rank, `issued, ticketRegistry
    {
      Valid(Jpa, Current())
    }

    constructor (granting: Policy, service: Policy, registry: JpaTicketRegistry)
      requires registry.rows == map[]
      ensures ticketRegistry == registry && Sound() && Current() == EMPTY && Cfg() == Config(granting, service)
    {
      ticketGrantingTicketExpirationPolicy, serviceTicketExpirationPolicy := granting, service;
      ticketRegistry, rank, issued := registry, map[], 0;
    }

    method Add(id: Id, t: Ticket)
      modifies `rank, `issued, ticketRegistry
      ensures Current() == AddTicket(old(Current()), id, t)
    {
      assert ticketRegistry.rows.Keys + {id} == ticketRegistry.rows[id := t].Keys;
      ticketRegistry.AddTicket(id, t);
      rank, issued := rank[id := issued], issued + 1;
    }

    method CreateTicketGrantingTicket(verdict: Verdict, newId: Id, now: int) returns (r: Outcome)
      requires Sound() && Fresh(Current(), Create(verdict, newId))
      modifies `rank, `issued, ticketRegistry
      ensures Sound() && (Current(), r) == StepCreate(Cfg(), old(Current()), Create(verdict, newId), now)
    {
      StepValid(Cfg(), Current(), Create(verdict, newId), now);
      if verdict.Refused? {
        return Failed(TicketCreation);
      }
      Add(newId, Ticket(None, ticketGrantingTicketExpirationPolicy, NewUse(now),
                        Granting(verdict.authentication, false, map[])));
      return Issued(newId);
    }

    method DestroyTicketGrantingTicket(id: Id, now: int) returns (r: Outcome)
      requires Sound()
      modifies ticketRegistry
      ensures Sound() && (Current(), r) == StepDestroy(Jpa, old(Current()), Destroy(id))
    {
      StepValid(Cfg(), Current(), Destroy(id), now);
      var t := ticketRegistry.GetTicket(id);
      if t == null {
        return Done;
      }
      if t.ticket.detail.Granted? {
        return Failed(ClassCast);
      }
      FlagValid(Jpa, Current(), id);
      t.Expire(rank, issued);
      Delete1(id);
      return Done;
    }

    method Delete1(id: Id)
      requires Sound()
      modifies ticketRegistry
      ensures Current() == Delete(Jpa, old(Current()), id) && Sound()
    {
      DeleteValid(Jpa, Current(), id);
      var found := ticketRegistry.DeleteTicket(id, rank, issued);
    }

    method GrantServiceTicket(id: Id, service: Service, credentials: Option<Verdict>, found: Option<RegisteredService>,
                              generated: Option<Id>, now: int) returns (r: Outcome)
      requires Sound() && Fresh(Current(), Grant(id, service, credentials, found, generated))
      modifies `rank, `issued, ticketRegistry
      ensures Sound()
      ensures (Current(), r)
           == StepGrant(Jpa, Cfg(), old(Current()), Grant(id, service, credentials, found, generated), now)
    {
      ghost var op := Grant(id, service, credentials, found, generated);
      StepValid(Cfg(), Current(), op, now);
      var t := ticketRegistry.GetTicket(id);
      if t == null {
        return Failed(InvalidTicket);
      }
      if t.ticket.detail.Granted? {
        return Failed(ClassCast);
      }
      var expired := ticketRegistry.IsExpired(id, now, rank);
      if expired {
        ExpiredGrant(Jpa, Cfg(), Current(), op, now);
        Delete1(id);
        return Failed(InvalidTicket);
      }
      LiveGrant(Jpa, Cfg(), Current(), op, now);
      var e := Refusal(t, service, credentials, found, generated);
      if e.Some? {
        return Failed(e.value);
      }
      GrantFrom(t, Grant(id, service, credentials, found, generated), now);
      return Issued(generated.value);
    }

    /** The checks between finding the ticket live and granting. */
    method Refusal(t: TicketDelegator, service: Service, credentials: Option<Verdict>, found: Option<RegisteredService>,
                   generated: Option<Id>) returns (e: Option<Error>)
      requires Sound() && t.ticketRegistry == ticketRegistry && t.InStep() && t.ticket.detail.Granting?
      ensures e == GrantRefusal(Current(), Grant(t.id, service, credentials, found, generated))
    {
      if found.None? || !found.value.enabled {
        return Some(UnauthorizedService);
      }
      if !found.value.ssoEnabled && credentials.None? && t.ticket.use.count > 0 {
        return Some(UnauthorizedSso);
      }
      var authns := ticketRegistry.GetChainedAuthentications(t.id, rank);
      if |authns| > 1 {
        if !found.value.allowedToProxy {
          return Some(UnauthorizedProxying);
        }
      }
      if credentials.Some? {
        if credentials.value.Refused? {
          return Some(TicketCreation);
        }
        if !SameLogin(credentials.value.authentication, t.ticket.detail.authentication) {
          return Some(TicketCreation);
        }
      }
      return if generated.None? then Some(NullPointer) else None;
    }

    method GrantFrom(t: TicketDelegator, op: Op, now: int)
      requires t.ticketRegistry == ticketRegistry && t.InStep() && t.ticket.detail.Granting?
      requires op.Grant? && op.id == t.id && op.generated.Some?
      modifies `rank, `issued, ticketRegistry, t
      ensures Current() == Granting'(Cfg(), old(Current()), op, now)
    {
      var cfg := Config(ticketGrantingTicketExpirationPolicy, serviceTicketExpirationPolicy);
      var st := t.GrantServiceTicket(cfg, op, now, rank, issued);
      Add(op.generated.value, st);
    }

    method DelegateTicketGrantingTicket(id: Id, verdict: Verdict, find: Service -> Option<RegisteredService>, newId: Id,
                                        now: int) returns (r: Outcome)
      requires Sound() && Fresh(Current(), Delegate(id, verdict, find, newId))
      modifies `rank, `issued, ticketRegistry
      ensures Sound()
      ensures (Current(), r) == StepDelegate(Jpa, Cfg(), old(Current()), Delegate(id, verdict, find, newId), now)
    {
      ghost var op := Delegate(id, verdict, find, newId);
      StepValid(Cfg(), Current(), op, now);
      if verdict.Refused? {
        return Failed(TicketCreation);
      }
      var t := ticketRegistry.GetTicket(id);
      if t == null {
        return Failed(InvalidTicket);
      }
      if t.ticket.detail.Granting? {
        return Failed(ClassCast);
      }
      var expired := ticketRegistry.IsExpired(id, now, rank);
      if expired {
        return Failed(InvalidTicket);
      }
      var found := find(t.ticket.detail.service);
      if found.None? || !found.value.enabled || !found.value.allowedToProxy {
        return Failed(UnauthorizedProxying);
      }
      LiveDelegation(Jpa, Cfg(), Current(), op, now);
      var ok := DelegateFrom(t, verdict.authentication, newId, now);
      return if ok then Issued(newId) else Failed(IllegalState);
    }

    method DelegateFrom(t: TicketDelegator, authentication: Authentication, newId: Id, now: int) returns (ok: bool)
      requires t.ticketRegistry == ticketRegistry && t.InStep() && t.ticket.detail.Granted?
      modifies `rank, `issued, ticketRegistry, t
      ensures ok == !old(t.ticket).detail.delegated
      ensures Current()
           == var s, u := old(Current()), old(t.ticket);
              if !ok then s
              else AddTicket(s.(heap := s.heap[t.id := u.(detail := u.detail.(delegated := true))]), newId,
                             Ticket(u.parent, ticketGrantingTicketExpirationPolicy, NewUse(now),
                                    Granting(authentication, false, map[])))
    {
      var pgt := t.GrantTicketGrantingTicket(authentication, ticketGrantingTicketExpirationPolicy, now);
      if pgt.None? {
        return false;
      }
      assert ticketRegistry.rows.Keys == old(ticketRegistry.rows).Keys;
      Add(newId, pgt.value);
      return true;
    }

    method ValidateServiceTicket(id: Id, service: Service, found: Option<RegisteredService>, matches: Service -> bool,
                                 persistentId: (Principal, Service) -> string, now: int) returns (r: Outcome)
      requires Sound()
      modifies ticketRegistry
      ensures Sound()
      ensures (Current(), r)
           == StepValidate(Jpa, old(Current()), Validate(id, service, found, matches, persistentId), now)
    {
      ghost var op := Validate(id, service, found, matches, persistentId);
      StepValid(Cfg(), Current(), op, now);
      var t := ticketRegistry.GetTicket(id);
      if t != null && t.ticket.detail.Granting? {
        return Failed(ClassCast);
      }
      if found.None? || !found.value.enabled {
        return Failed(UnauthorizedService);
      }
      if t == null {
        return Failed(InvalidTicket);
      }
      var expired := ticketRegistry.IsExpired(id, now, rank);
      if expired {
        CleanUp(id, now);
        return Failed(InvalidTicket);
      }
      LiveValidation(Jpa, Current(), op, now);
      r := Respond(t, found.value, matches, persistentId, now);
      CleanUp(id, now);
    }

    /** The `finally` clause. */
    method CleanUp(id: Id, now: int)
      requires Sound() && id in ticketRegistry.rows
      modifies ticketRegistry
      ensures Sound() && Current() == Finally(Jpa, old(Current()), id, now)
    {
      var expired := ticketRegistry.IsExpired(id, now, rank);
      if expired {
        Delete1(id);
      }
    }

    /** The use is counted, and written back, before the service is compared. */
    method Respond(t: TicketDelegator, found: RegisteredService, matches: Service -> bool,
                   persistentId: (Principal, Service) -> string, now: int) returns (r: Outcome)
      requires t.ticketRegistry == ticketRegistry && t.InStep() && t.ticket.detail.Granted? && t.ticket.parent.Some?
      requires Valid(Jpa, Use1(Current(), t.id, now))
      requires var p := t.ticket.parent.value; p in ticketRegistry.rows && ticketRegistry.rows[p].detail.Granting?
      modifies ticketRegistry, t
      ensures Sound() && Current() == Use1(old(Current()), t.id, now)
      ensures var s, p := Current(), old(t.ticket).parent.value;
              && p in s.heap && s.heap[p].detail.Granting?
              && r == if matches(old(t.ticket).detail.service) then
                        Asserted(AssertionOf(Authentications(s.heap, s.rank, p), old(t.ticket).detail, found,
                                             persistentId))
                      else Failed(TicketValidation)
    {
      var valid := t.IsValidFor(matches, now, rank, issued);
      if !valid {
        return Failed(TicketValidation);
      }
      var chain := ticketRegistry.GetChainedAuthentications(t.ticket.parent.value, rank);
      var a := CentralAuthentication.BuildAssertion(chain, t.ticket.detail, found, persistentId);
      return Asserted(a);
    }
  }
}
