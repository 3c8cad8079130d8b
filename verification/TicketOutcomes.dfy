/** When each request made with a ticket succeeds, with either registry: the steps on which accounts of runs rest. */
module TicketOutcomes {
  import opened Policies
  import opened Tickets
  import opened TicketInvariants
  import opened Wrappers

  /** The registry knows `id` as a ticket of the kind asked for, and it has not expired. */
  ghost predicate Usable(s: State, id: Id, granting: bool, now: int)
    requires Forest(s.heap, s.rank)
  {
    id in s.registry && id in s.heap && s.heap[id].detail.Granting? == granting && !Expired(s.heap, s.rank, id, now)
  }

  lemma KnownToBoth(kind: RegistryKind, s: State, id: Id)
    requires Valid(kind, s) && id in s.registry
    ensures Get(kind, s, id) == Some(s.heap[id])
  {
    assert KindMatches(id, s.heap[id]);
  }

  /** Only a proxy-granting ticket has a chain of more than one authentication. */
  lemma ProxyHasChain(heap: map<Id, Ticket>, rank: map<Id, nat>, id: Id)
    requires Forest(heap, rank) && id in heap && heap[id].detail.Granting?
    ensures |Authentications(heap, rank, id)| > 1 <==> heap[id].parent.Some?
  {
    assert ParentBelow(heap, rank, id);
  }

  predicate Open(r: Option<RegisteredService>) { r.Some? && r.value.enabled }

  /**
    A service ticket is granted exactly when: the granting ticket is usable; the service is registered and enabled; it
    allows single sign-on, or credentials came along, or nothing was granted yet; the ticket is a login's or the service
    may be proxied to; the credentials, if any, are the login's; and there is a generator.
   */
  lemma GrantExactly(kind: RegistryKind, cfg: Config, s: State, op: Op, now: int)
    requires Valid(kind, s) && op.Grant?
    ensures Step(kind, cfg, s, op, now).1.Issued?
         <==> && Usable(s, op.id, true, now) && Open(op.found) && op.generated.Some?
              && (op.found.value.ssoEnabled || op.credentials.Some? || s.heap[op.id].use.count <= 0)
              && (s.heap[op.id].parent.None? || op.found.value.allowedToProxy)
              && (op.credentials.Some? ==>
                    && op.credentials.value.Accepted?
                    && var a, b := op.credentials.value.authentication, s.heap[op.id].detail.authentication;
                       a.principal.id == b.principal.id && a.attributes == b.attributes)
  {
    if op.id in s.registry {
      KnownToBoth(kind, s, op.id);
      if s.heap[op.id].detail.Granting? {
        ProxyHasChain(s.heap, s.rank, op.id);
      }
    }
  }

  /** The answer to a request for a service ticket: the first condition that fails decides. */
  lemma GrantAnswer(kind: RegistryKind, cfg: Config, s: State, op: Op, now: int)
    requires Valid(kind, s) && op.Grant?
    ensures Step(kind, cfg, s, op, now).1
         == if op.id !in s.registry then Failed(InvalidTicket)
            else if s.heap[op.id].detail.Granted? then Failed(ClassCast)
            else if Expired(s.heap, s.rank, op.id, now) then Failed(InvalidTicket)
            else if op.found.None? || !op.found.value.enabled then Failed(UnauthorizedService)
            else if !op.found.value.ssoEnabled && op.credentials.None? && s.heap[op.id].use.count > 0 then
              Failed(UnauthorizedSso)
            else if s.heap[op.id].parent.Some? && !op.found.value.allowedToProxy then Failed(UnauthorizedProxying)
            else if op.credentials == Some(Refused) then Failed(TicketCreation)
            else if op.credentials.Some?
                    && (op.credentials.value.authentication.principal.id
                        != s.heap[op.id].detail.authentication.principal.id) then Failed(TicketCreation)
            else if op.credentials.Some?
                    && (op.credentials.value.authentication.attributes
                        != s.heap[op.id].detail.authentication.attributes) then Failed(TicketCreation)
            else if op.generated.None? then Failed(NullPointer)
            else Issued(op.generated.value)
  {
    if op.id in s.registry {
      KnownToBoth(kind, s, op.id);
      if s.heap[op.id].detail.Granting? {
        ProxyHasChain(s.heap, s.rank, op.id);
      }
    }
  }

  /**
    Credentials that come with a request must be those of the ticket's own login: with another user, or other
    attributes of the authentication, nothing is issued, and if nothing else stands against the request the answer is
    that the ticket cannot be created.
   */
  lemma CredentialsMustMatch(kind: RegistryKind, cfg: Config, s: State, op: Op, now: int, mine: Authentication)
    requires Valid(kind, s) && op.Grant? && op.credentials == Some(Accepted(mine))
    requires Usable(s, op.id, true, now)
    requires var login := s.heap[op.id].detail.authentication;
             mine.principal.id != login.principal.id || mine.attributes != login.attributes
    ensures !Step(kind, cfg, s, op, now).1.Issued?
    ensures
      op.found.Some? && op.found.value.enabled && (s.heap[op.id].parent.None? || op.found.value.allowedToProxy) ==>
        Step(kind, cfg, s, op, now).1 == Failed(TicketCreation)
  {
    GrantAnswer(kind, cfg, s, op, now);
  }

  /**
    A proxy-granting ticket is minted exactly when the credentials are good and a usable ticket has not minted one yet.
   */
  lemma DelegateExactly(kind: RegistryKind, cfg: Config, s: State, op: Op, now: int)
    requires Valid(kind, s) && op.Delegate?
    ensures Step(kind, cfg, s, op, now).1.Issued?
         <==> && op.verdict.Accepted? && Usable(s, op.id, false, now)
              && !s.heap[op.id].detail.delegated
              && Open(op.find(s.heap[op.id].detail.service))
              && op.find(s.heap[op.id].detail.service).value.allowedToProxy
  {
    if op.id in s.registry {
      KnownToBoth(kind, s, op.id);
    }
  }

  /** The answer to a request for a proxy-granting ticket. */
  lemma DelegateAnswer(kind: RegistryKind, cfg: Config, s: State, op: Op, now: int)
    requires Valid(kind, s) && op.Delegate?
    ensures Step(kind, cfg, s, op, now).1
         == if op.verdict.Refused? then Failed(TicketCreation)
            else if op.id !in s.registry then Failed(InvalidTicket)
            else if s.heap[op.id].detail.Granting? then Failed(ClassCast)
            else if Expired(s.heap, s.rank, op.id, now) then Failed(InvalidTicket)
            else
              var found := op.find(s.heap[op.id].detail.service);
              if found.None? || !found.value.enabled || !found.value.allowedToProxy then Failed(UnauthorizedProxying)
              else if s.heap[op.id].detail.delegated then Failed(IllegalState)
              else Issued(op.newId)
  {
    if op.id in s.registry {
      KnownToBoth(kind, s, op.id);
    }
  }

  /** The answer to a validation, but for what the assertion says. */
  lemma ValidateAnswer(kind: RegistryKind, cfg: Config, s: State, op: Op, now: int)
    requires Valid(kind, s) && op.Validate?
    ensures var o := Step(kind, cfg, s, op, now).1;
            if op.id in s.registry && s.heap[op.id].detail.Granting? then o == Failed(ClassCast)
            else if op.found.None? || !op.found.value.enabled then o == Failed(UnauthorizedService)
            else if op.id !in s.registry || Expired(s.heap, s.rank, op.id, now) then o == Failed(InvalidTicket)
            else if !op.matches(s.heap[op.id].detail.service) then o == Failed(TicketValidation)
            else o.Asserted?
  {
    if op.id in s.registry {
      KnownToBoth(kind, s, op.id);
    }
  }

  /** What each request that issues a ticket makes. */
  lemma TicketMade(kind: RegistryKind, cfg: Config, s: State, op: Op, now: int, newId: Id)
    requires Valid(kind, s) && Fresh(s, op) && Step(kind, cfg, s, op, now).1 == Issued(newId)
    ensures newId !in s.heap && newId in Step(kind, cfg, s, op, now).0.heap
    ensures var t := Step(kind, cfg, s, op, now).0.heap[newId];
            && newId in Step(kind, cfg, s, op, now).0.registry
            && t.use.created == now && t.use.last == now && t.use.previous == 0 && t.use.count == 0
            && match op
               case Create(verdict, _) =>
                 && verdict.Accepted? && t.parent == None && t.policy == cfg.granting
                 && t.detail == Granting(verdict.authentication, false, map[])
               case Grant(id, service, credentials, _, _) =>
                 && id in s.heap && t.parent == Some(id) && t.policy == cfg.service
                 && t.detail == Granted(service, s.heap[id].use.count == 0 || credentials.Some?, false)
               case Delegate(id, verdict, _, _) =>
                 && id in s.heap && verdict.Accepted? && t.parent == s.heap[id].parent && t.policy == cfg.granting
                 && t.detail == Granting(verdict.authentication, false, map[])
               case _ => false
  {
    match op
    case Grant(id, _, _, _, _) => GrantAnswer(kind, cfg, s, op, now);
    case Delegate(id, _, _, _) => DelegateAnswer(kind, cfg, s, op, now);
    case _ =>
  }

  /** The validation gets past the expiry test, whether or not the service matches. */
  predicate Passes(o: Outcome) { o.Asserted? || o == Failed(TicketValidation) }

  lemma PassesExactly(kind: RegistryKind, cfg: Config, s: State, op: Op, now: int)
    requires Valid(kind, s) && op.Validate?
    ensures Passes(Step(kind, cfg, s, op, now).1) <==> Usable(s, op.id, false, now) && Open(op.found)
  {
    if op.id in s.registry {
      KnownToBoth(kind, s, op.id);
    }
  }

  lemma PassedHeap(kind: RegistryKind, s: State, op: Op, now: int)
    requires Valid(kind, s) && op.Validate? && Usable(s, op.id, false, now) && Open(op.found)
    ensures Valid(kind, Use1(s, op.id, now))
    ensures StepValidate(kind, s, op, now).0 == Finally(kind, Use1(s, op.id, now), op.id, now)
  {
    KnownToBoth(kind, s, op.id);
    Use1Valid(kind, s, op.id, now);
  }

  lemma StoppedHeap(kind: RegistryKind, s: State, op: Op, now: int)
    requires Valid(kind, s) && op.Validate? && !(Usable(s, op.id, false, now) && Open(op.found))
    ensures var end := StepValidate(kind, s, op, now).0; end == s || end == Delete(kind, s, op.id)
  {
    if op.id in s.registry {
      KnownToBoth(kind, s, op.id);
    }
  }

  /** A validation touches no ticket but the one that passes, and that one's use record only. */
  lemma UseExactly(kind: RegistryKind, cfg: Config, s: State, op: Op, now: int)
    requires Valid(kind, s) && op.Validate?
    ensures var (end, o) := Step(kind, cfg, s, op, now);
            && end.heap.Keys <= s.heap.Keys
            && forall x :: x in end.heap ==>
                 end.heap[x]
                 == if x == op.id && Passes(o) then s.heap[x].(use := Touch(s.heap[x].use, now)) else s.heap[x]
  {
    PassesExactly(kind, cfg, s, op, now);
    if Usable(s, op.id, false, now) && Open(op.found) {
      PassedHeap(kind, s, op, now);
      DeleteValid(kind, Use1(s, op.id, now), op.id);
    } else {
      StoppedHeap(kind, s, op, now);
      DeleteValid(kind, s, op.id);
    }
  }

  // ---------------------------------------------------------------- what leaves the registry

  /** A validation that gets past the expiry test leaves the ticket registered exactly if its use has not spent it. */
  lemma SpentRemoved(kind: RegistryKind, cfg: Config, s: State, op: Op, now: int)
    requires Valid(kind, s) && op.Validate? && Passes(Step(kind, cfg, s, op, now).1)
    ensures op.id in s.heap
    ensures op.id in Step(kind, cfg, s, op, now).0.registry
         <==> !PolicyExpired(s.heap[op.id].policy, Touch(s.heap[op.id].use, now), now)
  {
    PassesExactly(kind, cfg, s, op, now);
    PassedHeap(kind, s, op, now);
    ParentAsBefore(s, Use1(s, op.id, now), op.id, now);
    DeleteValid(kind, Use1(s, op.id, now), op.id);
    assert ParentBelow(s.heap, s.rank, op.id);
  }

  /** A request that finds its ticket expired removes it, but for a delegation. */
  lemma ExpiredRemoved(kind: RegistryKind, cfg: Config, s: State, op: Op, now: int)
    requires Valid(kind, s) && (op.Grant? || op.Validate?) && op.id in s.registry && Expired(s.heap, s.rank, op.id, now)
    requires s.heap[op.id].detail.Granting? <==> op.Grant?
    requires op.Validate? ==> op.found.Some? && op.found.value.enabled
    ensures op.id !in Step(kind, cfg, s, op, now).0.registry
  {
    KnownToBoth(kind, s, op.id);
    DeleteValid(kind, s, op.id);
  }

  /** Destruction removes the ticket itself in memory, with JPA all that descends from it, and nothing else. */
  lemma DestroyRemoves(kind: RegistryKind, cfg: Config, s: State, a: Id, now: int, id: Id)
    requires Valid(kind, s) && a in s.registry && s.heap[a].detail.Granting? && id in s.registry
    ensures id in Step(kind, cfg, s, Destroy(a), now).0.registry
         <==> if kind.InMemory? then id != a else !Descends(s.heap, s.rank, id, a)
  {
    KnownToBoth(kind, s, a);
    FlagValid(kind, s, a);
    FlagDescends(s, a, id);
  }

  // ---------------------------------------------------------------- steps with a ticket that was found

  lemma ExpiredGrant(kind: RegistryKind, cfg: Config, s: State, op: Op, now: int)
    requires Valid(kind, s) && op.Grant? && op.id in s.registry && s.heap[op.id].detail.Granting?
    requires Expired(s.heap, s.rank, op.id, now)
    ensures StepGrant(kind, cfg, s, op, now) == (Delete(kind, s, op.id), Failed(InvalidTicket))
  {
    KnownToBoth(kind, s, op.id);
  }

  lemma LiveGrant(kind: RegistryKind, cfg: Config, s: State, op: Op, now: int)
    requires Valid(kind, s) && op.Grant? && op.id in s.registry && s.heap[op.id].detail.Granting?
    requires !Expired(s.heap, s.rank, op.id, now)
    ensures GrantRefusal(s, op).Some? ==> StepGrant(kind, cfg, s, op, now) == (s, Failed(GrantRefusal(s, op).value))
    ensures GrantRefusal(s, op).None? ==>
      && op.generated.Some?
      && StepGrant(kind, cfg, s, op, now) == (Granting'(cfg, s, op, now), Issued(op.generated.value))
  {
    KnownToBoth(kind, s, op.id);
  }

  lemma LiveDelegation(kind: RegistryKind, cfg: Config, s: State, op: Op, now: int)
    requires Valid(kind, s) && op.Delegate? && op.verdict.Accepted? && op.id in s.registry
    requires s.heap[op.id].detail.Granted? && !Expired(s.heap, s.rank, op.id, now)
    requires var found := op.find(s.heap[op.id].detail.service);
             found.Some? && found.value.enabled && found.value.allowedToProxy
    ensures var t := s.heap[op.id];
            StepDelegate(kind, cfg, s, op, now)
            == if t.detail.delegated then (s, Failed(IllegalState))
               else (AddTicket(s.(heap := s.heap[op.id := t.(detail := t.detail.(delegated := true))]), op.newId,
                               Ticket(t.parent, cfg.granting, NewUse(now),
                                      Granting(op.verdict.authentication, false, map[]))),
                     Issued(op.newId))
  {
    KnownToBoth(kind, s, op.id);
  }

  lemma LiveValidation(kind: RegistryKind, s: State, op: Op, now: int)
    requires Valid(kind, s) && op.Validate? && op.id in s.registry && s.heap[op.id].detail.Granted?
    requires op.found.Some? && op.found.value.enabled && !Expired(s.heap, s.rank, op.id, now)
    ensures s.heap[op.id].parent.Some?
    ensures var p, used := s.heap[op.id].parent.value, Use1(s, op.id, now);
            && p in s.heap && s.heap[p].detail.Granting? && Valid(kind, used)
            && StepValidate(kind, s, op, now)
               == (Finally(kind, used, op.id, now),
                   if op.matches(s.heap[op.id].detail.service) then
                     Asserted(AssertionOf(Authentications(used.heap, used.rank, p), s.heap[op.id].detail,
                                          op.found.value, op.persistentId))
                   else Failed(TicketValidation))
  {
    KnownToBoth(kind, s, op.id);
    assert ParentBelow(s.heap, s.rank, op.id);
    Use1Valid(kind, s, op.id, now);
  }
}
