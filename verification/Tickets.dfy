/**
  The ticket protocol of CentralAuthenticationServiceImpl as a state machine over values: five operations, two ticket
  registries. Each operation happens at one clock instant; what the authentication manager, the services manager and
  the id generators answer is part of the operation.
 */
module Tickets {
  import opened Wrappers
  import opened Policies

  type Id = string

  datatype Principal = Principal(id: string, attributes: map<string, string>)

  datatype Authentication = Authentication(principal: Principal, attributes: map<string, string>, date: int)

  /** A service object. `ref` is its identity: two objects may have the same id. */
  datatype Service = Service(ref: nat, id: string)

  /** `usernameAttribute` is absent when it is null or blank. */
  datatype RegisteredService = RegisteredService(
    enabled: bool, ssoEnabled: bool, allowedToProxy: bool, anonymousAccess: bool, ignoreAttributes: bool,
    allowedAttributes: seq<string>, usernameAttribute: Option<string>)

  datatype Detail =
    | Granting(authentication: Authentication, expired: bool, services: map<Id, Service>)
    | Granted(service: Service, fromNewLogin: bool, delegated: bool)

  datatype Ticket = Ticket(parent: Option<Id>, policy: Policy, use: Use, detail: Detail)

  /**
    `heap` holds the ticket objects or rows, `registry` the ids the registry knows, and `rank` numbers every id ever
    issued in order of issue, `issued` of them. The code keeps no such numbers; they record the history.
   */
  datatype State = State(heap: map<Id, Ticket>, registry: set<Id>, rank: map<Id, nat>, issued: nat)

  const EMPTY := State(map[], {}, map[], 0)

  datatype Config = Config(granting: Policy, service: Policy)

  datatype RegistryKind = InMemory | Jpa

  // ---------------------------------------------------------------- well-formed states

  predicate HasGrantingPrefix(id: Id) { "TGT" <= id }

  predicate KindMatches(id: Id, t: Ticket) {
    t.detail.Granting? <==> HasGrantingPrefix(id)
  }

  ghost predicate Forest(heap: map<Id, Ticket>, rank: map<Id, nat>) {
    && heap.Keys <= rank.Keys
    && forall id :: id in heap ==> ParentBelow(heap, rank, id)
  }

  ghost predicate ParentBelow(heap: map<Id, Ticket>, rank: map<Id, nat>, id: Id)
    requires id in heap && heap.Keys <= rank.Keys
  {
    match heap[id].parent
    case None => heap[id].detail.Granting?
    case Some(p) => p in heap && heap[p].detail.Granting? && rank[p] < rank[id]
  }

  ghost predicate Valid(kind: RegistryKind, s: State) {
    && Forest(s.heap, s.rank)
    && s.registry <= s.heap.Keys
    && (kind.Jpa? ==> s.registry == s.heap.Keys)
    && (forall id :: id in s.rank ==> s.rank[id] < s.issued)
    && (forall id :: id in s.heap ==> KindMatches(id, s.heap[id]))
  }

  // ---------------------------------------------------------------- queries along the granting chain

  /** `AbstractTicket.isExpired`. */
  ghost predicate Expired(heap: map<Id, Ticket>, rank: map<Id, nat>, id: Id, now: int)
    requires Forest(heap, rank) && id in heap
    decreases rank[id]
  {
    var t := heap[id];
    assert ParentBelow(heap, rank, id);
    || PolicyExpired(t.policy, t.use, now)
    || (t.parent.Some? && Expired(heap, rank, t.parent.value, now))
    || (t.detail.Granting? && t.detail.expired)
  }

  /** `TicketGrantingTicketImpl.getChainedAuthentications`. */
  ghost function Authentications(heap: map<Id, Ticket>, rank: map<Id, nat>, id: Id): (s: seq<Authentication>)
    requires Forest(heap, rank) && id in heap && heap[id].detail.Granting?
    ensures |s| > 0
    decreases rank[id]
  {
    var t := heap[id];
    assert ParentBelow(heap, rank, id);
    [t.detail.authentication] + if t.parent.Some? then Authentications(heap, rank, t.parent.value) else []
  }

  /** The granting chain of `id` contains `a`. */
  ghost predicate Descends(heap: map<Id, Ticket>, rank: map<Id, nat>, id: Id, a: Id)
    requires Forest(heap, rank) && id in heap
    decreases rank[id]
  {
    var t := heap[id];
    assert ParentBelow(heap, rank, id);
    id == a || (t.parent.Some? && Descends(heap, rank, t.parent.value, a))
  }

  ghost function Family(heap: map<Id, Ticket>, rank: map<Id, nat>, a: Id): set<Id>
    requires Forest(heap, rank)
  {
    set id | id in heap && Descends(heap, rank, id, a)
  }

  // ---------------------------------------------------------------- the registries

  /** `getTicket`: the JPA registry chooses the table to search by the prefix of the id. */
  function Get(kind: RegistryKind, s: State, id: Id): Option<Ticket>
    requires s.registry <= s.heap.Keys
  {
    if id !in s.registry then None
    else if kind.InMemory? then Some(s.heap[id])
    else if HasGrantingPrefix(id) then if s.heap[id].detail.Granting? then Some(s.heap[id]) else None
    else if s.heap[id].detail.Granted? then Some(s.heap[id]) else None
  }

  function AddTicket(s: State, id: Id, t: Ticket): State {
    State(s.heap[id := t], s.registry + {id}, s.rank[id := s.issued], s.issued + 1)
  }

  function Without(s: State, ids: set<Id>): State {
    s.(heap := s.heap - ids, registry := s.registry - ids)
  }

  /** `deleteTicket`: the in-memory registry forgets one entry, the JPA one deletes rows with all their descendants. */
  ghost function Delete(kind: RegistryKind, s: State, id: Id): State
    requires Valid(kind, s)
  {
    if id !in s.registry then s
    else if kind.InMemory? then s.(registry := s.registry - {id})
    else if s.heap[id].detail.Granted? then Without(s, {id})
    else Without(s, Family(s.heap, s.rank, id))
  }

  // ---------------------------------------------------------------- operations

  datatype Error =
    | InvalidTicket | TicketCreation | TicketValidation | UnauthorizedService | UnauthorizedSso | UnauthorizedProxying
    | IllegalState | ClassCast | NullPointer

  datatype Assertion = Assertion(chain: seq<Authentication>, service: Service, fromNewLogin: bool)

  datatype Outcome = Done | Issued(id: Id) | Asserted(assertion: Assertion) | Failed(error: Error)

  /** What the authentication manager answers. */
  datatype Verdict = Accepted(authentication: Authentication) | Refused

  datatype Op =
    | Create(verdict: Verdict, newId: Id)
    | Grant(id: Id, service: Service, credentials: Option<Verdict>, found: Option<RegisteredService>,
            generated: Option<Id>)
    | Delegate(id: Id, verdict: Verdict, find: Service -> Option<RegisteredService>, newId: Id)
    | Validate(id: Id, service: Service, found: Option<RegisteredService>, matches: Service -> bool,
               persistentId: (Principal, Service) -> string)
    | Destroy(id: Id)

  /** The ids an operation would issue are new and carry the prefix of their kind. */
  predicate Fresh(s: State, op: Op) {
    match op
    case Create(_, newId) => newId !in s.rank && HasGrantingPrefix(newId)
    case Grant(_, _, _, _, Some(newId)) => newId !in s.rank && !HasGrantingPrefix(newId)
    case Delegate(_, _, _, newId) => newId !in s.rank && HasGrantingPrefix(newId)
    case _ => true
  }

  /** `SimplePrincipal.equals` compares ids. */
  predicate SameLogin(a: Authentication, b: Authentication) {
    a.principal.id == b.principal.id && a.attributes == b.attributes
  }

  /** `determinePrincipalIdForRegisteredService`. */
  function PrincipalId(p: Principal, r: RegisteredService, persistent: string): string {
    if r.anonymousAccess then persistent
    else match r.usernameAttribute
      case None => p.id
      case Some(a) =>
        if (r.ignoreAttributes || a in r.allowedAttributes) && a in p.attributes then p.attributes[a] else p.id
  }

  function Released(attributes: map<string, string>, allowed: seq<string>): map<string, string> {
    map a | a in attributes && a in allowed :: attributes[a]
  }

  /** The authentication that replaces the root one in an assertion. */
  function Restricted(root: Authentication, r: RegisteredService, principalId: string): Authentication {
    if r.ignoreAttributes then Authentication(Principal(principalId, root.principal.attributes), map[], root.date)
    else
      Authentication(Principal(principalId, Released(root.principal.attributes, r.allowedAttributes)),
                     root.attributes, root.date)
  }

  function AssertionOf(chain: seq<Authentication>, st: Detail, r: RegisteredService,
                       persistentId: (Principal, Service) -> string): Assertion
    requires |chain| > 0 && st.Granted?
  {
    var root := chain[|chain| - 1];
    var principalId := PrincipalId(root.principal, r, persistentId(root.principal, st.service));
    Assertion(chain[..|chain| - 1] + [Restricted(root, r, principalId)], st.service, st.fromNewLogin)
  }

  function StepCreate(cfg: Config, s: State, op: Op, now: int): (State, Outcome)
    requires op.Create?
  {
    match op.verdict
    case Refused => (s, Failed(TicketCreation))
    case Accepted(a) =>
      (AddTicket(s, op.newId, Ticket(None, cfg.granting, NewUse(now), Granting(a, false, map[]))), Issued(op.newId))
  }

  /** The checks `grantServiceTicket` makes on a live ticket, in order; None when all pass. */
  ghost function GrantRefusal(s: State, op: Op): Option<Error>
    requires Forest(s.heap, s.rank) && op.Grant? && op.id in s.heap && s.heap[op.id].detail.Granting?
  {
    var t := s.heap[op.id];
    if op.found.None? || !op.found.value.enabled then Some(UnauthorizedService)
    else if !op.found.value.ssoEnabled && op.credentials.None? && t.use.count > 0 then Some(UnauthorizedSso)
    else if |Authentications(s.heap, s.rank, op.id)| > 1 && !op.found.value.allowedToProxy then
      Some(UnauthorizedProxying)
    else if op.credentials.Some? && (op.credentials.value.Refused?
                                     || !SameLogin(op.credentials.value.authentication, t.detail.authentication)) then
      Some(TicketCreation)
    else if op.generated.None? then Some(NullPointer)
    else None
  }

  /** `TicketGrantingTicketImpl.grantServiceTicket` and `addTicket`. */
  function Granting'(cfg: Config, s: State, op: Op, now: int): State
    requires op.Grant? && op.id in s.heap && s.heap[op.id].detail.Granting? && op.generated.Some?
  {
    var t, newId := s.heap[op.id], op.generated.value;
    var granted := Granted(op.service, t.use.count == 0 || op.credentials.Some?, false);
    var used := t.(use := Touch(t.use, now), detail := t.detail.(services := t.detail.services[newId := op.service]));
    AddTicket(s.(heap := s.heap[op.id := used]), newId, Ticket(Some(op.id), cfg.service, NewUse(now), granted))
  }

  ghost function StepGrant(kind: RegistryKind, cfg: Config, s: State, op: Op, now: int): (State, Outcome)
    requires Valid(kind, s) && op.Grant?
  {
    match Get(kind, s, op.id)
    case None => (s, Failed(InvalidTicket))
    case Some(t) =>
      if t.detail.Granted? then (s, Failed(ClassCast))
      else if Expired(s.heap, s.rank, op.id, now) then (Delete(kind, s, op.id), Failed(InvalidTicket))
      else match GrantRefusal(s, op)
        case Some(e) => (s, Failed(e))
        case None => (Granting'(cfg, s, op, now), Issued(op.generated.value))
  }

  ghost function StepDelegate(kind: RegistryKind, cfg: Config, s: State, op: Op, now: int): (State, Outcome)
    requires Valid(kind, s) && op.Delegate?
  {
    if op.verdict.Refused? then (s, Failed(TicketCreation))
    else match Get(kind, s, op.id)
      case None => (s, Failed(InvalidTicket))
      case Some(t) =>
        if t.detail.Granting? then (s, Failed(ClassCast))
        else if Expired(s.heap, s.rank, op.id, now) then (s, Failed(InvalidTicket))
        else
          var found := op.find(t.detail.service);
          if found.None? || !found.value.enabled || !found.value.allowedToProxy then (s, Failed(UnauthorizedProxying))
          else if t.detail.delegated then (s, Failed(IllegalState))
          else
            var proxy := Ticket(t.parent, cfg.granting, NewUse(now), Granting(op.verdict.authentication, false, map[]));
            (AddTicket(s.(heap := s.heap[op.id := t.(detail := t.detail.(delegated := true))]), op.newId, proxy),
             Issued(op.newId))
  }

  /** The `finally` clause of `validateServiceTicket`. */
  ghost function Finally(kind: RegistryKind, s: State, id: Id, now: int): State
    requires Valid(kind, s) && id in s.registry
  {
    if Expired(s.heap, s.rank, id, now) then Delete(kind, s, id) else s
  }

  /** `isValidFor` counts a use whether or not the service matches. */
  function Use1(s: State, id: Id, now: int): State
    requires id in s.heap
  {
    s.(heap := s.heap[id := s.heap[id].(use := Touch(s.heap[id].use, now))])
  }

  lemma Use1Valid(kind: RegistryKind, s: State, id: Id, now: int)
    requires Valid(kind, s) && id in s.heap
    ensures Valid(kind, Use1(s, id, now))
  {
    var u := Use1(s, id, now);
    forall x | x in u.heap ensures ParentBelow(u.heap, u.rank, x) {
      assert ParentBelow(s.heap, s.rank, x);
    }
  }

  ghost function StepValidate(kind: RegistryKind, s: State, op: Op, now: int): (State, Outcome)
    requires Valid(kind, s) && op.Validate?
  {
    var got := Get(kind, s, op.id);
    if got.Some? && got.value.detail.Granting? then (s, Failed(ClassCast))
    else if op.found.None? || !op.found.value.enabled then (s, Failed(UnauthorizedService))
    else if got.None? then (s, Failed(InvalidTicket))
    else if Expired(s.heap, s.rank, op.id, now) then (Finally(kind, s, op.id, now), Failed(InvalidTicket))
    else
      var st := got.value;
      var used := Use1(s, op.id, now);
      Use1Valid(kind, s, op.id, now);
      var end := Finally(kind, used, op.id, now);
      if !op.matches(st.detail.service) then (end, Failed(TicketValidation))
      else
        assert ParentBelow(s.heap, s.rank, op.id);
        (end, Asserted(AssertionOf(Authentications(used.heap, used.rank, st.parent.value), st.detail, op.found.value,
                                   op.persistentId)))
  }

  /** `expire` sets a flag on the one ticket. */
  function Flag(s: State, id: Id): State
    requires id in s.heap && s.heap[id].detail.Granting?
  {
    s.(heap := s.heap[id := s.heap[id].(detail := s.heap[id].detail.(expired := true))])
  }

  lemma FlagValid(kind: RegistryKind, s: State, id: Id)
    requires Valid(kind, s) && id in s.heap && s.heap[id].detail.Granting?
    ensures Valid(kind, Flag(s, id))
  {
    var f := Flag(s, id);
    forall x | x in f.heap ensures ParentBelow(f.heap, f.rank, x) {
      assert ParentBelow(s.heap, s.rank, x);
    }
  }

  ghost function StepDestroy(kind: RegistryKind, s: State, op: Op): (State, Outcome)
    requires Valid(kind, s) && op.Destroy?
  {
    match Get(kind, s, op.id)
    case None => (s, Done)
    case Some(t) =>
      if t.detail.Granted? then (s, Failed(ClassCast))
      else
        FlagValid(kind, s, op.id);
        (Delete(kind, Flag(s, op.id), op.id), Done)
  }

  ghost function Step(kind: RegistryKind, cfg: Config, s: State, op: Op, now: int): (State, Outcome)
    requires Valid(kind, s)
  {
    match op
    case Create(_, _) => StepCreate(cfg, s, op, now)
    case Grant(_, _, _, _, _) => StepGrant(kind, cfg, s, op, now)
    case Delegate(_, _, _, _) => StepDelegate(kind, cfg, s, op, now)
    case Validate(_, _, _, _, _) => StepValidate(kind, s, op, now)
    case Destroy(_) => StepDestroy(kind, s, op)
  }
}
