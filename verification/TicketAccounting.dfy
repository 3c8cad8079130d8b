/** What the tickets record and what a run did, with either registry: grants, uses, new-login marks. */
module TicketAccounting {
  import opened JavaInt
  import opened Wrappers
  import opened Policies
  import opened Tickets
  import opened TicketInvariants
  import opened TicketRuns
  import opened TicketOutcomes

  // ---------------------------------------------------------------- what one step does to old tickets

  /** The step issues a service ticket from `id`. */
  ghost predicate Issues(kind: RegistryKind, cfg: Config, s: State, op: Op, now: int, id: Id)
    requires Valid(kind, s)
  {
    op.Grant? && op.id == id && Step(kind, cfg, s, op, now).1.Issued?
  }

  /** The granting tickets that are left have the same use record and the same services. */
  ghost predicate GrantingKept(s: State, end: State) {
    forall id :: id in s.heap && id in end.heap && s.heap[id].detail.Granting? ==>
      && end.heap[id].detail.Granting?
      && end.heap[id].use == s.heap[id].use && end.heap[id].detail.services == s.heap[id].detail.services
  }

  /** Every operation but a successful grant leaves what granting tickets record alone. */
  lemma QuietStep(kind: RegistryKind, cfg: Config, s: State, op: Op, now: int)
    requires Valid(kind, s) && Fresh(s, op)
    requires !(op.Grant? && Step(kind, cfg, s, op, now).1.Issued?)
    ensures GrantingKept(s, Step(kind, cfg, s, op, now).0)
  {
    match op
    case Create(_, _) =>
    case Grant(_, _, _, _, _) => QuietGrant(kind, cfg, s, op, now);
    case Delegate(_, _, _, _) => QuietDelegate(kind, cfg, s, op, now);
    case Validate(_, _, _, _, _) => QuietValidate(kind, cfg, s, op, now);
    case Destroy(_) => QuietDestroy(kind, s, op);
  }

  lemma QuietGrant(kind: RegistryKind, cfg: Config, s: State, op: Op, now: int)
    requires Valid(kind, s) && op.Grant? && !StepGrant(kind, cfg, s, op, now).1.Issued?
    ensures GrantingKept(s, StepGrant(kind, cfg, s, op, now).0)
  {
    DeleteValid(kind, s, op.id);
    var end := StepGrant(kind, cfg, s, op, now).0;
    assert end == s || end == Delete(kind, s, op.id);
  }

  lemma QuietDelegate(kind: RegistryKind, cfg: Config, s: State, op: Op, now: int)
    requires Valid(kind, s) && op.Delegate? && Fresh(s, op)
    ensures GrantingKept(s, StepDelegate(kind, cfg, s, op, now).0)
  {
    if StepDelegate(kind, cfg, s, op, now).1.Issued? {
      var t := s.heap[op.id];
      QuietDelegation(s, op.id, t.(detail := t.detail.(delegated := true)), op.newId,
                      Ticket(t.parent, cfg.granting, NewUse(now), Granting(op.verdict.authentication, false, map[])));
    }
  }

  lemma QuietDelegation(s: State, id: Id, t: Ticket, newId: Id, proxy: Ticket)
    requires id in s.heap && s.heap[id].detail.Granted? && newId !in s.heap
    ensures GrantingKept(s, AddTicket(s.(heap := s.heap[id := t]), newId, proxy))
  {}

  lemma QuietValidate(kind: RegistryKind, cfg: Config, s: State, op: Op, now: int)
    requires Valid(kind, s) && op.Validate?
    ensures GrantingKept(s, StepValidate(kind, s, op, now).0)
  {
    UseExactly(kind, cfg, s, op, now);
    PassesExactly(kind, cfg, s, op, now);
  }

  lemma QuietDestroy(kind: RegistryKind, s: State, op: Op)
    requires Valid(kind, s) && op.Destroy?
    ensures GrantingKept(s, StepDestroy(kind, s, op).0)
  {
    if op.id in s.registry && s.heap[op.id].detail.Granting? {
      FlagValid(kind, s, op.id);
      DeleteValid(kind, Flag(s, op.id), op.id);
    }
  }

  lemma GrantedRecord(cfg: Config, s: State, op: Op, now: int, id: Id)
    requires op.Grant? && op.id in s.heap && s.heap[op.id].detail.Granting? && op.generated.Some?
    requires id in s.heap && s.heap[id].detail.Granting? && op.generated.value !in s.heap
    ensures var end := Granting'(cfg, s, op, now);
            && id in end.heap && end.heap[id].detail.Granting?
            && end.heap[id].use == (if op.id == id then Touch(s.heap[id].use, now) else s.heap[id].use)
            && end.heap[id].detail.services
               == if op.id == id then s.heap[id].detail.services[op.generated.value := op.service]
                  else s.heap[id].detail.services
  {}

  /** Exactly the grants made from a granting ticket touch its use record and add to its services. */
  lemma StepUse(kind: RegistryKind, cfg: Config, s: State, op: Op, now: int, id: Id)
    requires Valid(kind, s) && Fresh(s, op) && id in s.heap && s.heap[id].detail.Granting?
    requires id in Step(kind, cfg, s, op, now).0.heap
    ensures var end := Step(kind, cfg, s, op, now).0;
            var issues := Issues(kind, cfg, s, op, now, id);
            && end.heap[id].detail.Granting?
            && end.heap[id].use == (if issues then Touch(s.heap[id].use, now) else s.heap[id].use)
            && (issues ==> op.generated.Some?)
            && end.heap[id].detail.services
               == if issues then s.heap[id].detail.services[op.generated.value := op.service]
                  else s.heap[id].detail.services
  {
    if op.Grant? && Step(kind, cfg, s, op, now).1.Issued? {
      GrantExactly(kind, cfg, s, op, now);
      IssuedState(kind, cfg, s, op, now);
      GrantedRecord(cfg, s, op, now, id);
    } else {
      QuietStep(kind, cfg, s, op, now);
    }
  }

  lemma IssuedState(kind: RegistryKind, cfg: Config, s: State, op: Op, now: int)
    requires Valid(kind, s) && op.Grant? && Step(kind, cfg, s, op, now).1.Issued?
    ensures op.id in s.heap && s.heap[op.id].detail.Granting? && op.generated.Some?
    ensures Step(kind, cfg, s, op, now) == (Granting'(cfg, s, op, now), Issued(op.generated.value))
  {}

  // ---------------------------------------------------------------- grants of a run

  /** The service ticket that an event issues from `id`, if it does, with its service. */
  function GrantOf(op: Op, o: Outcome, id: Id): seq<(Id, Service)> {
    if op.Grant? && op.id == id && o.Issued? then [(o.id, op.service)] else []
  }

  /** The service tickets that `id` issues in a run of events with their outcomes, in order, with their services. */
  function GrantedBy(es: seq<Event>, os: seq<Outcome>, id: Id): seq<(Id, Service)>
    requires |es| == |os|
  {
    if |es| == 0 then [] else GrantOf(es[0].op, os[0], id) + GrantedBy(es[1..], os[1..], id)
  }

  function Filed(services: map<Id, Service>, gs: seq<(Id, Service)>): map<Id, Service>
    decreases |gs|
  {
    if |gs| == 0 then services else Filed(services[gs[0].0 := gs[0].1], gs[1..])
  }

  /** Every grant is filed under its ticket, and nothing else is filed. */
  ghost predicate Files(services: map<Id, Service>, gs: seq<(Id, Service)>) {
    forall g: (Id, Service) :: g in services.Items <==> g in gs
  }

  lemma FilesNext(services: map<Id, Service>, gs: seq<(Id, Service)>, g: (Id, Service))
    requires Files(services, gs) && g.0 !in services
    ensures Files(services[g.0 := g.1], gs + [g])
  {
    var next := services[g.0 := g.1];
    forall p: (Id, Service) ensures p in next.Items <==> p in gs + [g] {
      assert p in next.Items <==> p in services.Items || p == g;
    }
  }

  /** The grants `gs` made so far, all of known tickets, are on record; a ticket not yet issued has made none. */
  ghost predicate OnRecord(s: State, id: Id, gs: seq<(Id, Service)>) {
    && Filed(map[], gs).Keys <= s.rank.Keys && Files(Filed(map[], gs), gs)
    && if id in s.heap then
         s.heap[id].detail.Granting? ==>
           s.heap[id].use.count == Int32(|gs|) && s.heap[id].detail.services == Filed(map[], gs)
       else id in s.rank || gs == []
  }

  lemma {:induction false} FiledConcat(services: map<Id, Service>, gs: seq<(Id, Service)>, g: seq<(Id, Service)>)
    ensures Filed(services, gs + g) == Filed(Filed(services, gs), g)
    decreases |gs|
  {
    if |gs| == 0 {
      assert gs + g == g;
    } else {
      FiledConcat(services[gs[0].0 := gs[0].1], gs[1..], g);
      assert (gs + g)[1..] == gs[1..] + g;
    }
  }

  /** What a step does to the record of one ticket, apart from how it does it. */
  ghost predicate RecordMoves(s: State, end: State, id: Id, g: seq<(Id, Service)>, now: int) {
    && (id in s.rank && id !in s.heap ==> id !in end.heap && id in end.rank)
    && (id in s.heap ==> id in end.rank)
    && (id in s.heap && id in end.heap ==> (s.heap[id].detail.Granting? <==> end.heap[id].detail.Granting?))
    && s.rank.Keys <= end.rank.Keys
    && (|g| > 0 ==> |g| == 1 && id in s.heap && g[0].0 !in s.rank && g[0].0 in end.rank)
    && (id in s.heap && id in end.heap && s.heap[id].detail.Granting? ==>
          && end.heap[id].use == (if |g| > 0 then Touch(s.heap[id].use, now) else s.heap[id].use)
          && end.heap[id].detail.services
             == if |g| > 0 then s.heap[id].detail.services[g[0].0 := g[0].1] else s.heap[id].detail.services)
    && (id !in s.heap && id in end.heap && end.heap[id].detail.Granting? ==>
          end.heap[id].use == NewUse(now) && end.heap[id].detail.services == map[])
  }

  lemma RecordKept(s: State, end: State, id: Id, gs: seq<(Id, Service)>, g: seq<(Id, Service)>, now: int)
    requires RecordMoves(s, end, id, g, now) && OnRecord(s, id, gs)
    ensures OnRecord(end, id, gs + g)
  {
    FiledConcat(map[], gs, g);
    if |g| == 1 {
      Int32Next(|gs|);
      assert g[1..] == [] && g == [g[0]];
      FilesNext(Filed(map[], gs), gs, g[0]);
    } else {
      assert gs + g == gs;
    }
  }

  lemma StepMoves(kind: RegistryKind, cfg: Config, s: State, op: Op, now: int, id: Id)
    requires Valid(kind, s) && Fresh(s, op)
    ensures var (end, o) := Step(kind, cfg, s, op, now); RecordMoves(s, end, id, GrantOf(op, o, id), now)
  {
    StepProper(kind, cfg, s, op, now);
    var end := Step(kind, cfg, s, op, now).0;
    if Issues(kind, cfg, s, op, now, id) {
      IssuedState(kind, cfg, s, op, now);
    }
    if id in end.heap {
      if id in s.heap {
        assert Evolved(s, end.heap, id, now);
        if s.heap[id].detail.Granting? {
          StepUse(kind, cfg, s, op, now, id);
        }
      } else {
        NewTickets(kind, cfg, s, op, now);
        assert New(cfg, end.heap[id], now);
      }
    }
  }

  lemma StepRecord(kind: RegistryKind, cfg: Config, s: State, op: Op, now: int, id: Id, gs: seq<(Id, Service)>)
    requires Valid(kind, s) && Fresh(s, op) && OnRecord(s, id, gs)
    ensures var (end, o) := Step(kind, cfg, s, op, now); Valid(kind, end) && OnRecord(end, id, gs + GrantOf(op, o, id))
  {
    StepProper(kind, cfg, s, op, now);
    StepMoves(kind, cfg, s, op, now, id);
    var (end, o) := Step(kind, cfg, s, op, now);
    RecordKept(s, end, id, gs, GrantOf(op, o, id), now);
  }

  /** The grants of a run are those of its first event and those of the rest. */
  lemma GrantsFrom(kind: RegistryKind, cfg: Config, s: State, es: seq<Event>, clock: int, id: Id)
    requires Valid(kind, s) && |es| > 0 && Admits(kind, cfg, s, es, clock)
    ensures var (mid, o) := Step(kind, cfg, s, es[0].op, es[0].now);
            && Valid(kind, mid) && Admits(kind, cfg, mid, es[1..], es[0].now)
            && GrantedBy(es, Outcomes(kind, cfg, s, es, clock), id)
               == GrantOf(es[0].op, o, id) + GrantedBy(es[1..], Outcomes(kind, cfg, mid, es[1..], es[0].now), id)
  {
    StepProper(kind, cfg, s, es[0].op, es[0].now);
    var (mid, o) := Step(kind, cfg, s, es[0].op, es[0].now);
    var rest := Outcomes(kind, cfg, mid, es[1..], es[0].now);
    assert ([o] + rest)[1..] == rest;
  }

  lemma RecordFrom(kind: RegistryKind, cfg: Config, s: State, es: seq<Event>, clock: int, id: Id,
                   gs: seq<(Id, Service)>) returns (mid: State, g: seq<(Id, Service)>)
    requires Valid(kind, s) && |es| > 0 && Admits(kind, cfg, s, es, clock) && OnRecord(s, id, gs)
    ensures Valid(kind, mid) && Admits(kind, cfg, mid, es[1..], es[0].now) && OnRecord(mid, id, gs + g)
    ensures After(kind, cfg, s, es, clock) == After(kind, cfg, mid, es[1..], es[0].now)
    ensures GrantedBy(es, Outcomes(kind, cfg, s, es, clock), id)
         == g + GrantedBy(es[1..], Outcomes(kind, cfg, mid, es[1..], es[0].now), id)
  {
    StepRecord(kind, cfg, s, es[0].op, es[0].now, id, gs);
    GrantsFrom(kind, cfg, s, es, clock, id);
    var step := Step(kind, cfg, s, es[0].op, es[0].now);
    mid, g := step.0, GrantOf(es[0].op, step.1, id);
  }

  lemma {:induction false} RecordAlways(kind: RegistryKind, cfg: Config, s: State, es: seq<Event>, clock: int, id: Id,
                                        gs: seq<(Id, Service)>, end: State, all: seq<(Id, Service)>)
    requires Valid(kind, s) && Admits(kind, cfg, s, es, clock) && OnRecord(s, id, gs)
    requires end == After(kind, cfg, s, es, clock)
    requires all == gs + GrantedBy(es, Outcomes(kind, cfg, s, es, clock), id)
    ensures OnRecord(end, id, all)
    decreases |es|
  {
    if |es| == 0 {
      assert gs + [] == gs;
    } else {
      var mid, g := RecordFrom(kind, cfg, s, es, clock, id, gs);
      Regrouped(gs, g, GrantedBy(es[1..], Outcomes(kind, cfg, mid, es[1..], es[0].now), id));
      RecordAlways(kind, cfg, mid, es[1..], es[0].now, id, gs + g, end, all);
    }
  }

  lemma Regrouped(a: seq<(Id, Service)>, b: seq<(Id, Service)>, c: seq<(Id, Service)>)
    ensures a + (b + c) == a + b + c
  {}

  /**
    In every run, with either registry, a granting ticket's use count is the number of service tickets it issued in the
    run, as a Java `int`, and its services are exactly theirs.
   */
  lemma CountedAlways(kind: RegistryKind, cfg: Config, es: seq<Event>, clock: int, s: State, id: Id)
    requires Admits(kind, cfg, EMPTY, es, clock) && s == After(kind, cfg, EMPTY, es, clock)
    requires id in s.heap && s.heap[id].detail.Granting?
    ensures var gs := GrantedBy(es, Outcomes(kind, cfg, EMPTY, es, clock), id);
            s.heap[id].use.count == Int32(|gs|) && Files(s.heap[id].detail.services, gs)
  {
    var gs := GrantedBy(es, Outcomes(kind, cfg, EMPTY, es, clock), id);
    assert [] + gs == gs;
    RecordAlways(kind, cfg, EMPTY, es, clock, id, [], s, gs);
  }

  // ---------------------------------------------------------------- new-login marks

  lemma WrapsToZero(n: nat)
    ensures Int32(n) == 0 <==> n % TWO_32 == 0
    ensures Int32(n) > 0 <==> 0 < n % TWO_32 < TWO_31
  {
    assert Int32(n) % TWO_32 == n % TWO_32;
  }

  lemma GrantedMark(kind: RegistryKind, cfg: Config, s: State, op: Op, now: int, n: nat)
    requires Valid(kind, s) && Fresh(s, op) && op.Grant? && Step(kind, cfg, s, op, now).1.Issued?
    requires op.id in s.heap && s.heap[op.id].use.count == Int32(n)
    ensures var end, st := Step(kind, cfg, s, op, now).0, op.generated.value;
            && st in end.heap && end.heap[st].detail.Granted? && st !in s.heap && end.heap[st].parent == Some(op.id)
            && (end.heap[st].detail.fromNewLogin <==> op.credentials.Some? || n % TWO_32 == 0)
  {
    IssuedState(kind, cfg, s, op, now);
    WrapsToZero(n);
  }

  /**
    At the end `s` of every run, with either registry: a service ticket is marked as coming from a new login exactly
    when credentials came with the request or its granting ticket had issued none before in the run (or a multiple of
    2^32, where the count wraps to zero).
   */
  lemma NewLoginMark(kind: RegistryKind, cfg: Config, es: seq<Event>, clock: int, s: State, op: Op, now: int)
    requires Admits(kind, cfg, EMPTY, es, clock) && s == After(kind, cfg, EMPTY, es, clock)
    requires Fresh(s, op) && op.Grant? && Step(kind, cfg, s, op, now).1.Issued?
    ensures var end, st := Step(kind, cfg, s, op, now).0, op.generated.value;
            && st in end.heap && end.heap[st].detail.Granted? && st !in s.heap && end.heap[st].parent == Some(op.id)
            && (end.heap[st].detail.fromNewLogin
                <==> || op.credentials.Some?
                     || |GrantedBy(es, Outcomes(kind, cfg, EMPTY, es, clock), op.id)| % TWO_32 == 0)
  {
    IssuedState(kind, cfg, s, op, now);
    CountedAlways(kind, cfg, es, clock, s, op.id);
    GrantedMark(kind, cfg, s, op, now, |GrantedBy(es, Outcomes(kind, cfg, EMPTY, es, clock), op.id)|);
  }

  /**
    A ticket granted while its service was barred from single sign-on is marked as from a new login, except when the
    count has wrapped to a negative number: the check then lets an unmarked ticket through.
   */
  lemma SsoDisabledMark(kind: RegistryKind, cfg: Config, es: seq<Event>, clock: int, s: State, op: Op, now: int)
    requires Admits(kind, cfg, EMPTY, es, clock) && s == After(kind, cfg, EMPTY, es, clock)
    requires Fresh(s, op) && op.Grant? && Step(kind, cfg, s, op, now).1.Issued?
    requires op.found.Some? && !op.found.value.ssoEnabled
    ensures var end, st := Step(kind, cfg, s, op, now).0, op.generated.value;
            && st in end.heap && end.heap[st].detail.Granted?
            && (end.heap[st].detail.fromNewLogin
                <==> || op.credentials.Some?
                     || |GrantedBy(es, Outcomes(kind, cfg, EMPTY, es, clock), op.id)| % TWO_32 < TWO_31)
  {
    NewLoginMark(kind, cfg, es, clock, s, op, now);
    IssuedState(kind, cfg, s, op, now);
    CountedAlways(kind, cfg, es, clock, s, op.id);
    GrantExactly(kind, cfg, s, op, now);
    WrapsToZero(|GrantedBy(es, Outcomes(kind, cfg, EMPTY, es, clock), op.id)|);
  }

  /** The renew clause of `AbstractCasProtocolValidationSpecification.isSatisfiedBy`. */
  predicate MeetsRenew(a: Assertion, renew: bool) { !renew || (a.fromNewLogin && renew) }

  lemma {:induction false} MarkKept(kind: RegistryKind, cfg: Config, s: State, es: seq<Event>, clock: int, st: Id)
    requires Valid(kind, s) && Admits(kind, cfg, s, es, clock) && st in s.heap && s.heap[st].detail.Granted?
    ensures var end := After(kind, cfg, s, es, clock);
            st in end.heap ==>
              && end.heap[st].detail.Granted?
              && end.heap[st].detail.fromNewLogin == s.heap[st].detail.fromNewLogin
              && end.heap[st].detail.service == s.heap[st].detail.service
              && end.heap[st].parent == s.heap[st].parent
    decreases |es|
  {
    if |es| > 0 {
      var op, now := es[0].op, es[0].now;
      StepProper(kind, cfg, s, op, now);
      var mid := Step(kind, cfg, s, op, now).0;
      if st in mid.heap {
        assert Evolved(s, mid.heap, st, now);
        MarkKept(kind, cfg, mid, es[1..], now, st);
      } else {
        GoneForever(kind, cfg, mid, es[1..], now, st);
      }
    }
  }

  /**
    Whenever later validated, a ticket gives an assertion that meets the renew clause exactly if it is marked, and that
    always meets it if no new login is asked for.
   */
  lemma RenewAnswer(kind: RegistryKind, cfg: Config, s: State, es: seq<Event>, clock: int, st: Id, op: Op, now: int)
    requires Valid(kind, s) && Admits(kind, cfg, s, es, clock) && st in s.heap && s.heap[st].detail.Granted?
    requires op.Validate? && op.id == st && Step(kind, cfg, After(kind, cfg, s, es, clock), op, now).1.Asserted?
    ensures MeetsRenew(Step(kind, cfg, After(kind, cfg, s, es, clock), op, now).1.assertion, true)
         <==> s.heap[st].detail.fromNewLogin
    ensures MeetsRenew(Step(kind, cfg, After(kind, cfg, s, es, clock), op, now).1.assertion, false)
  {
    MarkKept(kind, cfg, s, es, clock, st);
  }

  // ---------------------------------------------------------------- uses of a run

  /** The validation of `st` gets past the expiry test. */
  predicate Redeemed(op: Op, o: Outcome, st: Id) { op.Validate? && op.id == st && Passes(o) }

  /** The number of such validations in a run of events with their outcomes. */
  function Redemptions(es: seq<Event>, os: seq<Outcome>, st: Id): nat
    requires |es| == |os|
  {
    if |es| == 0 then 0 else (if Redeemed(es[0].op, os[0], st) then 1 else 0) + Redemptions(es[1..], os[1..], st)
  }

  ghost predicate Redeems(kind: RegistryKind, cfg: Config, s: State, op: Op, now: int, st: Id)
    requires Valid(kind, s)
  {
    Redeemed(op, Step(kind, cfg, s, op, now).1, st)
  }

  /** Exactly the validations that pass count a use of the service ticket. */
  lemma RedeemStep(kind: RegistryKind, cfg: Config, s: State, op: Op, now: int, st: Id)
    requires Valid(kind, s) && Fresh(s, op) && st in s.heap && s.heap[st].detail.Granted?
    requires st in Step(kind, cfg, s, op, now).0.heap
    ensures var end := Step(kind, cfg, s, op, now).0;
            && end.heap[st].detail.Granted? && end.heap[st].policy == s.heap[st].policy
            && end.heap[st].use
               == if Redeems(kind, cfg, s, op, now, st) then Touch(s.heap[st].use, now) else s.heap[st].use
  {
    StepProper(kind, cfg, s, op, now);
    assert Evolved(s, Step(kind, cfg, s, op, now).0.heap, st, now);
    match op
    case Create(_, _) =>
    case Grant(_, _, _, _, _) => GrantedUses(kind, cfg, s, op, now, st);
    case Delegate(_, _, _, _) => DelegatedUses(kind, cfg, s, op, now, st);
    case Validate(_, _, _, _, _) => UseExactly(kind, cfg, s, op, now);
    case Destroy(_) => DestroyedUses(kind, s, op, st);
  }

  lemma RefusedGrant(kind: RegistryKind, cfg: Config, s: State, op: Op, now: int)
    requires Valid(kind, s) && op.Grant? && !StepGrant(kind, cfg, s, op, now).1.Issued?
    ensures var end := StepGrant(kind, cfg, s, op, now).0;
            forall x :: x in end.heap ==> x in s.heap && end.heap[x] == s.heap[x]
  {
    DeleteValid(kind, s, op.id);
    var end := StepGrant(kind, cfg, s, op, now).0;
    assert end == s || end == Delete(kind, s, op.id);
  }

  lemma GrantedUses(kind: RegistryKind, cfg: Config, s: State, op: Op, now: int, st: Id)
    requires Valid(kind, s) && op.Grant? && Fresh(s, op) && st in s.heap && s.heap[st].detail.Granted?
    ensures var end := StepGrant(kind, cfg, s, op, now).0; st in end.heap ==> end.heap[st].use == s.heap[st].use
  {
    if StepGrant(kind, cfg, s, op, now).1.Issued? {
      IssuedState(kind, cfg, s, op, now);
    } else {
      RefusedGrant(kind, cfg, s, op, now);
    }
  }

  lemma DelegatedUses(kind: RegistryKind, cfg: Config, s: State, op: Op, now: int, st: Id)
    requires Valid(kind, s) && op.Delegate? && Fresh(s, op) && st in s.heap
    ensures var end := StepDelegate(kind, cfg, s, op, now).0; st in end.heap && end.heap[st].use == s.heap[st].use
  {}

  lemma DestroyedUses(kind: RegistryKind, s: State, op: Op, st: Id)
    requires Valid(kind, s) && op.Destroy? && st in s.heap
    ensures var end := StepDestroy(kind, s, op).0; st in end.heap ==> end.heap[st].use == s.heap[st].use
  {
    if op.id in s.registry && s.heap[op.id].detail.Granting? {
      FlagValid(kind, s, op.id);
      DeleteValid(kind, Flag(s, op.id), op.id);
    }
  }

  /** A ticket that passes had uses left. */
  lemma RedeemedLive(kind: RegistryKind, cfg: Config, s: State, op: Op, now: int, st: Id)
    requires Valid(kind, s) && Redeems(kind, cfg, s, op, now, st)
    ensures st in s.heap && s.heap[st].detail.Granted? && !PolicyExpired(s.heap[st].policy, s.heap[st].use, now)
  {
    PassesExactly(kind, cfg, s, op, now);
  }

  /** How often a service ticket may still be redeemed; one not yet issued as often as its policy will say. */
  ghost function Left(cfg: Config, s: State, st: Id): nat
    requires cfg.service.MultiTimeUse?
  {
    var left :=
      if st in s.heap then
        var t := s.heap[st];
        if t.detail.Granted? && t.policy.MultiTimeUse? then t.policy.uses - t.use.count else 0
      else if st in s.rank then 0 else cfg.service.uses;
    if left < 0 then 0 else left
  }

  /** Service tickets have the n-use policy and counts that are far from wrapping. */
  ghost predicate Countable(s: State) {
    forall st :: st in s.heap && s.heap[st].detail.Granted? ==>
      && s.heap[st].policy.MultiTimeUse? && s.heap[st].policy.uses <= 0x7fff_ffff && s.heap[st].use.count >= 0
  }

  lemma LeftMoves(cfg: Config, s: State, end: State, st: Id, redeems: bool, now: int)
    requires cfg.service.MultiTimeUse? && Countable(s) && Countable(end)
    requires s.heap.Keys <= s.rank.Keys <= end.rank.Keys
    requires st in s.heap && st in end.heap ==>
      && (s.heap[st].detail.Granted? <==> end.heap[st].detail.Granted?)
      && (s.heap[st].detail.Granted? ==>
            && end.heap[st].policy == s.heap[st].policy
            && end.heap[st].use == if redeems then Touch(s.heap[st].use, now) else s.heap[st].use)
    requires redeems ==>
      st in s.heap && s.heap[st].detail.Granted? && !PolicyExpired(s.heap[st].policy, s.heap[st].use, now)
    requires st in end.heap && st !in s.heap ==> st !in s.rank && New(cfg, end.heap[st], now)
    ensures Left(cfg, end, st) + (if redeems then 1 else 0) <= Left(cfg, s, st)
  {}

  lemma LeftStep(kind: RegistryKind, cfg: Config, s: State, op: Op, now: int, st: Id)
    requires Valid(kind, s) && Fresh(s, op) && cfg.service.MultiTimeUse? && cfg.service.uses <= 0x7fff_ffff
    requires Countable(s)
    ensures Countable(Step(kind, cfg, s, op, now).0)
    ensures Left(cfg, Step(kind, cfg, s, op, now).0, st) + (if Redeems(kind, cfg, s, op, now, st) then 1 else 0)
         <= Left(cfg, s, st)
  {
    CountableStep(kind, cfg, s, op, now);
    StepProper(kind, cfg, s, op, now);
    var end, redeems := Step(kind, cfg, s, op, now).0, Redeems(kind, cfg, s, op, now, st);
    if redeems {
      RedeemedLive(kind, cfg, s, op, now, st);
    }
    if st in s.heap && st in end.heap {
      assert Evolved(s, end.heap, st, now);
      if s.heap[st].detail.Granted? {
        RedeemStep(kind, cfg, s, op, now, st);
      }
    } else if st in end.heap {
      NewTickets(kind, cfg, s, op, now);
      assert New(cfg, end.heap[st], now);
    }
    LeftMoves(cfg, s, end, st, redeems, now);
  }

  lemma CountableStep(kind: RegistryKind, cfg: Config, s: State, op: Op, now: int)
    requires Valid(kind, s) && Fresh(s, op) && cfg.service.MultiTimeUse? && cfg.service.uses <= 0x7fff_ffff
    requires Countable(s)
    ensures Countable(Step(kind, cfg, s, op, now).0)
  {
    StepProper(kind, cfg, s, op, now);
    NewTickets(kind, cfg, s, op, now);
    var end := Step(kind, cfg, s, op, now).0;
    forall st | st in end.heap && end.heap[st].detail.Granted?
      ensures && end.heap[st].policy.MultiTimeUse? && end.heap[st].policy.uses <= 0x7fff_ffff
              && end.heap[st].use.count >= 0 {
      if st in s.heap {
        assert Evolved(s, end.heap, st, now);
        RedeemStep(kind, cfg, s, op, now, st);
        if Redeems(kind, cfg, s, op, now, st) {
          RedeemedLive(kind, cfg, s, op, now, st);
        }
      } else {
        assert New(cfg, end.heap[st], now);
      }
    }
  }

  lemma {:induction false} RedeemedAtMost(kind: RegistryKind, cfg: Config, s: State, es: seq<Event>, clock: int, st: Id)
    requires Valid(kind, s) && Admits(kind, cfg, s, es, clock) && Countable(s)
    requires cfg.service.MultiTimeUse? && cfg.service.uses <= 0x7fff_ffff
    ensures Redemptions(es, Outcomes(kind, cfg, s, es, clock), st) <= Left(cfg, s, st)
    decreases |es|
  {
    if |es| > 0 {
      var op, now := es[0].op, es[0].now;
      StepProper(kind, cfg, s, op, now);
      LeftStep(kind, cfg, s, op, now, st);
      var (mid, o) := Step(kind, cfg, s, op, now);
      RedeemedAtMost(kind, cfg, mid, es[1..], now, st);
      var rest := Outcomes(kind, cfg, mid, es[1..], now);
      assert ([o] + rest)[1..] == rest;
    }
  }

  /**
    In every run, with either registry, a service ticket of the n-use policy gets past the expiry test at most n times,
    whether its service matches or not, even after it has left the store.
   */
  lemma UsesBounded(kind: RegistryKind, cfg: Config, es: seq<Event>, clock: int, st: Id)
    requires Admits(kind, cfg, EMPTY, es, clock) && cfg.service.MultiTimeUse? && cfg.service.uses <= 0x7fff_ffff
    ensures Redemptions(es, Outcomes(kind, cfg, EMPTY, es, clock), st)
         <= if cfg.service.uses > 0 then cfg.service.uses else 0
  {
    RedeemedAtMost(kind, cfg, EMPTY, es, clock, st);
  }

  // ---------------------------------------------------------------- delegations of a run

  /** The delegation mints a proxy-granting ticket from `st`. */
  predicate MintedFrom(op: Op, o: Outcome, st: Id) { op.Delegate? && op.id == st && o.Issued? }

  /** The number of such delegations in a run of events with their outcomes. */
  function Minted(es: seq<Event>, os: seq<Outcome>, st: Id): nat
    requires |es| == |os|
  {
    if |es| == 0 then 0 else (if MintedFrom(es[0].op, os[0], st) then 1 else 0) + Minted(es[1..], os[1..], st)
  }

  ghost predicate Mints(kind: RegistryKind, cfg: Config, s: State, op: Op, now: int, st: Id)
    requires Valid(kind, s)
  {
    MintedFrom(op, Step(kind, cfg, s, op, now).1, st)
  }

  /** `st` can no longer mint: it is gone, or its flag is set. */
  ghost predicate Barred(s: State, st: Id) {
    st in s.rank && (st in s.heap ==> s.heap[st].detail.Granted? && s.heap[st].detail.delegated)
  }

  lemma MintSets(kind: RegistryKind, cfg: Config, s: State, op: Op, now: int)
    requires Valid(kind, s) && Fresh(s, op) && op.Delegate? && Step(kind, cfg, s, op, now).1.Issued?
    ensures !Barred(s, op.id) && Barred(Step(kind, cfg, s, op, now).0, op.id)
  {
    DelegateExactly(kind, cfg, s, op, now);
  }

  lemma MintStep(kind: RegistryKind, cfg: Config, s: State, op: Op, now: int, st: Id)
    requires Valid(kind, s) && Fresh(s, op)
    ensures Mints(kind, cfg, s, op, now, st) ==> !Barred(s, st) && Barred(Step(kind, cfg, s, op, now).0, st)
    ensures Barred(s, st) ==> Barred(Step(kind, cfg, s, op, now).0, st)
  {
    StepProper(kind, cfg, s, op, now);
    var end := Step(kind, cfg, s, op, now).0;
    if Mints(kind, cfg, s, op, now, st) {
      MintSets(kind, cfg, s, op, now);
    }
    if st in s.heap && st in end.heap {
      assert Evolved(s, end.heap, st, now);
    }
  }

  /** In every run, with either registry, at most one proxy-granting ticket is minted from a service ticket. */
  lemma {:induction false} MintedOnce(kind: RegistryKind, cfg: Config, s: State, es: seq<Event>, clock: int, st: Id)
    requires Valid(kind, s) && Admits(kind, cfg, s, es, clock)
    ensures Minted(es, Outcomes(kind, cfg, s, es, clock), st) <= if Barred(s, st) then 0 else 1
    decreases |es|
  {
    if |es| > 0 {
      var op, now := es[0].op, es[0].now;
      StepProper(kind, cfg, s, op, now);
      MintStep(kind, cfg, s, op, now, st);
      var (mid, o) := Step(kind, cfg, s, op, now);
      MintedOnce(kind, cfg, mid, es[1..], now, st);
      var rest := Outcomes(kind, cfg, mid, es[1..], now);
      assert ([o] + rest)[1..] == rest;
    }
  }
}
