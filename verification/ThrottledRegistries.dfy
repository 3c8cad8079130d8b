/**
  When the registries can be told apart: under a throttled policy a granting ticket asked too soon is taken for expired
  and deleted, and when its waiting period is over the in-memory registry still honours what it had issued, while JPA
  has deleted it.
 */
module ThrottledRegistries {
  import opened JavaInt
  import opened Policies
  import opened Tickets
  import opened TicketInvariants
  import opened TicketRuns
  import opened RegistryEquivalence
  import opened Wrappers

  const LOGIN := Authentication(Principal("", map[]), map[], 0)
  const SERVICE := Service(0, "")
  const OPEN := RegisteredService(true, true, true, false, true, [], None)

  function GrantFrom(id: Id, newId: Id): Op { Grant(id, SERVICE, None, Some(OPEN), Some(newId)) }

  function DelegateFrom(id: Id): Op { Delegate(id, Accepted(LOGIN), (x: Service) => Some(OPEN), "TGT2") }

  function Redeem(id: Id): Op {
    Validate(id, SERVICE, Some(OPEN), (x: Service) => true, (p: Principal, x: Service) => "")
  }

  /** The ids of the service tickets. */
  function Name(n: nat): Id { seq(n, i => 'S') }

  /** The shortest time after which a throttled ticket may be used again. */
  function Pause(cfg: Config): int
    requires CanRevive(cfg.granting)
  {
    cfg.granting.between + 1
  }

  function At(cfg: Config, n: nat): int
    requires CanRevive(cfg.granting)
  {
    n * Pause(cfg)
  }

  // ---------------------------------------------------------------- runs on which the registries agree

  /** The run leads both registries with the same outcomes to the same state. */
  ghost predicate Reaches(cfg: Config, es: seq<Event>, s: State, now: int) {
    && RightKinds(es) && Clock(es, 0) == now && Admits(InMemory, cfg, EMPTY, es, 0) && Admits(Jpa, cfg, EMPTY, es, 0)
    && After(InMemory, cfg, EMPTY, es, 0) == s && After(Jpa, cfg, EMPTY, es, 0) == s
    && Outcomes(InMemory, cfg, EMPTY, es, 0) == Outcomes(Jpa, cfg, EMPTY, es, 0)
  }

  lemma ReachesNext(cfg: Config, es: seq<Event>, s: State, now: int, e: Event, end: State, o: Outcome)
    requires Reaches(cfg, es, s, now) && now <= e.now && Fresh(s, e.op) && RightKind(e.op)
    requires Valid(InMemory, s) && Valid(Jpa, s)
    requires Step(InMemory, cfg, s, e.op, e.now) == (end, o) && Step(Jpa, cfg, s, e.op, e.now) == (end, o)
    ensures Reaches(cfg, es + [e], end, e.now)
  {
    RunSnoc(InMemory, cfg, EMPTY, es, 0, e);
    RunSnoc(Jpa, cfg, EMPTY, es, 0, e);
  }

  /** Both registries know the same tickets, the login among them, whose last use was at `now`. */
  ghost predicate Common(cfg: Config, s: State, n: nat, count: int, now: int) {
    && Valid(InMemory, s) && Valid(Jpa, s)
    && "TGT" in s.heap && s.heap["TGT"].detail.Granting? && !s.heap["TGT"].detail.expired
    && s.heap["TGT"].parent.None? && s.heap["TGT"].policy == cfg.granting
    && s.heap["TGT"].use.count == count && s.heap["TGT"].use.last == now
    && (forall id :: id in s.rank ==> HasGrantingPrefix(id) || |id| <= n)
  }

  /** A service ticket of the login that is neither used nor delegated. */
  ghost predicate JustGranted(cfg: Config, t: Ticket, now: int) {
    && t.parent == Some("TGT") && t.policy == cfg.service && t.use == NewUse(now)
    && t.detail.Granted? && t.detail.service == SERVICE && !t.detail.delegated
  }

  /** `n` service tickets were granted, the last one just now. */
  ghost predicate Grown(cfg: Config, s: State, n: nat, now: int) {
    && Common(cfg, s, n, Int32(n), now) && "TGT2" !in s.rank
    && (n > 0 ==> Name(n) in s.heap && JustGranted(cfg, s.heap[Name(n)], now))
  }

  lemma NameFresh(n: nat)
    ensures |Name(n)| == n && !HasGrantingPrefix(Name(n))
  {
    assert |Name(n)| >= 3 ==> Name(n)[0] != "TGT"[0];
  }

  lemma GrantGoesThrough(kind: RegistryKind, cfg: Config, s: State, id: Id, newId: Id, now: int)
    requires Valid(kind, s) && id in s.registry && HasGrantingPrefix(id) && !Expired(s.heap, s.rank, id, now)
    ensures s.heap[id].detail.Granting?
    ensures Step(kind, cfg, s, GrantFrom(id, newId), now)
         == (Granting'(cfg, s, GrantFrom(id, newId), now), Issued(newId))
  {
    assert KindMatches(id, s.heap[id]);
    assert GrantRefusal(s, GrantFrom(id, newId)).None?;
  }

  lemma Live(cfg: Config, s: State, n: nat, count: int, last: int, now: int)
    requires CanRevive(cfg.granting) && Common(cfg, s, n, count, last)
    requires now == last + Pause(cfg) || (now == last && count == 0)
    ensures !Expired(s.heap, s.rank, "TGT", now)
  {}

  /** One grant more, which both registries do alike. */
  lemma GrantCommon(cfg: Config, s: State, n: nat, count: int, last: int, now: int) returns (end: State)
    requires CanRevive(cfg.granting) && Common(cfg, s, n, count, last)
    requires now == last + Pause(cfg) || (now == last && count == 0)
    ensures Fresh(s, GrantFrom("TGT", Name(n + 1)))
    ensures Step(InMemory, cfg, s, GrantFrom("TGT", Name(n + 1)), now) == (end, Issued(Name(n + 1)))
    ensures Step(Jpa, cfg, s, GrantFrom("TGT", Name(n + 1)), now) == (end, Issued(Name(n + 1)))
    ensures Common(cfg, end, n + 1, Int32(count + 1), now)
    ensures end.rank.Keys == s.rank.Keys + {Name(n + 1)} && end.heap.Keys == s.heap.Keys + {Name(n + 1)}
    ensures JustGranted(cfg, end.heap[Name(n + 1)], now)
    ensures forall x :: x in s.heap && x != "TGT" ==> end.heap[x] == s.heap[x]
  {
    var op := GrantFrom("TGT", Name(n + 1));
    NameFresh(n + 1);
    Live(cfg, s, n, count, last, now);
    GrantGoesThrough(InMemory, cfg, s, "TGT", Name(n + 1), now);
    GrantGoesThrough(Jpa, cfg, s, "TGT", Name(n + 1), now);
    end := Granting'(cfg, s, op, now);
    GrantedCommon(cfg, s, n, count, last, now);
  }

  lemma GrantedCommon(cfg: Config, s: State, n: nat, count: int, last: int, now: int)
    requires Common(cfg, s, n, count, last) && Fresh(s, GrantFrom("TGT", Name(n + 1)))
    requires !Expired(s.heap, s.rank, "TGT", now)
    ensures var end := Granting'(cfg, s, GrantFrom("TGT", Name(n + 1)), now);
            && Common(cfg, end, n + 1, Int32(count + 1), now)
            && end.rank.Keys == s.rank.Keys + {Name(n + 1)} && end.heap.Keys == s.heap.Keys + {Name(n + 1)}
            && JustGranted(cfg, end.heap[Name(n + 1)], now)
            && forall x :: x in s.heap && x != "TGT" ==> end.heap[x] == s.heap[x]
  {
    NameFresh(n + 1);
    GrantedProper(InMemory, cfg, s, GrantFrom("TGT", Name(n + 1)), now);
    GrantedProper(Jpa, cfg, s, GrantFrom("TGT", Name(n + 1)), now);
  }

  const FIRST := Event(Create(Accepted(LOGIN), "TGT"), 0)

  /** The login and `n` grants, each as soon as the pause is over. */
  function Grants(cfg: Config, n: nat): (es: seq<Event>)
    requires CanRevive(cfg.granting)
    ensures |es| == n + 1
  {
    if n == 0 then [FIRST]
    else Grants(cfg, n - 1) + [Event(GrantFrom("TGT", Name(n)), At(cfg, n))]
  }

  lemma Start(cfg: Config) returns (s: State)
    requires CanRevive(cfg.granting)
    ensures Fresh(EMPTY, FIRST.op) && RightKind(FIRST.op) && Grown(cfg, s, 0, 0)
    ensures Step(InMemory, cfg, EMPTY, FIRST.op, 0) == (s, Issued("TGT"))
    ensures Step(Jpa, cfg, EMPTY, FIRST.op, 0) == (s, Issued("TGT"))
  {
    s := StepCreate(cfg, EMPTY, FIRST.op, 0).0;
    CreateProper(InMemory, cfg, EMPTY, FIRST.op, 0);
    CreateProper(Jpa, cfg, EMPTY, FIRST.op, 0);
  }

  lemma AtNext(cfg: Config, n: nat)
    requires CanRevive(cfg.granting)
    ensures At(cfg, n + 1) == At(cfg, n) + Pause(cfg)
  {}

  lemma GrownNext(cfg: Config, s: State, end: State, n: nat, last: int, now: int)
    requires Grown(cfg, s, n, last) && Common(cfg, end, n + 1, Int32(Int32(n) + 1), now)
    requires end.rank.Keys == s.rank.Keys + {Name(n + 1)}
    requires Name(n + 1) in end.heap && JustGranted(cfg, end.heap[Name(n + 1)], now)
    ensures Grown(cfg, end, n + 1, now)
  {
    Int32Next(n);
    NameFresh(n + 1);
  }

  lemma GrowStep(cfg: Config, s: State, n: nat) returns (end: State)
    requires CanRevive(cfg.granting) && Grown(cfg, s, n, At(cfg, n))
    ensures var op, now := GrantFrom("TGT", Name(n + 1)), At(cfg, n + 1);
            && now >= At(cfg, n) && Fresh(s, op) && RightKind(op)
            && Step(InMemory, cfg, s, op, now) == (end, Issued(Name(n + 1)))
            && Step(Jpa, cfg, s, op, now) == (end, Issued(Name(n + 1)))
            && Grown(cfg, end, n + 1, now)
  {
    var last, now := At(cfg, n), At(cfg, n + 1);
    AtNext(cfg, n);
    end := GrantCommon(cfg, s, n, Int32(n), last, now);
    NameFresh(n + 1);
    GrownNext(cfg, s, end, n, last, now);
  }

  lemma {:induction false} Grow(cfg: Config, n: nat) returns (s: State)
    requires CanRevive(cfg.granting)
    ensures Reaches(cfg, Grants(cfg, n), s, At(cfg, n)) && Grown(cfg, s, n, At(cfg, n))
  {
    if n == 0 {
      s := Start(cfg);
      ReachesNext(cfg, [], EMPTY, 0, FIRST, s, Issued("TGT"));
      assert [] + [FIRST] == Grants(cfg, 0);
    } else {
      var before := Grow(cfg, n - 1);
      s := GrowStep(cfg, before, n - 1);
      ReachesNext(cfg, Grants(cfg, n - 1), before, At(cfg, n - 1), Event(GrantFrom("TGT", Name(n)), At(cfg, n)), s,
                  Issued(Name(n)));
    }
  }

  // ---------------------------------------------------------------- a request too soon

  /** The event, at the time of the last use, that the two registries take alike but with different effects. */
  lemma TooSoon(kind: RegistryKind, cfg: Config, s: State, n: nat, count: int, now: int)
    requires CanRevive(cfg.granting) && Common(cfg, s, n, count, now) && count != 0
    ensures Fresh(s, GrantFrom("TGT", Name(n + 1))) && Valid(kind, Delete(kind, s, "TGT"))
    ensures Step(kind, cfg, s, GrantFrom("TGT", Name(n + 1)), now) == (Delete(kind, s, "TGT"), Failed(InvalidTicket))
  {
    NameFresh(n + 1);
    DeleteValid(kind, s, "TGT");
    assert Expired(s.heap, s.rank, "TGT", now);
  }

  lemma ChildGone(s: State, id: Id)
    requires Valid(Jpa, s) && "TGT" in s.heap && s.heap["TGT"].detail.Granting? && id in s.heap
    requires s.heap[id].parent == Some("TGT")
    ensures id !in Delete(Jpa, s, "TGT").registry
  {
    assert ParentBelow(s.heap, s.rank, id);
    assert Descends(s.heap, s.rank, "TGT", "TGT");
    assert Descends(s.heap, s.rank, id, "TGT");
  }

  /** A run both registries can take, with requests of the right kinds, and with different outcomes. */
  ghost predicate TellsApart(cfg: Config, es: seq<Event>) {
    && RightKinds(es) && Admits(InMemory, cfg, EMPTY, es, 0) && Admits(Jpa, cfg, EMPTY, es, 0)
    && Outcomes(InMemory, cfg, EMPTY, es, 0) != Outcomes(Jpa, cfg, EMPTY, es, 0)
  }

  lemma Apart(cfg: Config, es: seq<Event>, k: nat)
    requires RightKinds(es) && Admits(InMemory, cfg, EMPTY, es, 0) && Admits(Jpa, cfg, EMPTY, es, 0) && k < |es|
    requires Outcomes(InMemory, cfg, EMPTY, es, 0)[k] != Outcomes(Jpa, cfg, EMPTY, es, 0)[k]
    ensures TellsApart(cfg, es)
  {}

  /** A run, a request refused because it comes too soon, and one request more. */
  function Forked(es: seq<Event>, n: nat, now: int, e: Event): seq<Event> {
    es + [Event(GrantFrom("TGT", Name(n + 1)), now)] + [e]
  }

  lemma ForkRun(kind: RegistryKind, cfg: Config, es: seq<Event>, s: State, n: nat, count: int, now: int, e: Event,
                o: Outcome)
    requires CanRevive(cfg.granting) && Common(cfg, s, n, count, now) && count != 0
    requires Admits(kind, cfg, EMPTY, es, 0) && After(kind, cfg, EMPTY, es, 0) == s && Clock(es, 0) == now
    requires now <= e.now && Fresh(s, e.op) && Valid(kind, Delete(kind, s, "TGT"))
    requires Step(kind, cfg, Delete(kind, s, "TGT"), e.op, e.now).1 == o
    ensures Admits(kind, cfg, EMPTY, Forked(es, n, now, e), 0)
    ensures Outcomes(kind, cfg, EMPTY, Forked(es, n, now, e), 0)[|es| + 1] == o
  {
    var f := Event(GrantFrom("TGT", Name(n + 1)), now);
    TooSoon(kind, cfg, s, n, count, now);
    RunSnoc(kind, cfg, EMPTY, es, 0, f);
    DeleteValid(kind, s, "TGT");
    RunSnoc(kind, cfg, EMPTY, es + [f], 0, e);
  }

  lemma ForkKinds(es: seq<Event>, n: nat, now: int, e: Event)
    requires RightKinds(es) && RightKind(e.op)
    ensures RightKinds(Forked(es, n, now, e))
  {}

  lemma Fork(cfg: Config, es: seq<Event>, s: State, n: nat, count: int, now: int, e: Event, m: Outcome, j: Outcome)
    requires CanRevive(cfg.granting) && Reaches(cfg, es, s, now) && Common(cfg, s, n, count, now) && count != 0
    requires now <= e.now && Fresh(s, e.op) && RightKind(e.op) && m != j
    requires Valid(InMemory, Delete(InMemory, s, "TGT")) && Valid(Jpa, Delete(Jpa, s, "TGT"))
    requires Step(InMemory, cfg, Delete(InMemory, s, "TGT"), e.op, e.now).1 == m
    requires Step(Jpa, cfg, Delete(Jpa, s, "TGT"), e.op, e.now).1 == j
    ensures TellsApart(cfg, Forked(es, n, now, e))
  {
    ForkKinds(es, n, now, e);
    ForkRun(InMemory, cfg, es, s, n, count, now, e, m);
    ForkRun(Jpa, cfg, es, s, n, count, now, e, j);
    Apart(cfg, Forked(es, n, now, e), |es| + 1);
  }

  lemma RedeemGoesThrough(kind: RegistryKind, cfg: Config, s: State, id: Id, now: int) returns (o: Outcome)
    requires Valid(kind, s) && id in s.registry && !HasGrantingPrefix(id) && !Expired(s.heap, s.rank, id, now)
    requires s.heap[id].detail.Granted?
    ensures o.Asserted? && Step(kind, cfg, s, Redeem(id), now).1 == o
  {
    o := Step(kind, cfg, s, Redeem(id), now).1;
  }

  lemma LeftLive(cfg: Config, s: State, n: nat, now: int)
    requires CanRevive(cfg.granting) && Grown(cfg, s, n, now) && n > 0 && Int32(n) != 0
    requires !PolicyExpired(cfg.service, NewUse(0), Pause(cfg))
    ensures var m := Delete(InMemory, s, "TGT");
            Valid(InMemory, m) && Name(n) in m.registry && !Expired(m.heap, m.rank, Name(n), now + Pause(cfg))
  {
    NameFresh(n);
    DeleteValid(InMemory, s, "TGT");
    var m, later := Delete(InMemory, s, "TGT"), now + Pause(cfg);
    assert ParentBelow(m.heap, m.rank, Name(n));
    assert !Expired(m.heap, m.rank, "TGT", later);
    assert !PolicyExpired(cfg.service, NewUse(now), later);
  }

  /** A service ticket that outlives the pause is still good in memory. */
  lemma ServiceTicketLeft(cfg: Config, s: State, n: nat, now: int) returns (o: Outcome)
    requires CanRevive(cfg.granting) && Grown(cfg, s, n, now) && n > 0 && Int32(n) != 0
    requires !PolicyExpired(cfg.service, NewUse(0), Pause(cfg))
    ensures Valid(InMemory, Delete(InMemory, s, "TGT")) && Valid(Jpa, Delete(Jpa, s, "TGT"))
    ensures o.Asserted? && Step(InMemory, cfg, Delete(InMemory, s, "TGT"), Redeem(Name(n)), now + Pause(cfg)).1 == o
    ensures Step(Jpa, cfg, Delete(Jpa, s, "TGT"), Redeem(Name(n)), now + Pause(cfg)).1 == Failed(InvalidTicket)
  {
    NameFresh(n);
    LeftLive(cfg, s, n, now);
    DeleteValid(Jpa, s, "TGT");
    ChildGone(s, Name(n));
    o := RedeemGoesThrough(InMemory, cfg, Delete(InMemory, s, "TGT"), Name(n), now + Pause(cfg));
  }

  /**
    Four events tell the registries apart if a service ticket outlives the pause of its granting ticket: login, grant,
    a grant asked too soon, and the redemption of the granted ticket after the pause.
   */
  function FourEvents(cfg: Config): seq<Event>
    requires CanRevive(cfg.granting)
  {
    Forked(Grants(cfg, 1), 1, At(cfg, 1), Event(Redeem(Name(1)), At(cfg, 1) + Pause(cfg)))
  }

  lemma RedeemTells(cfg: Config, es: seq<Event>, s: State, n: nat, count: int, now: int)
    requires CanRevive(cfg.granting) && !PolicyExpired(cfg.service, NewUse(0), Pause(cfg))
    requires Reaches(cfg, es, s, now) && Grown(cfg, s, n, now) && n > 0 && count == Int32(n) && count != 0
    ensures TellsApart(cfg, Forked(es, n, now, Event(Redeem(Name(n)), now + Pause(cfg))))
  {
    NameFresh(n);
    var e := Event(Redeem(Name(n)), now + Pause(cfg));
    var o := ServiceTicketLeft(cfg, s, n, now);
    Fork(cfg, es, s, n, count, now, e, o, Failed(InvalidTicket));
  }

  lemma FourEventsTell(cfg: Config)
    requires CanRevive(cfg.granting) && !PolicyExpired(cfg.service, NewUse(0), Pause(cfg))
    ensures |FourEvents(cfg)| == 4 && TellsApart(cfg, FourEvents(cfg))
  {
    var s := Grow(cfg, 1);
    RedeemTells(cfg, Grants(cfg, 1), s, 1, 1, At(cfg, 1));
  }

  // ---------------------------------------------------------------- a proxy-granting ticket left behind

  /** A proxy-granting ticket minted from the login just now. */
  ghost predicate JustMinted(cfg: Config, t: Ticket, now: int) {
    && t.parent == Some("TGT") && t.policy == cfg.granting && t.use == NewUse(now)
    && t.detail.Granting? && !t.detail.expired
  }

  /** The state after the delegation of the last service ticket. */
  function Delegated(cfg: Config, s: State, id: Id, now: int): State
    requires id in s.heap && s.heap[id].detail.Granted?
  {
    AddTicket(s.(heap := s.heap[id := s.heap[id].(detail := s.heap[id].detail.(delegated := true))]), "TGT2",
              Ticket(s.heap[id].parent, cfg.granting, NewUse(now), Granting(LOGIN, false, map[])))
  }

  lemma DelegateGoesThrough(kind: RegistryKind, cfg: Config, s: State, id: Id, now: int)
    requires Valid(kind, s) && id in s.registry && !HasGrantingPrefix(id) && !Expired(s.heap, s.rank, id, now)
    requires s.heap[id].detail.Granted? && !s.heap[id].detail.delegated
    ensures Step(kind, cfg, s, DelegateFrom(id), now) == (Delegated(cfg, s, id, now), Issued("TGT2"))
  {}

  lemma MintCommon(cfg: Config, s: State, n: nat, now: int)
    requires CanRevive(cfg.granting) && !BornExpired(cfg.service) && Grown(cfg, s, n, now) && n > 0 && Int32(n) == 0
    ensures Fresh(s, DelegateFrom(Name(n)))
    ensures var end := Delegated(cfg, s, Name(n), now);
            && Step(InMemory, cfg, s, DelegateFrom(Name(n)), now) == (end, Issued("TGT2"))
            && Step(Jpa, cfg, s, DelegateFrom(Name(n)), now) == (end, Issued("TGT2"))
            && Common(cfg, end, n, 0, now) && "TGT2" in end.heap && JustMinted(cfg, end.heap["TGT2"], now)
  {
    NameFresh(n);
    Live(cfg, s, n, 0, now, now);
    StaysExpired(cfg.service, now, now);
    assert ParentBelow(s.heap, s.rank, Name(n));
    assert !Expired(s.heap, s.rank, Name(n), now);
    DelegateGoesThrough(InMemory, cfg, s, Name(n), now);
    DelegateGoesThrough(Jpa, cfg, s, Name(n), now);
    DelegateProper(InMemory, cfg, s, DelegateFrom(Name(n)), now);
    DelegateProper(Jpa, cfg, s, DelegateFrom(Name(n)), now);
  }

  const WRAP: nat := 0x1_0000_0000

  /** As many grants as bring the count back to zero, a delegation, and one grant more, at the same time. */
  function Wrapping(cfg: Config): seq<Event>
    requires CanRevive(cfg.granting)
  {
    Grants(cfg, WRAP) + [Event(DelegateFrom(Name(WRAP)), At(cfg, WRAP))]
    + [Event(GrantFrom("TGT", Name(WRAP + 1)), At(cfg, WRAP))]
  }

  /** This leads both registries to one state, with a proxy-granting ticket. */
  lemma Wrapped(cfg: Config) returns (s: State)
    requires CanRevive(cfg.granting) && !BornExpired(cfg.service)
    ensures Reaches(cfg, Wrapping(cfg), s, At(cfg, WRAP)) && Common(cfg, s, WRAP + 1, 1, At(cfg, WRAP))
    ensures "TGT2" in s.heap && JustMinted(cfg, s.heap["TGT2"], At(cfg, WRAP))
  {
    var now := At(cfg, WRAP);
    var a := Grow(cfg, WRAP);
    MintCommon(cfg, a, WRAP, now);
    NameFresh(WRAP);
    var b := Delegated(cfg, a, Name(WRAP), now);
    ReachesNext(cfg, Grants(cfg, WRAP), a, now, Event(DelegateFrom(Name(WRAP)), now), b, Issued("TGT2"));
    s := WrappedGrant(cfg, Grants(cfg, WRAP) + [Event(DelegateFrom(Name(WRAP)), now)], b, WRAP, now);
  }

  lemma WrappedGrant(cfg: Config, es: seq<Event>, s: State, n: nat, now: int) returns (end: State)
    requires CanRevive(cfg.granting) && Reaches(cfg, es, s, now) && Common(cfg, s, n, 0, now)
    requires "TGT2" in s.heap && JustMinted(cfg, s.heap["TGT2"], now)
    ensures Reaches(cfg, es + [Event(GrantFrom("TGT", Name(n + 1)), now)], end, now) && Common(cfg, end, n + 1, 1, now)
    ensures "TGT2" in end.heap && JustMinted(cfg, end.heap["TGT2"], now)
  {
    var op := GrantFrom("TGT", Name(n + 1));
    end := GrantCommon(cfg, s, n, 0, now, now);
    ReachesNext(cfg, es, s, now, Event(op, now), end, Issued(Name(n + 1)));
  }

  /** The proxy-granting ticket is still good in memory. */
  lemma ProxyLeft(cfg: Config, s: State, n: nat, count: int, now: int, newId: Id)
    requires CanRevive(cfg.granting) && Common(cfg, s, n, count, now)
    requires "TGT2" in s.heap && JustMinted(cfg, s.heap["TGT2"], now)
    ensures Valid(InMemory, Delete(InMemory, s, "TGT")) && Valid(Jpa, Delete(Jpa, s, "TGT"))
    ensures var op, later := GrantFrom("TGT2", newId), now + Pause(cfg);
            && Step(InMemory, cfg, Delete(InMemory, s, "TGT"), op, later).1 == Issued(newId)
            && Step(Jpa, cfg, Delete(Jpa, s, "TGT"), op, later).1 == Failed(InvalidTicket)
  {
    DeleteValid(InMemory, s, "TGT");
    DeleteValid(Jpa, s, "TGT");
    ChildGone(s, "TGT2");
    var m, later := Delete(InMemory, s, "TGT"), now + Pause(cfg);
    assert ParentBelow(m.heap, m.rank, "TGT2");
    assert !Expired(m.heap, m.rank, "TGT", later);
    assert !Expired(m.heap, m.rank, "TGT2", later);
    GrantGoesThrough(InMemory, cfg, m, "TGT2", newId, later);
  }

  lemma ProxyTells(cfg: Config, es: seq<Event>, s: State, n: nat, count: int, now: int)
    requires CanRevive(cfg.granting) && Reaches(cfg, es, s, now) && Common(cfg, s, n, count, now) && count != 0
    requires "TGT2" in s.heap && JustMinted(cfg, s.heap["TGT2"], now)
    ensures TellsApart(cfg, Forked(es, n, now, Event(GrantFrom("TGT2", Name(n + 2)), now + Pause(cfg))))
  {
    var newId := Name(n + 2);
    var e := Event(GrantFrom("TGT2", newId), now + Pause(cfg));
    NameFresh(n + 2);
    ProxyLeft(cfg, s, n, count, now, newId);
    Fork(cfg, es, s, n, count, now, e, Issued(newId), Failed(InvalidTicket));
  }

  /** The run that tells the registries apart: after the refused request, one with the proxy-granting ticket. */
  function Parting(cfg: Config): seq<Event>
    requires CanRevive(cfg.granting)
  {
    Forked(Wrapping(cfg), WRAP + 1, At(cfg, WRAP), Event(GrantFrom("TGT2", Name(WRAP + 3)), At(cfg, WRAP) + Pause(cfg)))
  }

  /** Whenever the policies are not alike, it does. */
  lemma ToldApart(cfg: Config)
    requires !Alike(cfg)
    ensures TellsApart(cfg, Parting(cfg))
  {
    var s := Wrapped(cfg);
    ProxyTells(cfg, Wrapping(cfg), s, WRAP + 1, 1, At(cfg, WRAP));
  }

  /** The run is one JPA can take too, and it has the same outcomes there. */
  ghost predicate SameAnswers(cfg: Config, es: seq<Event>, clock: int)
    requires Admits(InMemory, cfg, EMPTY, es, clock)
  {
    && Admits(Jpa, cfg, EMPTY, es, clock)
    && Outcomes(InMemory, cfg, EMPTY, es, clock) == Outcomes(Jpa, cfg, EMPTY, es, clock)
  }

  /**
    The two registries give every request of every run the same answer exactly when the policy of granting tickets does
    not bring them back to life or service tickets are never live.
   */
  lemma EquivalentExactly(cfg: Config)
    ensures (forall es, clock ::
               RightKinds(es) && Admits(InMemory, cfg, EMPTY, es, clock) ==> SameAnswers(cfg, es, clock))
         <==> !CanRevive(cfg.granting) || BornExpired(cfg.service)
  {
    if Alike(cfg) {
      forall es, clock | RightKinds(es) && Admits(InMemory, cfg, EMPTY, es, clock) ensures SameAnswers(cfg, es, clock) {
        RegistriesEquivalent(cfg, es, clock);
      }
    } else {
      ToldApart(cfg);
      assert !SameAnswers(cfg, Parting(cfg), 0);
    }
  }
}
