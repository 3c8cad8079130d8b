/** How far apart the throttled policy keeps the grants of one ticket, with either registry, and when it fails. */
module ThrottledGrants {
  import opened JavaInt
  import opened Wrappers
  import opened Policies
  import opened Tickets
  import opened TicketInvariants
  import opened TicketRuns
  import opened TicketOutcomes
  import opened TicketAccounting

  /** A ticket that issues nothing in the run and is still there at its end has its old use record. */
  lemma {:induction false} IdleUse(kind: RegistryKind, cfg: Config, s: State, es: seq<Event>, clock: int, id: Id)
    requires Valid(kind, s) && Admits(kind, cfg, s, es, clock) && id in s.heap && s.heap[id].detail.Granting?
    requires GrantedBy(es, Outcomes(kind, cfg, s, es, clock), id) == []
    ensures var end := After(kind, cfg, s, es, clock);
            id in end.heap ==> end.heap[id].use == s.heap[id].use && end.heap[id].policy == s.heap[id].policy
    decreases |es|
  {
    if |es| > 0 {
      var op, now := es[0].op, es[0].now;
      StepProper(kind, cfg, s, op, now);
      var (mid, o) := Step(kind, cfg, s, op, now);
      var rest := Outcomes(kind, cfg, mid, es[1..], now);
      assert ([o] + rest)[1..] == rest && GrantOf(op, o, id) == [];
      if id in mid.heap {
        StepUse(kind, cfg, s, op, now, id);
        assert Evolved(s, mid.heap, id, now);
        IdleUse(kind, cfg, mid, es[1..], now, id);
      } else {
        GoneForever(kind, cfg, mid, es[1..], now, id);
      }
    }
  }

  /**
    Under the throttled policy two consecutive grants from one ticket are more than the waiting period apart, with
    either registry and whatever happens between them; the one exception is a count that has just wrapped to zero.
   */
  lemma ThrottledSpacing(kind: RegistryKind, cfg: Config, s: State, first: Op, a: int, mid: State, es: seq<Event>,
                         end: State, second: Op, b: int, id: Id)
    requires Valid(kind, s) && Fresh(s, first) && id in s.heap && s.heap[id].policy.Throttled?
    requires Issues(kind, cfg, s, first, a, id) && mid == Step(kind, cfg, s, first, a).0
    requires Valid(kind, mid) && Admits(kind, cfg, mid, es, a)
    requires GrantedBy(es, Outcomes(kind, cfg, mid, es, a), id) == [] && end == After(kind, cfg, mid, es, a)
    requires Issues(kind, cfg, end, second, b, id)
    ensures b - a > s.heap[id].policy.between || Int32(s.heap[id].use.count + 1) == 0
    ensures b - a < s.heap[id].policy.ttk
  {
    var t := s.heap[id];
    StillLive(kind, cfg, s, first, a, mid, es, end, second, b, id, t);
    WaitedOut(t.policy, t.use, a, b);
  }

  lemma StillLive(kind: RegistryKind, cfg: Config, s: State, first: Op, a: int, mid: State, es: seq<Event>,
                  end: State, second: Op, b: int, id: Id, t: Ticket)
    requires Valid(kind, s) && Fresh(s, first) && id in s.heap && s.heap[id] == t
    requires Issues(kind, cfg, s, first, a, id) && mid == Step(kind, cfg, s, first, a).0
    requires Valid(kind, mid) && Admits(kind, cfg, mid, es, a)
    requires GrantedBy(es, Outcomes(kind, cfg, mid, es, a), id) == [] && end == After(kind, cfg, mid, es, a)
    requires Issues(kind, cfg, end, second, b, id)
    ensures !PolicyExpired(t.policy, Touch(t.use, a), b)
  {
    AfterGrant(kind, cfg, s, first, a, id);
    IssuerIdle(kind, cfg, mid, es, a, end, second, b, id);
  }

  lemma IssuerIdle(kind: RegistryKind, cfg: Config, s: State, es: seq<Event>, clock: int, end: State, op: Op, now: int,
                   id: Id)
    requires Valid(kind, s) && Admits(kind, cfg, s, es, clock) && id in s.heap && s.heap[id].detail.Granting?
    requires GrantedBy(es, Outcomes(kind, cfg, s, es, clock), id) == [] && end == After(kind, cfg, s, es, clock)
    requires Issues(kind, cfg, end, op, now, id)
    ensures !PolicyExpired(s.heap[id].policy, s.heap[id].use, now)
  {
    IdleUse(kind, cfg, s, es, clock, id);
    IssuerLive(kind, cfg, end, op, now, id);
  }

  lemma WaitedOut(p: Policy, u: Use, a: int, b: int)
    requires p.Throttled? && !PolicyExpired(p, Touch(u, a), b)
    ensures b - a > p.between || Int32(u.count + 1) == 0
    ensures b - a < p.ttk
  {}

  lemma AfterGrant(kind: RegistryKind, cfg: Config, s: State, op: Op, now: int, id: Id)
    requires Valid(kind, s) && id in s.heap && Issues(kind, cfg, s, op, now, id) && Fresh(s, op)
    ensures var end := Step(kind, cfg, s, op, now).0;
            id in end.heap && end.heap[id].detail.Granting?
            && end.heap[id].use == Touch(s.heap[id].use, now) && end.heap[id].policy == s.heap[id].policy
  {
    IssuedState(kind, cfg, s, op, now);
  }

  lemma IssuerLive(kind: RegistryKind, cfg: Config, s: State, op: Op, now: int, id: Id)
    requires Valid(kind, s) && Issues(kind, cfg, s, op, now, id)
    ensures id in s.heap && !PolicyExpired(s.heap[id].policy, s.heap[id].use, now)
  {
    GrantExactly(kind, cfg, s, op, now);
    assert !Expired(s.heap, s.rank, id, now);
  }

  /** After the run `es`, in which `id` issues nothing, it issues at `b` on the request `second`. */
  ghost predicate GrantsNext(kind: RegistryKind, cfg: Config, s: State, es: seq<Event>, clock: int, second: Op, b: int,
                             id: Id)
    requires Valid(kind, s)
  {
    && Admits(kind, cfg, s, es, clock) && GrantedBy(es, Outcomes(kind, cfg, s, es, clock), id) == []
    && Clock(es, clock) <= b && Fresh(After(kind, cfg, s, es, clock), second)
    && Issues(kind, cfg, After(kind, cfg, s, es, clock), second, b, id)
  }

  /** Some continuation makes the next grant from `id` before more than `between` has passed. */
  ghost predicate GrantsTooSoon(kind: RegistryKind, cfg: Config, s: State, clock: int, id: Id, between: int)
    requires Valid(kind, s)
  {
    exists es, second, b :: GrantsNext(kind, cfg, s, es, clock, second, b, id) && b - clock <= between
  }

  lemma {:induction false} ClockLater(kind: RegistryKind, cfg: Config, s: State, es: seq<Event>, clock: int)
    requires Valid(kind, s) && Admits(kind, cfg, s, es, clock)
    ensures clock <= Clock(es, clock)
    decreases |es|
  {
    if |es| > 0 {
      StepProper(kind, cfg, s, es[0].op, es[0].now);
      ClockLater(kind, cfg, Step(kind, cfg, s, es[0].op, es[0].now).0, es[1..], es[0].now);
    }
  }

  /** There is always one more id for a service ticket. */
  lemma UnusedId(known: set<Id>) returns (newId: Id)
    ensures newId !in known && !HasGrantingPrefix(newId)
  {
    var n := LongerThanAll(known);
    newId := seq(n + 1, _ => 'S');
    assert newId[0] != "TGT"[0];
  }

  lemma {:induction false} LongerThanAll(known: set<Id>) returns (n: nat)
    ensures forall id :: id in known ==> |id| <= n
  {
    n := 0;
    if known != {} {
      var id :| id in known;
      n := LongerThanAll(known - {id});
      if n < |id| {
        n := |id|;
      }
    }
  }

  /** Once the count has wrapped to zero, the same request with a new id is granted again at the same instant. */
  lemma AgainAtOnce(kind: RegistryKind, cfg: Config, s: State, first: Op, a: int, mid: State, id: Id, newId: Id)
    requires Valid(kind, s) && Fresh(s, first) && id in s.heap && s.heap[id].policy.Throttled?
    requires Issues(kind, cfg, s, first, a, id) && mid == Step(kind, cfg, s, first, a).0 && Valid(kind, mid)
    requires 0 < s.heap[id].policy.ttk && Int32(s.heap[id].use.count + 1) == 0
    ensures Issues(kind, cfg, mid, first.(generated := Some(newId)), a, id)
  {
    GrantExactly(kind, cfg, s, first, a);
    IssuedState(kind, cfg, s, first, a);
    AfterGrant(kind, cfg, s, first, a, id);
    ParentAsBefore(s, mid, id, a);
    assert Usable(mid, id, true, a);
    GrantExactly(kind, cfg, mid, first.(generated := Some(newId)), a);
  }

  lemma WrapAllows(kind: RegistryKind, cfg: Config, s: State, first: Op, a: int, mid: State, id: Id)
    requires Valid(kind, s) && Fresh(s, first) && id in s.heap && s.heap[id].policy.Throttled?
    requires Issues(kind, cfg, s, first, a, id) && mid == Step(kind, cfg, s, first, a).0 && Valid(kind, mid)
    requires 0 < s.heap[id].policy.ttk && Int32(s.heap[id].use.count + 1) == 0
    ensures GrantsTooSoon(kind, cfg, mid, a, id, 0)
  {
    var newId := UnusedId(mid.rank.Keys);
    AgainAtOnce(kind, cfg, s, first, a, mid, id, newId);
    assert GrantsNext(kind, cfg, mid, [], a, first.(generated := Some(newId)), a, id);
  }

  lemma TooSoonWraps(kind: RegistryKind, cfg: Config, s: State, first: Op, a: int, mid: State, id: Id)
    requires Valid(kind, s) && Fresh(s, first) && id in s.heap && s.heap[id].policy.Throttled?
    requires Issues(kind, cfg, s, first, a, id) && mid == Step(kind, cfg, s, first, a).0 && Valid(kind, mid)
    requires GrantsTooSoon(kind, cfg, mid, a, id, s.heap[id].policy.between)
    ensures 0 <= s.heap[id].policy.between && 0 < s.heap[id].policy.ttk && Int32(s.heap[id].use.count + 1) == 0
  {
    var es, second, b :| GrantsNext(kind, cfg, mid, es, a, second, b, id) && b - a <= s.heap[id].policy.between;
    ThrottledSpacing(kind, cfg, s, first, a, mid, es, After(kind, cfg, mid, es, a), second, b, id);
    ClockLater(kind, cfg, mid, es, a);
  }

  lemma Longer(kind: RegistryKind, cfg: Config, s: State, clock: int, id: Id, within: int, between: int)
    requires Valid(kind, s) && GrantsTooSoon(kind, cfg, s, clock, id, within) && within <= between
    ensures GrantsTooSoon(kind, cfg, s, clock, id, between)
  {
    var es, second, b :| GrantsNext(kind, cfg, s, es, clock, second, b, id) && b - clock <= within;
    assert GrantsNext(kind, cfg, s, es, clock, second, b, id) && b - clock <= between;
  }

  /**
    Exactly when the throttled policy fails to keep grants apart: after a grant from a throttled ticket, with either
    registry, some continuation grants again within the waiting period if and only if the count has just wrapped to
    zero (the waiting period not being negative and the time to kill positive).
   */
  lemma ThrottledExactly(kind: RegistryKind, cfg: Config, s: State, first: Op, a: int, mid: State, id: Id, p: Policy)
    requires Valid(kind, s) && Fresh(s, first) && id in s.heap && s.heap[id].policy == p && p.Throttled?
    requires Issues(kind, cfg, s, first, a, id) && mid == Step(kind, cfg, s, first, a).0 && Valid(kind, mid)
    ensures GrantsTooSoon(kind, cfg, mid, a, id, p.between)
         <==> 0 <= p.between && 0 < p.ttk && Int32(s.heap[id].use.count + 1) == 0
  {
    if GrantsTooSoon(kind, cfg, mid, a, id, p.between) {
      TooSoonWraps(kind, cfg, s, first, a, mid, id);
    } else if 0 <= p.between && 0 < p.ttk && Int32(s.heap[id].use.count + 1) == 0 {
      WrapAllows(kind, cfg, s, first, a, mid, id);
      Longer(kind, cfg, mid, a, id, 0, p.between);
    }
  }

  lemma CountWraps(n: nat)
    ensures Int32(Int32(n) + 1) == 0 <==> n % TWO_32 == TWO_32 - 1
  {
    Int32Next(n);
    WrapsToZero(n + 1);
  }

  lemma IssuerInRun(kind: RegistryKind, cfg: Config, es: seq<Event>, clock: int, s: State, op: Op, now: int, id: Id)
    requires Admits(kind, cfg, EMPTY, es, clock) && s == After(kind, cfg, EMPTY, es, clock)
    requires Issues(kind, cfg, s, op, now, id) && Clock(es, clock) <= now && cfg.granting.Throttled?
    ensures id in s.heap && s.heap[id].detail.Granting? && s.heap[id].policy == cfg.granting && 0 < cfg.granting.ttk
  {
    IssuedState(kind, cfg, s, op, now);
    RegularAlways(kind, cfg, EMPTY, es, clock);
    IssuerLive(kind, cfg, s, op, now, id);
  }

  /**
    Over runs: a grant within the waiting period can follow the next one exactly if the ticket has so far issued one
    less than a multiple of 2^32.
   */
  lemma TooSoonExactly(kind: RegistryKind, cfg: Config, es: seq<Event>, clock: int, s: State, first: Op, a: int,
                       mid: State, id: Id)
    requires Admits(kind, cfg, EMPTY, es, clock) && s == After(kind, cfg, EMPTY, es, clock) && Clock(es, clock) <= a
    requires Fresh(s, first) && cfg.granting.Throttled? && Issues(kind, cfg, s, first, a, id)
    requires mid == Step(kind, cfg, s, first, a).0 && Valid(kind, mid)
    ensures GrantsTooSoon(kind, cfg, mid, a, id, cfg.granting.between)
         <==> && 0 <= cfg.granting.between
              && |GrantedBy(es, Outcomes(kind, cfg, EMPTY, es, clock), id)| % TWO_32 == TWO_32 - 1
  {
    var n := |GrantedBy(es, Outcomes(kind, cfg, EMPTY, es, clock), id)|;
    IssuerInRun(kind, cfg, es, clock, s, first, a, id);
    CountedAlways(kind, cfg, es, clock, s, id);
    TooSoonCount(kind, cfg, s, first, a, mid, id, n);
  }

  lemma TooSoonCount(kind: RegistryKind, cfg: Config, s: State, first: Op, a: int, mid: State, id: Id, n: nat)
    requires Valid(kind, s) && Fresh(s, first) && id in s.heap && s.heap[id].policy == cfg.granting
    requires cfg.granting.Throttled? && 0 < cfg.granting.ttk && s.heap[id].use.count == Int32(n)
    requires Issues(kind, cfg, s, first, a, id) && mid == Step(kind, cfg, s, first, a).0 && Valid(kind, mid)
    ensures GrantsTooSoon(kind, cfg, mid, a, id, cfg.granting.between)
         <==> 0 <= cfg.granting.between && n % TWO_32 == TWO_32 - 1
  {
    ThrottledExactly(kind, cfg, s, first, a, mid, id, cfg.granting);
    CountWraps(n);
  }
}
