/** What the use record of a ticket says of a run, with either registry, and that age limits are kept. */
module UseRecords {
  import opened JavaInt
  import opened Wrappers
  import opened Policies
  import opened Tickets
  import opened TicketInvariants
  import opened TicketRuns
  import opened TicketOutcomes
  import opened TicketAccounting

  /** The event is a use of `id`: it issues a service ticket from it, or gets past its expiry test. */
  predicate Used(op: Op, o: Outcome, id: Id) {
    (op.Grant? && op.id == id && o.Issued?) || (op.Validate? && op.id == id && Passes(o))
  }

  function UseOf(e: Event, o: Outcome, id: Id): seq<int> { if Used(e.op, o, id) then [e.now] else [] }

  /** When `id` was used in a run of events with their outcomes. */
  function UseTimes(es: seq<Event>, os: seq<Outcome>, id: Id): seq<int>
    requires |es| == |os|
  {
    if |es| == 0 then [] else UseOf(es[0], os[0], id) + UseTimes(es[1..], os[1..], id)
  }

  /** When it was issued. */
  function Born(es: seq<Event>, os: seq<Outcome>, id: Id): Option<int>
    requires |es| == |os|
  {
    if |es| == 0 then None else if os[0] == Issued(id) then Some(es[0].now) else Born(es[1..], os[1..], id)
  }

  /** Created at the instant of issue; the times of the last two uses, as far as there are any; and their number. */
  predicate Recorded(u: Use, born: int, ts: seq<int>) {
    && u.created == born && u.count == Int32(|ts|)
    && u.last == (if |ts| > 0 then ts[|ts| - 1] else born)
    && u.previous == if |ts| > 1 then ts[|ts| - 2] else if |ts| == 1 then born else 0
  }

  lemma RecordedNext(u: Use, born: int, ts: seq<int>, now: int)
    requires Recorded(u, born, ts)
    ensures Recorded(Touch(u, now), born, ts + [now])
  {
    Int32Next(|ts|);
  }

  ghost predicate Known(s: State, id: Id, born: Option<int>, ts: seq<int>) {
    if id in s.heap then born.Some? && Recorded(s.heap[id].use, born.value, ts)
    else id in s.rank || (born.None? && ts == [])
  }

  /** What a step adds to the store is what it issues. */
  lemma NewIsIssued(kind: RegistryKind, cfg: Config, s: State, op: Op, now: int, id: Id)
    requires Valid(kind, s) && Fresh(s, op)
    requires id in Step(kind, cfg, s, op, now).0.heap && id !in s.heap
    ensures Step(kind, cfg, s, op, now).1 == Issued(id)
  {
    match op
    case Create(_, _) =>
    case Grant(_, _, _, _, _) => DeleteValid(kind, s, op.id);
    case Delegate(_, _, _, _) =>
    case Validate(_, _, _, _, _) => ValidateKeys(kind, s, op, now);
    case Destroy(_) => DestroyKeys(kind, s, op);
  }

  /** A use is one of a ticket in the store, and of its own kind. */
  lemma UsedKnown(kind: RegistryKind, cfg: Config, s: State, op: Op, now: int, id: Id)
    requires Valid(kind, s) && Used(op, Step(kind, cfg, s, op, now).1, id)
    ensures id in s.heap && (s.heap[id].detail.Granting? <==> op.Grant?)
  {
    if op.Grant? {
      GrantAnswer(kind, cfg, s, op, now);
    } else {
      ValidateAnswer(kind, cfg, s, op, now);
    }
  }

  lemma UseStep(kind: RegistryKind, cfg: Config, s: State, op: Op, now: int, id: Id)
    requires Valid(kind, s) && Fresh(s, op) && id in s.heap && id in Step(kind, cfg, s, op, now).0.heap
    ensures var (end, o) := Step(kind, cfg, s, op, now);
            end.heap[id].use == if Used(op, o, id) then Touch(s.heap[id].use, now) else s.heap[id].use
  {
    if Used(op, Step(kind, cfg, s, op, now).1, id) {
      UsedKnown(kind, cfg, s, op, now, id);
    }
    if s.heap[id].detail.Granting? {
      StepUse(kind, cfg, s, op, now, id);
    } else {
      RedeemStep(kind, cfg, s, op, now, id);
    }
  }

  lemma StepKnown(kind: RegistryKind, cfg: Config, s: State, e: Event, id: Id, born: Option<int>, ts: seq<int>)
    requires Valid(kind, s) && Fresh(s, e.op) && Known(s, id, born, ts)
    ensures var (end, o) := Step(kind, cfg, s, e.op, e.now);
            Known(end, id, First(born, if o == Issued(id) then Some(e.now) else None), ts + UseOf(e, o, id))
  {
    StepProper(kind, cfg, s, e.op, e.now);
    var (end, o) := Step(kind, cfg, s, e.op, e.now);
    if Used(e.op, o, id) {
      UsedKnown(kind, cfg, s, e.op, e.now, id);
    }
    if o == Issued(id) {
      TicketMade(kind, cfg, s, e.op, e.now, id);
    }
    if id in end.heap {
      if id in s.heap {
        UseStep(kind, cfg, s, e.op, e.now, id);
        if Used(e.op, o, id) {
          RecordedNext(s.heap[id].use, born.value, ts, e.now);
        }
      } else {
        NewIsIssued(kind, cfg, s, e.op, e.now, id);
      }
    }
    assert ts + [] == ts;
  }

  function First(a: Option<int>, b: Option<int>): Option<int> { if a.Some? then a else b }

  lemma {:induction false} KnownAlways(kind: RegistryKind, cfg: Config, s: State, es: seq<Event>, clock: int, id: Id,
                                       born: Option<int>, ts: seq<int>)
    requires Valid(kind, s) && Admits(kind, cfg, s, es, clock) && Known(s, id, born, ts)
    ensures var os := Outcomes(kind, cfg, s, es, clock);
            Known(After(kind, cfg, s, es, clock), id, First(born, Born(es, os, id)), ts + UseTimes(es, os, id))
    decreases |es|
  {
    if |es| == 0 {
      assert ts + [] == ts;
    } else {
      var now := es[0].now;
      StepProper(kind, cfg, s, es[0].op, now);
      StepKnown(kind, cfg, s, es[0], id, born, ts);
      var (mid, o) := Step(kind, cfg, s, es[0].op, now);
      var rest := Outcomes(kind, cfg, mid, es[1..], now);
      assert ([o] + rest)[1..] == rest;
      KnownAlways(kind, cfg, mid, es[1..], now, id, First(born, if o == Issued(id) then Some(now) else None),
                  ts + UseOf(es[0], o, id));
      Regroup(ts, UseOf(es[0], o, id), UseTimes(es[1..], rest, id));
    }
  }

  lemma Regroup(a: seq<int>, b: seq<int>, c: seq<int>)
    ensures a + (b + c) == a + b + c
  {}

  /** In every run, with either registry, the use record of a ticket tells when it was issued and used. */
  lemma UseRecord(kind: RegistryKind, cfg: Config, es: seq<Event>, clock: int, s: State, id: Id)
    requires Admits(kind, cfg, EMPTY, es, clock) && s == After(kind, cfg, EMPTY, es, clock) && id in s.heap
    ensures var os := Outcomes(kind, cfg, EMPTY, es, clock);
            Born(es, os, id).Some? && Recorded(s.heap[id].use, Born(es, os, id).value, UseTimes(es, os, id))
  {
    KnownAlways(kind, cfg, EMPTY, es, clock, id, None, []);
    assert [] + UseTimes(es, Outcomes(kind, cfg, EMPTY, es, clock), id)
        == UseTimes(es, Outcomes(kind, cfg, EMPTY, es, clock), id);
  }

  // ---------------------------------------------------------------- age limits

  /** The policy limits the age of a ticket. */
  predicate AgeLimited(p: Policy, limit: int) {
    p == HardTimeout(limit) || (p.GrantingTicketPolicy? && p.maxLive == limit)
  }

  lemma {:induction false} ExpiredThrough(heap: map<Id, Ticket>, rank: map<Id, nat>, id: Id, a: Id, now: int)
    requires Forest(heap, rank) && id in heap && Descends(heap, rank, id, a)
    ensures a in heap && (Expired(heap, rank, a, now) ==> Expired(heap, rank, id, now))
    decreases rank[id]
  {
    assert ParentBelow(heap, rank, id);
    if id != a {
      ExpiredThrough(heap, rank, heap[id].parent.value, a, now);
    }
  }

  /**
    However often it was used: from the age limit on, no request made with a granting ticket, or with a ticket whose
    chain contains it, succeeds.
   */
  lemma DeadAtLimit(kind: RegistryKind, cfg: Config, es: seq<Event>, clock: int, s: State, a: Id, limit: int, op: Op,
                    now: int, id: Id)
    requires Admits(kind, cfg, EMPTY, es, clock) && s == After(kind, cfg, EMPTY, es, clock)
    requires a in s.heap && s.heap[a].detail.Granting? && AgeLimited(cfg.granting, limit)
    requires id in s.heap && Descends(s.heap, s.rank, id, a) && Presents(op, id)
    requires var born := Born(es, Outcomes(kind, cfg, EMPTY, es, clock), a); born.Some? && now - born.value >= limit
    ensures Step(kind, cfg, s, op, now).1.Failed?
  {
    UseRecord(kind, cfg, es, clock, s, a);
    RegularAlways(kind, cfg, EMPTY, es, clock);
    ExpiredThrough(s.heap, s.rank, id, a, now);
    match op
    case Grant(_, _, _, _, _) => GrantAnswer(kind, cfg, s, op, now);
    case Delegate(_, _, _, _) => DelegateAnswer(kind, cfg, s, op, now);
    case Validate(_, _, _, _, _) => ValidateAnswer(kind, cfg, s, op, now);
    case _ =>
  }
}
