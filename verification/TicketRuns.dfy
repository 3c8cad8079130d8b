/** Runs of the ticket protocol: when expiration is permanent, and that destroying a ticket kills what it led to. */
module TicketRuns {
  import opened Policies
  import opened Tickets
  import opened TicketInvariants
  import opened Wrappers

  datatype Event = Event(op: Op, now: int)

  /** The clock never goes back and every id an event would issue is new. */
  ghost predicate Admits(kind: RegistryKind, cfg: Config, s: State, es: seq<Event>, clock: int)
    requires Valid(kind, s)
    decreases |es|
  {
    |es| > 0 ==>
      && clock <= es[0].now && Fresh(s, es[0].op)
      && (StepProper(kind, cfg, s, es[0].op, es[0].now);
          Admits(kind, cfg, Step(kind, cfg, s, es[0].op, es[0].now).0, es[1..], es[0].now))
  }

  ghost function After(kind: RegistryKind, cfg: Config, s: State, es: seq<Event>, clock: int): (end: State)
    requires Valid(kind, s) && Admits(kind, cfg, s, es, clock)
    ensures Valid(kind, end)
    decreases |es|
  {
    if |es| == 0 then s
    else
      StepProper(kind, cfg, s, es[0].op, es[0].now);
      After(kind, cfg, Step(kind, cfg, s, es[0].op, es[0].now).0, es[1..], es[0].now)
  }

  ghost function Outcomes(kind: RegistryKind, cfg: Config, s: State, es: seq<Event>, clock: int): (r: seq<Outcome>)
    requires Valid(kind, s) && Admits(kind, cfg, s, es, clock)
    ensures |r| == |es|
    decreases |es|
  {
    if |es| == 0 then []
    else
      StepProper(kind, cfg, s, es[0].op, es[0].now);
      var (end, r) := Step(kind, cfg, s, es[0].op, es[0].now);
      [r] + Outcomes(kind, cfg, end, es[1..], es[0].now)
  }

  function Clock(es: seq<Event>, clock: int): int {
    if |es| == 0 then clock else es[|es| - 1].now
  }

  /** The operation is a request made with ticket `id`. */
  predicate Presents(op: Op, id: Id) {
    (op.Grant? || op.Delegate? || op.Validate?) && op.id == id
  }

  // ---------------------------------------------------------------- one event more

  lemma {:induction false} RunSnoc(kind: RegistryKind, cfg: Config, s: State, es: seq<Event>, clock: int, e: Event)
    requires Valid(kind, s) && Admits(kind, cfg, s, es, clock)
    requires Clock(es, clock) <= e.now && Fresh(After(kind, cfg, s, es, clock), e.op)
    ensures Admits(kind, cfg, s, es + [e], clock)
    ensures After(kind, cfg, s, es + [e], clock) == Step(kind, cfg, After(kind, cfg, s, es, clock), e.op, e.now).0
    ensures Outcomes(kind, cfg, s, es + [e], clock)
         == Outcomes(kind, cfg, s, es, clock) + [Step(kind, cfg, After(kind, cfg, s, es, clock), e.op, e.now).1]
    decreases |es|
  {
    if |es| == 0 {
      assert es + [e] == [e] && [e][1..] == [];
      StepProper(kind, cfg, s, e.op, e.now);
    } else {
      var mid := Step(kind, cfg, s, es[0].op, es[0].now).0;
      StepProper(kind, cfg, s, es[0].op, es[0].now);
      RunSnoc(kind, cfg, mid, es[1..], es[0].now, e);
      assert (es + [e])[1..] == es[1..] + [e] && (es + [e])[0] == es[0];
    }
  }

  // ---------------------------------------------------------------- new tickets

  /** A ticket just issued: its policy by its kind, unused, neither expired by hand nor with services or flag. */
  ghost predicate New(cfg: Config, t: Ticket, now: int) {
    && t.use == NewUse(now)
    && match t.detail
       case Granting(_, expired, services) => t.policy == cfg.granting && !expired && services == map[]
       case Granted(_, _, delegated) => t.policy == cfg.service && !delegated && t.parent.Some?
  }

  lemma NewTickets(kind: RegistryKind, cfg: Config, s: State, op: Op, now: int)
    requires Valid(kind, s) && Fresh(s, op)
    ensures var end := Step(kind, cfg, s, op, now).0;
            forall id :: id in end.heap && id !in s.heap ==> New(cfg, end.heap[id], now)
  {
    match op
    case Create(_, _) =>
    case Grant(_, _, _, _, _) => NewGranted(kind, cfg, s, op, now);
    case Delegate(_, _, _, _) => NewDelegated(kind, cfg, s, op, now);
    case Validate(_, _, _, _, _) => ValidateKeys(kind, s, op, now);
    case Destroy(_) => DestroyKeys(kind, s, op);
  }

  lemma NewGranted(kind: RegistryKind, cfg: Config, s: State, op: Op, now: int)
    requires Valid(kind, s) && op.Grant?
    ensures var end := StepGrant(kind, cfg, s, op, now).0;
            forall id :: id in end.heap && id !in s.heap ==> New(cfg, end.heap[id], now)
  {
    DeleteValid(kind, s, op.id);
  }

  lemma NewDelegated(kind: RegistryKind, cfg: Config, s: State, op: Op, now: int)
    requires Valid(kind, s) && op.Delegate?
    ensures var end := StepDelegate(kind, cfg, s, op, now).0;
            forall id :: id in end.heap && id !in s.heap ==> New(cfg, end.heap[id], now)
  {}

  /** Policies go by kind, and no use lies in the future. */
  ghost predicate Regular(cfg: Config, heap: map<Id, Ticket>, now: int) {
    forall id :: id in heap ==>
      && heap[id].policy == (if heap[id].detail.Granting? then cfg.granting else cfg.service)
      && heap[id].use.created <= heap[id].use.last <= now
  }

  lemma RegularStep(kind: RegistryKind, cfg: Config, s: State, op: Op, clock: int, now: int)
    requires Valid(kind, s) && Fresh(s, op) && Regular(cfg, s.heap, clock) && clock <= now
    ensures Regular(cfg, Step(kind, cfg, s, op, now).0.heap, now)
  {
    StepProper(kind, cfg, s, op, now);
    NewTickets(kind, cfg, s, op, now);
    var end := Step(kind, cfg, s, op, now).0;
    forall id | id in end.heap
      ensures && end.heap[id].policy == (if end.heap[id].detail.Granting? then cfg.granting else cfg.service)
              && end.heap[id].use.created <= end.heap[id].use.last <= now {
      if id in s.heap {
        assert Evolved(s, end.heap, id, now);
      } else {
        assert New(cfg, end.heap[id], now);
      }
    }
  }

  lemma {:induction false} RegularAlways(kind: RegistryKind, cfg: Config, s: State, es: seq<Event>, clock: int)
    requires Valid(kind, s) && Admits(kind, cfg, s, es, clock) && Regular(cfg, s.heap, clock)
    ensures Regular(cfg, After(kind, cfg, s, es, clock).heap, Clock(es, clock))
    decreases |es|
  {
    if |es| > 0 {
      StepProper(kind, cfg, s, es[0].op, es[0].now);
      RegularStep(kind, cfg, s, es[0].op, clock, es[0].now);
      RegularAlways(kind, cfg, Step(kind, cfg, s, es[0].op, es[0].now).0, es[1..], es[0].now);
    }
  }

  lemma ValidateKeys(kind: RegistryKind, s: State, op: Op, now: int)
    requires Valid(kind, s) && op.Validate?
    ensures StepValidate(kind, s, op, now).0.heap.Keys <= s.heap.Keys
  {
    ValidateShape(kind, s, op, now);
    if op.id in s.registry {
      DeleteValid(kind, s, op.id);
      if !Expired(s.heap, s.rank, op.id, now) && s.heap[op.id].detail.Granted? {
        Use1Valid(kind, s, op.id, now);
        DeleteValid(kind, Use1(s, op.id, now), op.id);
      }
    }
  }

  lemma DestroyKeys(kind: RegistryKind, s: State, op: Op)
    requires Valid(kind, s) && op.Destroy?
    ensures StepDestroy(kind, s, op).0.heap.Keys <= s.heap.Keys
  {
    if op.id in s.registry && s.heap[op.id].detail.Granting? {
      FlagValid(kind, s, op.id);
      DeleteValid(kind, Flag(s, op.id), op.id);
    }
  }

  // ---------------------------------------------------------------- expiration is permanent

  /** Some ticket of the granting chain has been expired by hand. */
  ghost predicate Flagged(heap: map<Id, Ticket>, rank: map<Id, nat>, id: Id)
    requires Forest(heap, rank) && id in heap
    decreases rank[id]
  {
    var t := heap[id];
    assert ParentBelow(heap, rank, id);
    (t.detail.Granting? && t.detail.expired) || (t.parent.Some? && Flagged(heap, rank, t.parent.value))
  }

  /** Some ticket of the granting chain has been expired by hand or is finished. */
  ghost predicate Settled(heap: map<Id, Ticket>, rank: map<Id, nat>, id: Id, now: int)
    requires Forest(heap, rank) && id in heap
    decreases rank[id]
  {
    var t := heap[id];
    assert ParentBelow(heap, rank, id);
    || (t.use.last <= now && Finished(t.policy, t.use, now))
    || (t.detail.Granting? && t.detail.expired)
    || (t.parent.Some? && Settled(heap, rank, t.parent.value, now))
  }

  lemma {:induction false} SettledInTime(heap: map<Id, Ticket>, rank: map<Id, nat>, id: Id, now: int, later: int)
    requires Forest(heap, rank) && id in heap && now <= later && Settled(heap, rank, id, now)
    ensures Settled(heap, rank, id, later) && Expired(heap, rank, id, later)
    decreases rank[id]
  {
    assert ParentBelow(heap, rank, id);
    var t := heap[id];
    if t.use.last <= now && Finished(t.policy, t.use, now) {
      FinishedExactly(t.policy, t.use, now);
    } else if t.parent.Some? && Settled(heap, rank, t.parent.value, now) {
      SettledInTime(heap, rank, t.parent.value, now, later);
    }
  }

  lemma {:induction false} ExpiredEvolves(s: State, end: State, id: Id, now: int)
    requires Evolves(s, end, now) && Forest(end.heap, end.rank)
    requires id in s.heap && id in end.heap && Expired(s.heap, s.rank, id, now)
    ensures Expired(end.heap, end.rank, id, now)
    decreases s.rank[id]
  {
    assert ParentBelow(s.heap, s.rank, id) && ParentBelow(end.heap, end.rank, id) && Evolved(s, end.heap, id, now);
    var t := s.heap[id];
    if t.parent.Some? && Expired(s.heap, s.rank, t.parent.value, now) {
      ExpiredEvolves(s, end, t.parent.value, now);
    }
  }

  lemma {:induction false} SettledEvolves(s: State, end: State, id: Id, now: int)
    requires Evolves(s, end, now) && Forest(end.heap, end.rank)
    requires id in s.heap && id in end.heap && Settled(s.heap, s.rank, id, now)
    ensures Settled(end.heap, end.rank, id, now)
    decreases s.rank[id]
  {
    assert ParentBelow(s.heap, s.rank, id) && ParentBelow(end.heap, end.rank, id) && Evolved(s, end.heap, id, now);
    var t := s.heap[id];
    if t.parent.Some? && Settled(s.heap, s.rank, t.parent.value, now) {
      SettledEvolves(s, end, t.parent.value, now);
    }
  }

  /** A settled ticket is expired at the end of every longer run, whatever the policies of other tickets. */
  lemma {:induction false} SettledForever(kind: RegistryKind, cfg: Config, s: State, es: seq<Event>, clock: int, id: Id)
    requires Valid(kind, s) && Admits(kind, cfg, s, es, clock)
    requires id in s.heap && Settled(s.heap, s.rank, id, clock)
    ensures var end := After(kind, cfg, s, es, clock);
            id in end.heap ==> Expired(end.heap, end.rank, id, Clock(es, clock))
    decreases |es|
  {
    if |es| == 0 {
      SettledInTime(s.heap, s.rank, id, clock, clock);
    } else {
      var op, now := es[0].op, es[0].now;
      StepProper(kind, cfg, s, op, now);
      SettledInTime(s.heap, s.rank, id, clock, now);
      var mid := Step(kind, cfg, s, op, now).0;
      if id in mid.heap {
        SettledEvolves(s, mid, id, now);
        SettledForever(kind, cfg, mid, es[1..], now, id);
      } else {
        GoneForever(kind, cfg, mid, es[1..], now, id);
      }
    }
  }

  /** Where the policies of a ticket and of granting tickets cannot revive, to be expired is to be settled. */
  lemma {:induction false} ExpiredSettled(cfg: Config, heap: map<Id, Ticket>, rank: map<Id, nat>, id: Id, now: int)
    requires Forest(heap, rank) && Regular(cfg, heap, now) && id in heap && !CanRevive(cfg.granting)
    requires heap[id].detail.Granting? || !CanRevive(cfg.service)
    requires Expired(heap, rank, id, now)
    ensures Settled(heap, rank, id, now)
    decreases rank[id]
  {
    assert ParentBelow(heap, rank, id);
    if heap[id].parent.Some? && Expired(heap, rank, heap[id].parent.value, now) {
      ExpiredSettled(cfg, heap, rank, heap[id].parent.value, now);
    }
  }

  /**
    In every run, with either registry: if the policy of granting tickets, and for a service ticket its own, cannot
    revive tickets, then a ticket that has expired after `es` is expired after every continuation `fs`.
   */
  lemma ExpiredForever(kind: RegistryKind, cfg: Config, es: seq<Event>, clock: int, s: State, fs: seq<Event>, id: Id)
    requires Admits(kind, cfg, EMPTY, es, clock) && s == After(kind, cfg, EMPTY, es, clock)
    requires Admits(kind, cfg, s, fs, Clock(es, clock))
    requires id in s.heap && Expired(s.heap, s.rank, id, Clock(es, clock))
    requires !CanRevive(cfg.granting) && (s.heap[id].detail.Granting? || !CanRevive(cfg.service))
    ensures var end := After(kind, cfg, s, fs, Clock(es, clock));
            id in end.heap ==> Expired(end.heap, end.rank, id, Clock(fs, Clock(es, clock)))
  {
    RegularAlways(kind, cfg, EMPTY, es, clock);
    ExpiredSettled(cfg, s.heap, s.rank, id, Clock(es, clock));
    SettledForever(kind, cfg, s, fs, Clock(es, clock), id);
  }

  // ---------------------------------------------------------------- when a whole chain lives

  /** The first instant from now on at which no policy of the chain bars the ticket. */
  ghost function ChainOpens(heap: map<Id, Ticket>, rank: map<Id, nat>, id: Id, now: int): int
    requires Forest(heap, rank) && id in heap
    decreases rank[id]
  {
    var t := heap[id];
    assert ParentBelow(heap, rank, id);
    var own := Opens(t.policy, t.use, now);
    if t.parent.None? then own
    else var rest := ChainOpens(heap, rank, t.parent.value, now); if own < rest then rest else own
  }

  ghost function ChainCloses(heap: map<Id, Ticket>, rank: map<Id, nat>, id: Id): Option<int>
    requires Forest(heap, rank) && id in heap
    decreases rank[id]
  {
    var t := heap[id];
    assert ParentBelow(heap, rank, id);
    var own := Closes(t.policy, t.use);
    if t.parent.None? then own else Earlier(own, ChainCloses(heap, rank, t.parent.value))
  }

  lemma {:induction false} ChainLive(heap: map<Id, Ticket>, rank: map<Id, nat>, id: Id, now: int, later: int)
    requires Forest(heap, rank) && id in heap && now <= later
    requires forall x :: x in heap ==> heap[x].use.last <= now
    ensures !Expired(heap, rank, id, later)
         <==> !Flagged(heap, rank, id) && ChainOpens(heap, rank, id, now) <= later
              && Before(later, ChainCloses(heap, rank, id))
    ensures now <= ChainOpens(heap, rank, id, now)
    decreases rank[id]
  {
    assert ParentBelow(heap, rank, id);
    LiveWindow(heap[id].policy, heap[id].use, now, later);
    if heap[id].parent.Some? {
      ChainLive(heap, rank, heap[id].parent.value, now, later);
    }
  }

  /**
    With the store as it is, a ticket lives at some instant from now on exactly if its chain has not been expired by
    hand and the latest opening of the chain's policies comes before their earliest close.
   */
  lemma LivesAgain(heap: map<Id, Ticket>, rank: map<Id, nat>, id: Id, now: int)
    requires Forest(heap, rank) && id in heap
    requires forall x :: x in heap ==> heap[x].use.last <= now
    ensures (exists later :: now <= later && !Expired(heap, rank, id, later))
         <==> !Flagged(heap, rank, id) && Before(ChainOpens(heap, rank, id, now), ChainCloses(heap, rank, id))
  {
    ChainLive(heap, rank, id, now, now);
    ChainLive(heap, rank, id, now, ChainOpens(heap, rank, id, now));
    if later :| now <= later && !Expired(heap, rank, id, later) {
      ChainLive(heap, rank, id, now, later);
    }
  }

  /** An issued id that has left the store never comes back. */
  lemma {:induction false} GoneForever(kind: RegistryKind, cfg: Config, s: State, es: seq<Event>, clock: int, id: Id)
    requires Valid(kind, s) && Admits(kind, cfg, s, es, clock) && id in s.rank && id !in s.heap
    ensures id !in After(kind, cfg, s, es, clock).heap
    decreases |es|
  {
    if |es| > 0 {
      var op, now := es[0].op, es[0].now;
      StepProper(kind, cfg, s, op, now);
      GoneForever(kind, cfg, Step(kind, cfg, s, op, now).0, es[1..], now, id);
    }
  }

  // ---------------------------------------------------------------- destruction

  /** `id` was issued, and the registry has lost it or it has been expired by hand, itself or through its chain. */
  ghost predicate Dead(s: State, id: Id)
    requires Forest(s.heap, s.rank) && s.registry <= s.heap.Keys
  {
    id in s.rank && (id in s.registry ==> Flagged(s.heap, s.rank, id))
  }

  lemma {:induction false} FlaggedExpired(heap: map<Id, Ticket>, rank: map<Id, nat>, id: Id, now: int)
    requires Forest(heap, rank) && id in heap && Flagged(heap, rank, id)
    ensures Expired(heap, rank, id, now)
    decreases rank[id]
  {
    assert ParentBelow(heap, rank, id);
    if heap[id].parent.Some? && Flagged(heap, rank, heap[id].parent.value) {
      FlaggedExpired(heap, rank, heap[id].parent.value, now);
    }
  }

  lemma {:induction false} FlaggedEvolves(s: State, end: State, id: Id, now: int)
    requires Evolves(s, end, now) && Forest(end.heap, end.rank)
    requires id in s.heap && id in end.heap && Flagged(s.heap, s.rank, id)
    ensures Flagged(end.heap, end.rank, id)
    decreases s.rank[id]
  {
    assert ParentBelow(s.heap, s.rank, id) && ParentBelow(end.heap, end.rank, id) && Evolved(s, end.heap, id, now);
    if s.heap[id].parent.Some? && Flagged(s.heap, s.rank, s.heap[id].parent.value) {
      FlaggedEvolves(s, end, s.heap[id].parent.value, now);
    }
  }

  lemma {:induction false} FlaggedThrough(heap: map<Id, Ticket>, rank: map<Id, nat>, id: Id, a: Id)
    requires Forest(heap, rank) && id in heap && Descends(heap, rank, id, a)
    ensures a in heap
    ensures heap[a].detail.Granting? && heap[a].detail.expired ==> Flagged(heap, rank, id)
    decreases rank[id]
  {
    assert ParentBelow(heap, rank, id);
    if id != a {
      FlaggedThrough(heap, rank, heap[id].parent.value, a);
    }
  }

  lemma DeadStep(kind: RegistryKind, cfg: Config, s: State, op: Op, now: int, id: Id)
    requires Valid(kind, s) && Fresh(s, op) && Dead(s, id)
    ensures Valid(kind, Step(kind, cfg, s, op, now).0) && Dead(Step(kind, cfg, s, op, now).0, id)
  {
    StepProper(kind, cfg, s, op, now);
    var end := Step(kind, cfg, s, op, now).0;
    if id in end.registry {
      FlaggedEvolves(s, end, id, now);
    }
  }

  /** No request made with a dead ticket is granted, whatever the policies. */
  lemma DeadRefused(kind: RegistryKind, cfg: Config, s: State, op: Op, now: int, id: Id)
    requires Valid(kind, s) && Dead(s, id) && Presents(op, id)
    ensures Step(kind, cfg, s, op, now).1.Failed?
  {
    if id in s.registry {
      FlaggedExpired(s.heap, s.rank, id, now);
    }
  }

  /** Destroying a granting ticket makes it and everything derived from it dead, with either registry. */
  lemma DestroyKills(kind: RegistryKind, cfg: Config, s: State, a: Id, now: int, id: Id)
    requires Valid(kind, s) && a in s.registry && s.heap[a].detail.Granting?
    requires id in s.heap && Descends(s.heap, s.rank, id, a)
    ensures Step(kind, cfg, s, Destroy(a), now).1 == Done
    ensures Valid(kind, Step(kind, cfg, s, Destroy(a), now).0) && Dead(Step(kind, cfg, s, Destroy(a), now).0, id)
  {
    StepProper(kind, cfg, s, Destroy(a), now);
    var end := Step(kind, cfg, s, Destroy(a), now).0;
    FlagValid(kind, s, a);
    var f := Flag(s, a);
    FlagDescends(s, a, id);
    DestroyShape(kind, s, a);
    if kind.InMemory? {
      FlaggedThrough(f.heap, f.rank, id, a);
    }
  }

  lemma DestroyShape(kind: RegistryKind, s: State, a: Id)
    requires Valid(kind, s) && a in s.registry && s.heap[a].detail.Granting? && Valid(kind, Flag(s, a))
    ensures StepDestroy(kind, s, Destroy(a)).0 == Delete(kind, Flag(s, a), a)
  {}

  lemma {:induction false} DeadForever(kind: RegistryKind, cfg: Config, s: State, es: seq<Event>, clock: int, id: Id,
                                       k: nat)
    requires Valid(kind, s) && Admits(kind, cfg, s, es, clock) && Dead(s, id)
    requires k < |es| && Presents(es[k].op, id)
    ensures Outcomes(kind, cfg, s, es, clock)[k].Failed?
    decreases |es|
  {
    var op, now := es[0].op, es[0].now;
    if k == 0 {
      DeadRefused(kind, cfg, s, op, now, id);
    } else {
      DeadStep(kind, cfg, s, op, now, id);
      DeadForever(kind, cfg, Step(kind, cfg, s, op, now).0, es[1..], now, id, k - 1);
    }
  }

  /**
    After a granting ticket `a` is destroyed, no request made with a ticket whose chain contained it succeeds in any
    later run, though the in-memory registry removes only `a`.
   */
  lemma DestroyedForever(kind: RegistryKind, cfg: Config, s: State, a: Id, now: int, es: seq<Event>, id: Id, k: nat)
    requires Valid(kind, s) && a in s.registry && s.heap[a].detail.Granting?
    requires id in s.heap && Descends(s.heap, s.rank, id, a)
    requires Valid(kind, Step(kind, cfg, s, Destroy(a), now).0)
    requires Admits(kind, cfg, Step(kind, cfg, s, Destroy(a), now).0, es, now)
    requires k < |es| && Presents(es[k].op, id)
    ensures Outcomes(kind, cfg, Step(kind, cfg, s, Destroy(a), now).0, es, now)[k].Failed?
  {
    DestroyKills(kind, cfg, s, a, now, id);
    DeadForever(kind, cfg, Step(kind, cfg, s, Destroy(a), now).0, es, now, id, k);
  }

  /** Nor does any later run derive a new ticket from `a`: whatever has it in its chain is dead. */
  lemma {:induction false} NoNewDescendants(kind: RegistryKind, cfg: Config, s: State, es: seq<Event>, clock: int,
                                            a: Id, id: Id)
    requires Valid(kind, s) && Admits(kind, cfg, s, es, clock) && a in s.rank
    requires a in s.heap ==> s.heap[a].detail.Granting? && s.heap[a].detail.expired
    requires id in After(kind, cfg, s, es, clock).heap
    requires var end := After(kind, cfg, s, es, clock); Descends(end.heap, end.rank, id, a)
    ensures Dead(After(kind, cfg, s, es, clock), id)
    decreases |es|
  {
    var end := After(kind, cfg, s, es, clock);
    if |es| == 0 {
      FlaggedThrough(end.heap, end.rank, id, a);
    } else {
      var op, now := es[0].op, es[0].now;
      StepProper(kind, cfg, s, op, now);
      var mid := Step(kind, cfg, s, op, now).0;
      if a in mid.heap && a in s.heap {
        assert Evolved(s, mid.heap, a, now);
      }
      NoNewDescendants(kind, cfg, mid, es[1..], now, a, id);
    }
  }
}
