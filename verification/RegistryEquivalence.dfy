/**
  The in-memory registry, which leaves the descendants of a removed ticket behind, and the JPA registry, which deletes
  them, give every request the same answer.
 */
module RegistryEquivalence {
  import opened Policies
  import opened Tickets
  import opened TicketInvariants
  import opened TicketRuns
  import opened Wrappers

  /** The operation names a ticket of the kind it works on, as ids handed out by earlier operations do. */
  predicate RightKind(op: Op) {
    match op
    case Create(_, _) => true
    case Grant(id, _, _, _, _) => HasGrantingPrefix(id)
    case Destroy(id) => HasGrantingPrefix(id)
    case Delegate(id, _, _, _) => !HasGrantingPrefix(id)
    case Validate(id, _, _, _, _) => !HasGrantingPrefix(id)
  }

  /**
    The policies under which the registries answer alike: granting tickets that do not come back to life, or service
    tickets that are never live.
   */
  predicate Alike(cfg: Config) { !CanRevive(cfg.granting) || BornExpired(cfg.service) }

  /** The granting ticket that `id` is, or was issued by, has expired. */
  ghost predicate Doomed(heap: map<Id, Ticket>, rank: map<Id, nat>, id: Id, now: int)
    requires Forest(heap, rank) && id in heap
  {
    assert ParentBelow(heap, rank, id);
    Expired(heap, rank, if heap[id].detail.Granting? then id else heap[id].parent.value, now)
  }

  /** Granting tickets are logins, and no service ticket was ever used. */
  ghost predicate Barren(heap: map<Id, Ticket>) {
    forall id :: id in heap ==>
      if heap[id].detail.Granting? then heap[id].parent.None? else heap[id].use == NewUse(heap[id].use.created)
  }

  /** No request with this ticket can succeed again. */
  ghost predicate Hopeless(cfg: Config, heap: map<Id, Ticket>, rank: map<Id, nat>, id: Id, now: int)
    requires Forest(heap, rank) && id in heap
  {
    if CanRevive(cfg.granting) then heap[id].detail.Granted? else Doomed(heap, rank, id, now)
  }

  ghost predicate Orderly(cfg: Config, heap: map<Id, Ticket>, now: int) {
    Regular(cfg, heap, now) && (CanRevive(cfg.granting) ==> Barren(heap))
  }

  ghost predicate Rows(m: State, j: State) {
    && m.rank == j.rank && m.issued == j.issued && j.registry <= m.registry
    && forall id :: id in j.heap ==> id in m.heap && m.heap[id] == j.heap[id]
  }

  /** The rows of `j` are tickets of `m`, and what only `m` still registers is beyond hope. */
  ghost predicate Matches(cfg: Config, m: State, j: State, now: int) {
    && Valid(InMemory, m) && Valid(Jpa, j) && Alike(cfg) && Orderly(cfg, m.heap, now) && Rows(m, j)
    && forall id :: id in m.registry && id !in j.registry ==> Hopeless(cfg, m.heap, m.rank, id, now)
  }

  ghost predicate OrderlyTicket(cfg: Config, t: Ticket, now: int) {
    && t.policy == (if t.detail.Granting? then cfg.granting else cfg.service) && t.use.created <= t.use.last <= now
    && (CanRevive(cfg.granting) ==> if t.detail.Granting? then t.parent.None? else t.use == NewUse(t.use.created))
  }

  /** A ticket put in place of another, or added. */
  lemma OrderlyWith(cfg: Config, heap: map<Id, Ticket>, id: Id, t: Ticket, now: int)
    requires Orderly(cfg, heap, now) && OrderlyTicket(cfg, t, now)
    ensures Orderly(cfg, heap[id := t], now)
  {}

  /** With policies that are alike only by their service tickets, every service ticket has expired. */
  lemma BarrenExpired(cfg: Config, m: State, j: State, id: Id, now: int)
    requires Matches(cfg, m, j, now) && CanRevive(cfg.granting) && id in m.heap && m.heap[id].detail.Granted?
    ensures Expired(m.heap, m.rank, id, now)
  {
    StaysExpired(cfg.service, m.heap[id].use.created, now);
  }

  lemma HopelessExpired(cfg: Config, m: State, j: State, id: Id, now: int)
    requires Matches(cfg, m, j, now) && id in m.heap && Hopeless(cfg, m.heap, m.rank, id, now)
    ensures Expired(m.heap, m.rank, id, now)
  {
    if CanRevive(cfg.granting) {
      BarrenExpired(cfg, m, j, id, now);
    }
    assert ParentBelow(m.heap, m.rank, id);
  }

  lemma HopelessInTime(cfg: Config, heap: map<Id, Ticket>, rank: map<Id, nat>, id: Id, now: int, later: int)
    requires Forest(heap, rank) && Regular(cfg, heap, now) && id in heap && now <= later
    requires Hopeless(cfg, heap, rank, id, now)
    ensures Hopeless(cfg, heap, rank, id, later)
  {
    assert ParentBelow(heap, rank, id);
    if !CanRevive(cfg.granting) {
      var a := if heap[id].detail.Granting? then id else heap[id].parent.value;
      ExpiredSettled(cfg, heap, rank, a, now);
      SettledInTime(heap, rank, a, now, later);
    }
  }

  lemma HopelessEvolves(cfg: Config, s: State, end: State, id: Id, now: int)
    requires Valid(InMemory, s) && Proper(InMemory, s, end, now) && id in s.heap
    requires Hopeless(cfg, s.heap, s.rank, id, now)
    ensures Hopeless(cfg, end.heap, end.rank, id, now)
  {
    assert ParentBelow(s.heap, s.rank, id) && ParentBelow(end.heap, end.rank, id) && Evolved(s, end.heap, id, now);
    if !CanRevive(cfg.granting) {
      ExpiredEvolves(s, end, if s.heap[id].detail.Granting? then id else s.heap[id].parent.value, now);
    }
  }

  lemma MatchAgree(cfg: Config, m: State, j: State, now: int)
    requires Matches(cfg, m, j, now)
    ensures Agree(j.heap, m.heap, j.heap.Keys)
  {
    forall id | id in j.heap ensures j.heap[id].parent.Some? ==> j.heap[id].parent.value in j.heap {
      assert ParentBelow(j.heap, j.rank, id);
    }
  }

  lemma SameExpired(cfg: Config, m: State, j: State, clock: int, id: Id, now: int)
    requires Matches(cfg, m, j, clock) && id in j.heap
    ensures Expired(m.heap, m.rank, id, now) == Expired(j.heap, j.rank, id, now)
  {
    MatchAgree(cfg, m, j, clock);
    ExpiredAgree(j.heap, j.rank, m.heap, m.rank, j.heap.Keys, id, now);
  }

  lemma SameAuthentications(cfg: Config, m: State, j: State, clock: int, id: Id)
    requires Matches(cfg, m, j, clock) && id in j.heap && j.heap[id].detail.Granting?
    ensures Authentications(m.heap, m.rank, id) == Authentications(j.heap, j.rank, id)
  {
    MatchAgree(cfg, m, j, clock);
    AuthenticationsAgree(j.heap, j.rank, m.heap, m.rank, j.heap.Keys, id);
  }

  lemma MatchLater(cfg: Config, m: State, j: State, clock: int, now: int)
    requires Matches(cfg, m, j, clock) && clock <= now
    ensures Matches(cfg, m, j, now)
  {
    forall id | id in m.registry && id !in j.registry ensures Hopeless(cfg, m.heap, m.rank, id, now) {
      HopelessInTime(cfg, m.heap, m.rank, id, clock, now);
    }
  }

  lemma {:induction false} DescendantExpired(heap: map<Id, Ticket>, rank: map<Id, nat>, id: Id, a: Id, now: int)
    requires Forest(heap, rank) && id in heap && a in heap
    requires Descends(heap, rank, id, a) && Expired(heap, rank, a, now)
    ensures Expired(heap, rank, id, now)
    decreases rank[id]
  {
    assert ParentBelow(heap, rank, id);
    if id != a {
      DescendantExpired(heap, rank, heap[id].parent.value, a, now);
    }
  }

  /** What the cascade removes besides the ticket itself. */
  lemma CascadeHopeless(cfg: Config, m: State, j: State, x: Id, id: Id, now: int)
    requires Matches(cfg, m, j, now) && id in j.registry && Expired(m.heap, m.rank, id, now) && x in j.heap && x != id
    requires Descends(j.heap, j.rank, x, id)
    ensures Hopeless(cfg, m.heap, m.rank, x, now)
  {
    assert ParentBelow(j.heap, j.rank, x) && ParentBelow(m.heap, m.rank, x);
    if !CanRevive(cfg.granting) {
      var a := if m.heap[x].detail.Granting? then x else m.heap[x].parent.value;
      SameExpired(cfg, m, j, now, id, now);
      DescendantExpired(j.heap, j.rank, a, id, now);
      SameExpired(cfg, m, j, now, a, now);
    }
  }

  /** The same ticket deleted from both: what the cascade removes in addition is beyond hope. */
  lemma DeleteMatches(cfg: Config, m: State, j: State, id: Id, now: int)
    requires Matches(cfg, m, j, now) && (id in j.registry ==> Expired(m.heap, m.rank, id, now))
    ensures Matches(cfg, Delete(InMemory, m, id), Delete(Jpa, j, id), now)
  {
    DeleteValid(InMemory, m, id);
    DeleteValid(Jpa, j, id);
    var m', j' := Delete(InMemory, m, id), Delete(Jpa, j, id);
    assert m'.heap == m.heap;
    forall x | x in m'.registry && x !in j'.registry ensures Hopeless(cfg, m'.heap, m'.rank, x, now) {
      if x in j.registry {
        assert id in j.registry && Descends(j.heap, j.rank, x, id);
        CascadeHopeless(cfg, m, j, x, id, now);
      }
    }
  }

  /** A ticket changed in the same way in both, or changed in `m` where `j` has lost it. */
  lemma ChangeMatches(cfg: Config, m: State, j: State, id: Id, t: Ticket, now: int)
    requires Matches(cfg, m, j, now) && id in m.heap
    requires Evolved(m, m.heap[id := t], id, now) && OrderlyTicket(cfg, t, now)
    ensures Matches(cfg, m.(heap := m.heap[id := t]), if id in j.heap then j.(heap := j.heap[id := t]) else j, now)
  {
    ChangeHopeless(cfg, m, j, id, t, now);
    OrderlyWith(cfg, m.heap, id, t, now);
    if id in j.heap {
      UpdateValid(Jpa, j, j.heap[id := t], id);
    }
  }

  lemma ChangeHopeless(cfg: Config, m: State, j: State, id: Id, t: Ticket, now: int)
    requires Matches(cfg, m, j, now) && id in m.heap && Evolved(m, m.heap[id := t], id, now)
    ensures var m' := m.(heap := m.heap[id := t]);
            && Valid(InMemory, m')
            && forall x :: x in m'.registry && x !in j.registry ==> Hopeless(cfg, m'.heap, m'.rank, x, now)
  {
    var m' := m.(heap := m.heap[id := t]);
    UpdateProper(InMemory, m, m'.heap, id, now);
    forall x | x in m'.registry && x !in j.registry ensures Hopeless(cfg, m'.heap, m'.rank, x, now) {
      HopelessEvolves(cfg, m, m', x, now);
    }
  }

  lemma AddMatches(cfg: Config, m: State, j: State, id: Id, t: Ticket, now: int)
    requires Matches(cfg, m, j, now) && id !in m.rank && KindMatches(id, t) && New(cfg, t, now)
    requires match t.parent case None => t.detail.Granting? case Some(p) => p in j.heap && j.heap[p].detail.Granting?
    requires CanRevive(cfg.granting) && t.detail.Granting? ==> t.parent.None?
    ensures Matches(cfg, AddTicket(m, id, t), AddTicket(j, id, t), now)
  {
    AddedHopeless(cfg, m, j, id, t, now);
    AddValid(Jpa, j, id, t);
    AddedRows(m, j, id, t);
    OrderlyWith(cfg, m.heap, id, t, now);
  }

  lemma AddedRows(m: State, j: State, id: Id, t: Ticket)
    requires m.rank == j.rank && m.issued == j.issued && j.registry <= m.registry
    requires forall x :: x in j.heap ==> x in m.heap && m.heap[x] == j.heap[x]
    ensures var m', j' := AddTicket(m, id, t), AddTicket(j, id, t);
            m'.rank == j'.rank && m'.issued == j'.issued && j'.registry <= m'.registry
            && forall x :: x in j'.heap ==> x in m'.heap && m'.heap[x] == j'.heap[x]
  {}

  lemma AddedHopeless(cfg: Config, m: State, j: State, id: Id, t: Ticket, now: int)
    requires Matches(cfg, m, j, now) && id !in m.rank && KindMatches(id, t)
    requires match t.parent case None => t.detail.Granting? case Some(p) => p in m.heap && m.heap[p].detail.Granting?
    ensures Valid(InMemory, AddTicket(m, id, t))
    ensures forall x :: x in m.registry && x !in j.registry ==>
      Hopeless(cfg, AddTicket(m, id, t).heap, AddTicket(m, id, t).rank, x, now)
  {
    Unchanged(InMemory, m, now);
    AddProper(InMemory, m, m, id, t, now);
    forall x | x in m.registry && x !in j.registry
      ensures Hopeless(cfg, AddTicket(m, id, t).heap, AddTicket(m, id, t).rank, x, now) {
      HopelessEvolves(cfg, m, AddTicket(m, id, t), x, now);
    }
  }

  // ---------------------------------------------------------------- one step of each operation

  lemma CreateMatches(cfg: Config, m: State, j: State, op: Op, now: int)
    requires Matches(cfg, m, j, now) && op.Create? && Fresh(m, op)
    ensures StepCreate(cfg, m, op, now).1 == StepCreate(cfg, j, op, now).1
    ensures Matches(cfg, StepCreate(cfg, m, op, now).0, StepCreate(cfg, j, op, now).0, now)
  {
    if op.verdict.Accepted? {
      AddMatches(cfg, m, j, op.newId,
                 Ticket(None, cfg.granting, NewUse(now), Granting(op.verdict.authentication, false, map[])), now);
    }
  }

  lemma GrantedMatches(cfg: Config, m: State, j: State, op: Op, now: int)
    requires Matches(cfg, m, j, now) && op.Grant? && Fresh(m, op) && op.generated.Some?
    requires op.id in j.registry && j.heap[op.id].detail.Granting? && !Expired(m.heap, m.rank, op.id, now)
    ensures Matches(cfg, Granting'(cfg, m, op, now), Granting'(cfg, j, op, now), now)
  {
    var t, newId := m.heap[op.id], op.generated.value;
    var used := t.(use := Touch(t.use, now), detail := t.detail.(services := t.detail.services[newId := op.service]));
    var m', j' := m.(heap := m.heap[op.id := used]), j.(heap := j.heap[op.id := used]);
    ChangeMatches(cfg, m, j, op.id, used, now);
    AddMatches(cfg, m', j', newId,
               Ticket(Some(op.id), cfg.service, NewUse(now),
                      Granted(op.service, t.use.count == 0 || op.credentials.Some?, false)), now);
  }

  lemma GrantMatches(cfg: Config, m: State, j: State, op: Op, now: int)
    requires Matches(cfg, m, j, now) && op.Grant? && Fresh(m, op) && RightKind(op)
    ensures StepGrant(InMemory, cfg, m, op, now).1 == StepGrant(Jpa, cfg, j, op, now).1
    ensures Matches(cfg, StepGrant(InMemory, cfg, m, op, now).0, StepGrant(Jpa, cfg, j, op, now).0, now)
  {
    if op.id in m.registry {
      assert KindMatches(op.id, m.heap[op.id]);
      if op.id !in j.registry {
        HopelessExpired(cfg, m, j, op.id, now);
      }
      if Expired(m.heap, m.rank, op.id, now) {
        DeleteMatches(cfg, m, j, op.id, now);
        if op.id in j.registry {
          SameExpired(cfg, m, j, now, op.id, now);
        }
      } else {
        LiveGrant(cfg, m, j, op, now);
      }
    }
  }

  lemma LiveGrant(cfg: Config, m: State, j: State, op: Op, now: int)
    requires Matches(cfg, m, j, now) && op.Grant? && Fresh(m, op) && HasGrantingPrefix(op.id)
    requires op.id in j.registry && j.heap[op.id].detail.Granting? && !Expired(m.heap, m.rank, op.id, now)
    ensures StepGrant(InMemory, cfg, m, op, now).1 == StepGrant(Jpa, cfg, j, op, now).1
    ensures Matches(cfg, StepGrant(InMemory, cfg, m, op, now).0, StepGrant(Jpa, cfg, j, op, now).0, now)
  {
    SameExpired(cfg, m, j, now, op.id, now);
    SameAuthentications(cfg, m, j, now, op.id);
    assert GrantRefusal(m, op) == GrantRefusal(j, op);
    if GrantRefusal(m, op).None? {
      GrantedMatches(cfg, m, j, op, now);
    }
  }

  lemma DelegatedMatches(cfg: Config, m: State, j: State, id: Id, t: Ticket, newId: Id, proxy: Ticket, now: int)
    requires Matches(cfg, m, j, now) && !CanRevive(cfg.granting)
    requires id in j.registry && j.heap[id].detail.Granted? && newId !in m.rank
    requires t == m.heap[id].(detail := m.heap[id].detail.(delegated := true))
    requires KindMatches(newId, proxy) && proxy.detail.Granting? && proxy.parent == t.parent && New(cfg, proxy, now)
    ensures Matches(cfg, AddTicket(m.(heap := m.heap[id := t]), newId, proxy),
                    AddTicket(j.(heap := j.heap[id := t]), newId, proxy), now)
  {
    assert ParentBelow(j.heap, j.rank, id);
    var m', j' := m.(heap := m.heap[id := t]), j.(heap := j.heap[id := t]);
    ChangeMatches(cfg, m, j, id, t, now);
    AddMatches(cfg, m', j', newId, proxy, now);
  }

  lemma DelegateMatches(cfg: Config, m: State, j: State, op: Op, now: int)
    requires Matches(cfg, m, j, now) && op.Delegate? && Fresh(m, op) && RightKind(op)
    ensures StepDelegate(InMemory, cfg, m, op, now).1 == StepDelegate(Jpa, cfg, j, op, now).1
    ensures Matches(cfg, StepDelegate(InMemory, cfg, m, op, now).0, StepDelegate(Jpa, cfg, j, op, now).0, now)
  {
    if op.id in m.registry {
      assert KindMatches(op.id, m.heap[op.id]);
      if op.id in j.registry {
        SameExpired(cfg, m, j, now, op.id, now);
      } else {
        HopelessExpired(cfg, m, j, op.id, now);
      }
      if CanRevive(cfg.granting) {
        BarrenExpired(cfg, m, j, op.id, now);
      }
      if StepDelegate(InMemory, cfg, m, op, now).1.Issued? {
        var t := m.heap[op.id];
        var proxy := Ticket(t.parent, cfg.granting, NewUse(now), Granting(op.verdict.authentication, false, map[]));
        DelegatedMatches(cfg, m, j, op.id, t.(detail := t.detail.(delegated := true)), op.newId, proxy, now);
      }
    }
  }

  lemma UseMatches(cfg: Config, m: State, j: State, id: Id, now: int)
    requires Matches(cfg, m, j, now) && !CanRevive(cfg.granting)
    requires id in j.registry && !Expired(m.heap, m.rank, id, now)
    ensures Matches(cfg, Use1(m, id, now), Use1(j, id, now), now)
  {
    ChangeMatches(cfg, m, j, id, Use1(m, id, now).heap[id], now);
  }

  lemma FinallyMatches(cfg: Config, m: State, j: State, id: Id, now: int)
    requires Matches(cfg, m, j, now) && id in j.registry
    ensures Matches(cfg, Finally(InMemory, m, id, now), Finally(Jpa, j, id, now), now)
  {
    SameExpired(cfg, m, j, now, id, now);
    if Expired(m.heap, m.rank, id, now) {
      DeleteMatches(cfg, m, j, id, now);
    }
  }

  lemma LiveValidation(cfg: Config, m: State, j: State, op: Op, now: int)
    requires Matches(cfg, m, j, now) && op.Validate? && op.id in j.registry && j.heap[op.id].detail.Granted?
    requires !CanRevive(cfg.granting) && !HasGrantingPrefix(op.id) && !Expired(m.heap, m.rank, op.id, now)
    requires op.found.Some? && op.found.value.enabled
    ensures StepValidate(InMemory, m, op, now).1 == StepValidate(Jpa, j, op, now).1
    ensures Matches(cfg, StepValidate(InMemory, m, op, now).0, StepValidate(Jpa, j, op, now).0, now)
  {
    SameExpired(cfg, m, j, now, op.id, now);
    UseMatches(cfg, m, j, op.id, now);
    FinallyMatches(cfg, Use1(m, op.id, now), Use1(j, op.id, now), op.id, now);
    SameChain(cfg, Use1(m, op.id, now), Use1(j, op.id, now), op.id, now);
  }

  lemma SameChain(cfg: Config, m: State, j: State, id: Id, now: int)
    requires Matches(cfg, m, j, now) && id in j.heap && j.heap[id].detail.Granted?
    ensures var p := j.heap[id].parent;
            && p.Some? && p.value in m.heap && p.value in j.heap
            && m.heap[p.value].detail.Granting? && j.heap[p.value].detail.Granting?
            && Authentications(m.heap, m.rank, p.value) == Authentications(j.heap, j.rank, p.value)
  {
    assert ParentBelow(j.heap, j.rank, id);
    SameAuthentications(cfg, m, j, now, j.heap[id].parent.value);
  }

  lemma ValidateMatches(cfg: Config, m: State, j: State, op: Op, now: int)
    requires Matches(cfg, m, j, now) && op.Validate? && RightKind(op)
    ensures StepValidate(InMemory, m, op, now).1 == StepValidate(Jpa, j, op, now).1
    ensures Matches(cfg, StepValidate(InMemory, m, op, now).0, StepValidate(Jpa, j, op, now).0, now)
  {
    if op.id in m.registry {
      assert KindMatches(op.id, m.heap[op.id]);
      if op.id !in j.registry {
        HopelessExpired(cfg, m, j, op.id, now);
      }
      if CanRevive(cfg.granting) {
        BarrenExpired(cfg, m, j, op.id, now);
      }
      if op.found.Some? && op.found.value.enabled {
        if Expired(m.heap, m.rank, op.id, now) {
          DeleteMatches(cfg, m, j, op.id, now);
          if op.id in j.registry {
            SameExpired(cfg, m, j, now, op.id, now);
          }
        } else {
          LiveValidation(cfg, m, j, op, now);
        }
      }
    }
  }

  lemma DestroyIs(kind: RegistryKind, s: State, op: Op)
    requires Valid(kind, s) && op.Destroy? && op.id in s.registry && HasGrantingPrefix(op.id)
    ensures s.heap[op.id].detail.Granting? && Valid(kind, Flag(s, op.id))
    ensures StepDestroy(kind, s, op) == (Delete(kind, Flag(s, op.id), op.id), Done)
  {
    assert KindMatches(op.id, s.heap[op.id]);
    FlagValid(kind, s, op.id);
  }

  lemma DestroyMatches(cfg: Config, m: State, j: State, op: Op, now: int)
    requires Matches(cfg, m, j, now) && op.Destroy? && RightKind(op)
    ensures StepDestroy(InMemory, m, op).1 == StepDestroy(Jpa, j, op).1
    ensures Matches(cfg, StepDestroy(InMemory, m, op).0, StepDestroy(Jpa, j, op).0, now)
  {
    if op.id in m.registry {
      assert KindMatches(op.id, m.heap[op.id]);
      var m' := Flag(m, op.id);
      var j' := if op.id in j.heap then Flag(j, op.id) else j;
      ChangeMatches(cfg, m, j, op.id, m'.heap[op.id], now);
      DeleteMatches(cfg, m', j', op.id, now);
      DestroyIs(InMemory, m, op);
      if op.id in j.registry {
        DestroyIs(Jpa, j, op);
      }
    }
  }

  lemma StepMatches(cfg: Config, m: State, j: State, op: Op, clock: int, now: int)
    requires Matches(cfg, m, j, clock) && clock <= now && Fresh(m, op) && RightKind(op)
    ensures Fresh(j, op) && Step(InMemory, cfg, m, op, now).1 == Step(Jpa, cfg, j, op, now).1
    ensures Matches(cfg, Step(InMemory, cfg, m, op, now).0, Step(Jpa, cfg, j, op, now).0, now)
  {
    MatchLater(cfg, m, j, clock, now);
    match op
    case Create(_, _) => CreateMatches(cfg, m, j, op, now);
    case Grant(_, _, _, _, _) => GrantMatches(cfg, m, j, op, now);
    case Delegate(_, _, _, _) => DelegateMatches(cfg, m, j, op, now);
    case Validate(_, _, _, _, _) => ValidateMatches(cfg, m, j, op, now);
    case Destroy(_) => DestroyMatches(cfg, m, j, op, now);
  }

  /** The registries are not told apart by the request: its ticket is of the right kind, or neither or both know it. */
  ghost predicate Spares(m: State, j: State, op: Op) {
    || RightKind(op)
    || (op.id in m.registry ==> op.id in j.registry || (op.Delegate? && op.verdict.Refused?))
  }

  /**
    An operation that names a ticket of the other kind is told the two registries apart exactly when only the in-memory
    one still knows the ticket: there it is a class cast error, and with JPA the ticket is missing. It changes nothing.
   */
  lemma WrongKind(cfg: Config, m: State, j: State, op: Op, now: int)
    requires Matches(cfg, m, j, now) && !RightKind(op)
    ensures Step(InMemory, cfg, m, op, now).1 == Step(Jpa, cfg, j, op, now).1 <==> Spares(m, j, op)
    ensures Step(InMemory, cfg, m, op, now).0 == m && Step(Jpa, cfg, j, op, now).0 == j
  {
    if op.id in m.registry {
      assert KindMatches(op.id, m.heap[op.id]);
    }
  }

  /** Any step, whatever kind of ticket it names. */
  lemma AnyStepMatches(cfg: Config, m: State, j: State, op: Op, clock: int, now: int)
    requires Matches(cfg, m, j, clock) && clock <= now && Fresh(m, op)
    ensures Fresh(j, op)
    ensures Step(InMemory, cfg, m, op, now).1 == Step(Jpa, cfg, j, op, now).1 <==> Spares(m, j, op)
    ensures Matches(cfg, Step(InMemory, cfg, m, op, now).0, Step(Jpa, cfg, j, op, now).0, now)
  {
    if RightKind(op) {
      StepMatches(cfg, m, j, op, clock, now);
    } else {
      MatchLater(cfg, m, j, clock, now);
      WrongKind(cfg, m, j, op, now);
    }
  }

  // ---------------------------------------------------------------- runs

  ghost predicate RightKinds(es: seq<Event>) {
    forall k :: 0 <= k < |es| ==> RightKind(es[k].op)
  }

  lemma {:induction false} RunMatches(cfg: Config, m: State, j: State, es: seq<Event>, clock: int)
    requires Matches(cfg, m, j, clock) && Admits(InMemory, cfg, m, es, clock)
    ensures Admits(Jpa, cfg, j, es, clock)
    ensures Matches(cfg, After(InMemory, cfg, m, es, clock), After(Jpa, cfg, j, es, clock), Clock(es, clock))
    decreases |es|
  {
    if |es| > 0 {
      var op, now := es[0].op, es[0].now;
      StepProper(InMemory, cfg, m, op, now);
      AnyStepMatches(cfg, m, j, op, clock, now);
      RunMatches(cfg, Step(InMemory, cfg, m, op, now).0, Step(Jpa, cfg, j, op, now).0, es[1..], now);
    }
  }

  /** The outcome of event `k` is that of one step after the events before. */
  lemma {:induction false} OutcomeAt(kind: RegistryKind, cfg: Config, s: State, es: seq<Event>, clock: int, k: nat)
    requires Valid(kind, s) && Admits(kind, cfg, s, es, clock) && k < |es|
    ensures Admits(kind, cfg, s, es[..k], clock) && Clock(es[..k], clock) <= es[k].now
    ensures var mid := After(kind, cfg, s, es[..k], clock);
            && Fresh(mid, es[k].op)
            && Outcomes(kind, cfg, s, es, clock)[k] == Step(kind, cfg, mid, es[k].op, es[k].now).1
    decreases k
  {
    if k > 0 {
      var op, now := es[0].op, es[0].now;
      StepProper(kind, cfg, s, op, now);
      OutcomeAt(kind, cfg, Step(kind, cfg, s, op, now).0, es[1..], now, k - 1);
      assert es[1..][..k - 1] == es[..k][1..] && es[..k][0] == es[0];
    }
  }

  /**
    From an empty registry, over any run, whatever kinds of tickets its requests name, the outcomes with the two
    registries differ at exactly the requests that name a ticket of the wrong kind which only the in-memory one knows.
   */
  lemma OutcomesAgree(cfg: Config, es: seq<Event>, clock: int, k: nat)
    requires Alike(cfg) && Admits(InMemory, cfg, EMPTY, es, clock) && k < |es|
    ensures Admits(Jpa, cfg, EMPTY, es, clock)
    ensures Admits(InMemory, cfg, EMPTY, es[..k], clock) && Admits(Jpa, cfg, EMPTY, es[..k], clock)
    ensures Outcomes(InMemory, cfg, EMPTY, es, clock)[k] == Outcomes(Jpa, cfg, EMPTY, es, clock)[k]
         <==> Spares(After(InMemory, cfg, EMPTY, es[..k], clock), After(Jpa, cfg, EMPTY, es[..k], clock), es[k].op)
  {
    RunMatches(cfg, EMPTY, EMPTY, es, clock);
    OutcomeAt(InMemory, cfg, EMPTY, es, clock, k);
    OutcomeAt(Jpa, cfg, EMPTY, es, clock, k);
    RunMatches(cfg, EMPTY, EMPTY, es[..k], clock);
    var m, j := After(InMemory, cfg, EMPTY, es[..k], clock), After(Jpa, cfg, EMPTY, es[..k], clock);
    AnyStepMatches(cfg, m, j, es[k].op, Clock(es[..k], clock), es[k].now);
  }

  /** So with requests of the right kinds every operation has the same outcome with either registry. */
  lemma RegistriesEquivalent(cfg: Config, es: seq<Event>, clock: int)
    requires Alike(cfg) && RightKinds(es) && Admits(InMemory, cfg, EMPTY, es, clock)
    ensures Admits(Jpa, cfg, EMPTY, es, clock)
    ensures Outcomes(InMemory, cfg, EMPTY, es, clock) == Outcomes(Jpa, cfg, EMPTY, es, clock)
  {
    RunMatches(cfg, EMPTY, EMPTY, es, clock);
    var a, b := Outcomes(InMemory, cfg, EMPTY, es, clock), Outcomes(Jpa, cfg, EMPTY, es, clock);
    forall k | 0 <= k < |es| ensures a[k] == b[k] {
      OutcomesAgree(cfg, es, clock, k);
      assert RightKind(es[k].op);
    }
  }
}
