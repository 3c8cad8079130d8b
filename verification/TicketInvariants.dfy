/** What every step of the ticket protocol keeps, and how tickets change from step to step. */
module TicketInvariants {
  import opened Policies
  import opened Tickets
  import opened Wrappers

  // ---------------------------------------------------------------- framing of the chain queries

  /** `keep` is closed under parents, and on it the two heaps agree on everything the queries read. */
  ghost predicate Agree(h1: map<Id, Ticket>, h2: map<Id, Ticket>, keep: set<Id>) {
    && keep <= h1.Keys && keep <= h2.Keys
    && (forall id :: id in keep ==> h1[id].parent.Some? ==> h1[id].parent.value in keep)
    && (forall id :: id in keep ==> SameView(h1[id], h2[id]))
  }

  /** Equal but for the services granted access to and the delegation flag. */
  ghost predicate SameView(t: Ticket, u: Ticket) {
    && t.parent == u.parent && t.policy == u.policy && t.use == u.use
    && match (t.detail, u.detail)
       case (Granting(a, e, _), Granting(b, f, _)) => a == b && e == f
       case (Granted(_, _, _), Granted(_, _, _)) => true
       case _ => false
  }

  lemma {:induction false} ExpiredAgree(h1: map<Id, Ticket>, r1: map<Id, nat>, h2: map<Id, Ticket>, r2: map<Id, nat>,
                                        keep: set<Id>, id: Id, now: int)
    requires Forest(h1, r1) && Forest(h2, r2) && Agree(h1, h2, keep) && id in keep
    ensures Expired(h1, r1, id, now) == Expired(h2, r2, id, now)
    decreases r1[id]
  {
    assert ParentBelow(h1, r1, id) && ParentBelow(h2, r2, id) && SameView(h1[id], h2[id]);
    if h1[id].parent.Some? {
      ExpiredAgree(h1, r1, h2, r2, keep, h1[id].parent.value, now);
    }
  }

  lemma {:induction false} DescendsAgree(h1: map<Id, Ticket>, r1: map<Id, nat>, h2: map<Id, Ticket>, r2: map<Id, nat>,
                                         keep: set<Id>, id: Id, a: Id)
    requires Forest(h1, r1) && Forest(h2, r2) && Agree(h1, h2, keep) && id in keep
    ensures Descends(h1, r1, id, a) == Descends(h2, r2, id, a)
    decreases r1[id]
  {
    assert ParentBelow(h1, r1, id) && ParentBelow(h2, r2, id) && SameView(h1[id], h2[id]);
    if h1[id].parent.Some? {
      DescendsAgree(h1, r1, h2, r2, keep, h1[id].parent.value, a);
    }
  }

  lemma {:induction false} AuthenticationsAgree(h1: map<Id, Ticket>, r1: map<Id, nat>,
                                                h2: map<Id, Ticket>, r2: map<Id, nat>, keep: set<Id>, id: Id)
    requires Forest(h1, r1) && Forest(h2, r2) && Agree(h1, h2, keep) && id in keep
    requires h1[id].detail.Granting?
    ensures h2[id].detail.Granting?
    ensures Authentications(h1, r1, id) == Authentications(h2, r2, id)
    decreases r1[id]
  {
    assert ParentBelow(h1, r1, id) && ParentBelow(h2, r2, id) && SameView(h1[id], h2[id]);
    if h1[id].parent.Some? {
      AuthenticationsAgree(h1, r1, h2, r2, keep, h1[id].parent.value);
    }
  }

  // ---------------------------------------------------------------- deletion

  lemma {:induction false} DescendsRank(heap: map<Id, Ticket>, rank: map<Id, nat>, x: Id, a: Id)
    requires Forest(heap, rank) && x in heap && Descends(heap, rank, x, a)
    ensures a in heap && rank[a] <= rank[x] && (x != a ==> rank[a] < rank[x] && heap[a].detail.Granting?)
    decreases rank[x]
  {
    assert ParentBelow(heap, rank, x);
    if x != a {
      DescendsRank(heap, rank, heap[x].parent.value, a);
    }
  }

  /** A ticket outside the family of `a` has its parent outside it too. */
  lemma FamilyClosed(heap: map<Id, Ticket>, rank: map<Id, nat>, a: Id, id: Id)
    requires Forest(heap, rank) && id in heap && id !in Family(heap, rank, a)
    ensures heap[id].parent.Some? ==>
      heap[id].parent.value in heap && heap[id].parent.value !in Family(heap, rank, a)
  {
    assert ParentBelow(heap, rank, id);
  }

  lemma WithoutValid(kind: RegistryKind, s: State, ids: set<Id>)
    requires Valid(kind, s)
    requires forall id :: id in s.heap && id !in ids ==> s.heap[id].parent.Some? ==> s.heap[id].parent.value !in ids
    ensures Valid(kind, Without(s, ids))
  {
    var w := Without(s, ids);
    forall id | id in w.heap ensures ParentBelow(w.heap, w.rank, id) {
      assert ParentBelow(s.heap, s.rank, id);
    }
  }

  lemma DeleteValid(kind: RegistryKind, s: State, id: Id)
    requires Valid(kind, s)
    ensures Valid(kind, Delete(kind, s, id))
    ensures Delete(kind, s, id).rank == s.rank
    ensures Delete(kind, s, id).heap.Keys <= s.heap.Keys
    ensures forall x :: x in Delete(kind, s, id).heap ==> Delete(kind, s, id).heap[x] == s.heap[x]
    ensures Delete(kind, s, id).registry <= s.registry && id !in Delete(kind, s, id).registry
  {
    if id in s.registry && kind.Jpa? {
      var ids := if s.heap[id].detail.Granted? then {id} else Family(s.heap, s.rank, id);
      forall x | x in s.heap && x !in ids
        ensures s.heap[x].parent.Some? ==> s.heap[x].parent.value !in ids
      {
        assert ParentBelow(s.heap, s.rank, x);
        if s.heap[id].detail.Granting? {
          FamilyClosed(s.heap, s.rank, id, x);
        }
      }
      WithoutValid(kind, s, ids);
    }
  }

  /** A use of one ticket changes nothing for the tickets above it. */
  lemma ParentAsBefore(s: State, end: State, id: Id, now: int)
    requires Forest(s.heap, s.rank) && Forest(end.heap, end.rank) && s.heap.Keys <= end.heap.Keys && id in s.heap
    requires forall x :: x in s.heap && x != id ==> end.heap[x] == s.heap[x]
    ensures s.heap[id].parent.Some? ==>
              var p := s.heap[id].parent.value;
              p in s.heap && Expired(end.heap, end.rank, p, now) == Expired(s.heap, s.rank, p, now)
  {
    assert ParentBelow(s.heap, s.rank, id);
    if s.heap[id].parent.Some? {
      var p := s.heap[id].parent.value;
      var keep := s.heap.Keys - Family(s.heap, s.rank, id);
      forall x | x in keep ensures s.heap[x].parent.Some? ==> s.heap[x].parent.value in keep {
        FamilyClosed(s.heap, s.rank, id, x);
      }
      if Descends(s.heap, s.rank, p, id) {
        DescendsRank(s.heap, s.rank, p, id);
      }
      ExpiredAgree(s.heap, s.rank, end.heap, end.rank, keep, p, now);
    }
  }

  lemma {:induction false} FlagDescends(s: State, a: Id, id: Id)
    requires Forest(s.heap, s.rank) && a in s.heap && s.heap[a].detail.Granting? && id in s.heap
    requires Forest(Flag(s, a).heap, Flag(s, a).rank)
    ensures Descends(s.heap, s.rank, id, a) == Descends(Flag(s, a).heap, Flag(s, a).rank, id, a)
    decreases s.rank[id]
  {
    assert ParentBelow(s.heap, s.rank, id) && ParentBelow(Flag(s, a).heap, s.rank, id);
    if s.heap[id].parent.Some? {
      FlagDescends(s, a, s.heap[id].parent.value);
    }
  }

  // ---------------------------------------------------------------- addition

  /** The heap change of a grant or delegation: one ticket updated in place, one added. */
  ghost predicate Updates(s: State, heap: map<Id, Ticket>, id: Id) {
    && id in s.heap && heap.Keys == s.heap.Keys
    && (forall x :: x in s.heap && x != id ==> heap[x] == s.heap[x])
    && heap[id].parent == s.heap[id].parent && heap[id].policy == s.heap[id].policy
    && heap[id].detail.Granting? == s.heap[id].detail.Granting?
  }

  lemma UpdateValid(kind: RegistryKind, s: State, heap: map<Id, Ticket>, id: Id)
    requires Valid(kind, s) && Updates(s, heap, id)
    ensures Valid(kind, s.(heap := heap))
  {
    forall x | x in heap ensures ParentBelow(heap, s.rank, x) {
      assert ParentBelow(s.heap, s.rank, x);
    }
  }

  lemma AddForest(s: State, id: Id, t: Ticket)
    requires Forest(s.heap, s.rank) && id !in s.rank && forall x :: x in s.rank ==> s.rank[x] < s.issued
    requires match t.parent case None => t.detail.Granting? case Some(p) => p in s.heap && s.heap[p].detail.Granting?
    ensures Forest(AddTicket(s, id, t).heap, AddTicket(s, id, t).rank)
  {
    var a := AddTicket(s, id, t);
    forall x | x in a.heap ensures ParentBelow(a.heap, a.rank, x) {
      if x != id {
        assert ParentBelow(s.heap, s.rank, x);
      }
    }
  }

  lemma AddValid(kind: RegistryKind, s: State, id: Id, t: Ticket)
    requires Valid(kind, s) && id !in s.rank
    requires KindMatches(id, t)
    requires match t.parent case None => t.detail.Granting? case Some(p) => p in s.heap && s.heap[p].detail.Granting?
    ensures Valid(kind, AddTicket(s, id, t))
  {
    AddForest(s, id, t);
    AddKinds(s, id, t);
  }

  lemma AddKinds(s: State, id: Id, t: Ticket)
    requires KindMatches(id, t) && forall x :: x in s.heap ==> KindMatches(x, s.heap[x])
    ensures var a := AddTicket(s, id, t);
            a.heap.Keys == s.heap.Keys + {id} && forall x :: x in a.heap ==> KindMatches(x, a.heap[x])
  {}

  // ---------------------------------------------------------------- how one step changes old tickets

  /**
    An old ticket keeps its parent, policy, kind, and creation data; its flag is never lowered, and its use is only
    recorded while it is live.
   */
  ghost predicate Evolved(s: State, heap: map<Id, Ticket>, id: Id, now: int)
    requires Forest(s.heap, s.rank) && id in s.heap && id in heap
  {
    var t, u := s.heap[id], heap[id];
    && u.parent == t.parent && u.policy == t.policy
    && (u.use == t.use || (u.use == Touch(t.use, now) && !Expired(s.heap, s.rank, id, now)))
    && match (t.detail, u.detail)
       case (Granting(a, e, sv), Granting(b, f, tv)) => a == b && (e ==> f) && sv.Keys <= tv.Keys
       case (Granted(a, n, d), Granted(b, m, e)) => a == b && n == m && (d ==> e)
       case _ => false
  }

  ghost predicate Evolves(s: State, end: State, now: int) {
    && Forest(s.heap, s.rank)
    && (forall id :: id in s.rank ==> id in end.rank && end.rank[id] == s.rank[id])
    && (forall id :: id in s.heap && id in end.heap ==> Evolved(s, end.heap, id, now))
    && (forall id :: id in end.heap && id !in s.heap ==> id !in s.rank)
    && (forall id :: id in end.registry && id in s.rank ==> id in s.registry)
  }

  ghost predicate Proper(kind: RegistryKind, s: State, end: State, now: int) {
    && Valid(kind, end) && Evolves(s, end, now)
    && (kind.InMemory? ==> s.heap.Keys <= end.heap.Keys)
  }

  /** Deleting after an update in place loses nothing that `Evolves` speaks of. */
  lemma DeleteProper(kind: RegistryKind, s: State, mid: State, id: Id, now: int)
    requires Valid(kind, s) && Proper(kind, s, mid, now)
    ensures Proper(kind, s, Delete(kind, mid, id), now)
  {
    DeleteValid(kind, mid, id);
    var end := Delete(kind, mid, id);
    forall x | x in s.heap && x in end.heap ensures Evolved(s, end.heap, x, now) {
      assert Evolved(s, mid.heap, x, now);
    }
  }

  lemma Unchanged(kind: RegistryKind, s: State, now: int)
    requires Valid(kind, s)
    ensures Proper(kind, s, s, now)
  {}

  lemma UpdateProper(kind: RegistryKind, s: State, heap: map<Id, Ticket>, id: Id, now: int)
    requires Valid(kind, s) && Updates(s, heap, id) && Evolved(s, heap, id, now)
    ensures Proper(kind, s, s.(heap := heap), now)
  {
    UpdateValid(kind, s, heap, id);
  }

  lemma AddProper(kind: RegistryKind, s: State, mid: State, id: Id, t: Ticket, now: int)
    requires Valid(kind, s) && Proper(kind, s, mid, now) && mid.rank == s.rank && id !in s.rank
    requires KindMatches(id, t)
    requires match t.parent
             case None => t.detail.Granting?
             case Some(p) => p in mid.heap && mid.heap[p].detail.Granting?
    ensures Proper(kind, s, AddTicket(mid, id, t), now)
  {
    AddValid(kind, mid, id, t);
    AddEvolves(s, mid, id, t, now);
  }

  lemma AddEvolves(s: State, mid: State, id: Id, t: Ticket, now: int)
    requires Evolves(s, mid, now) && mid.rank == s.rank && id !in s.rank && s.heap.Keys <= s.rank.Keys
    ensures Evolves(s, AddTicket(mid, id, t), now)
  {
    var end := AddTicket(mid, id, t);
    forall x | x in s.heap && x in end.heap ensures Evolved(s, end.heap, x, now) {
      assert Evolved(s, mid.heap, x, now);
    }
  }

  lemma CreateProper(kind: RegistryKind, cfg: Config, s: State, op: Op, now: int)
    requires Valid(kind, s) && op.Create? && Fresh(s, op)
    ensures Proper(kind, s, StepCreate(cfg, s, op, now).0, now)
  {
    Unchanged(kind, s, now);
    if op.verdict.Accepted? {
      AddProper(kind, s, s, op.newId,
                Ticket(None, cfg.granting, NewUse(now), Granting(op.verdict.authentication, false, map[])), now);
    }
  }

  lemma GrantedProper(kind: RegistryKind, cfg: Config, s: State, op: Op, now: int)
    requires Valid(kind, s) && op.Grant? && op.id in s.heap && s.heap[op.id].detail.Granting?
    requires op.generated.Some? && Fresh(s, op) && !Expired(s.heap, s.rank, op.id, now)
    ensures Proper(kind, s, Granting'(cfg, s, op, now), now)
  {
    var t, newId := s.heap[op.id], op.generated.value;
    var used := t.(use := Touch(t.use, now), detail := t.detail.(services := t.detail.services[newId := op.service]));
    var heap := s.heap[op.id := used];
    UpdateProper(kind, s, heap, op.id, now);
    AddProper(kind, s, s.(heap := heap), newId,
              Ticket(Some(op.id), cfg.service, NewUse(now),
                     Granted(op.service, t.use.count == 0 || op.credentials.Some?, false)), now);
  }

  lemma GrantProper(kind: RegistryKind, cfg: Config, s: State, op: Op, now: int)
    requires Valid(kind, s) && op.Grant? && Fresh(s, op)
    ensures Proper(kind, s, StepGrant(kind, cfg, s, op, now).0, now)
  {
    Unchanged(kind, s, now);
    if Get(kind, s, op.id).Some? && s.heap[op.id].detail.Granting? {
      if Expired(s.heap, s.rank, op.id, now) {
        DeleteProper(kind, s, s, op.id, now);
      } else if GrantRefusal(s, op).None? {
        GrantedProper(kind, cfg, s, op, now);
      }
    }
  }

  lemma DelegateProper(kind: RegistryKind, cfg: Config, s: State, op: Op, now: int)
    requires Valid(kind, s) && op.Delegate? && Fresh(s, op)
    ensures Proper(kind, s, StepDelegate(kind, cfg, s, op, now).0, now)
  {
    Unchanged(kind, s, now);
    if StepDelegate(kind, cfg, s, op, now).1.Issued? {
      assert ParentBelow(s.heap, s.rank, op.id);
      var t := s.heap[op.id];
      var heap := s.heap[op.id := t.(detail := t.detail.(delegated := true))];
      UpdateProper(kind, s, heap, op.id, now);
      AddProper(kind, s, s.(heap := heap), op.newId,
                Ticket(t.parent, cfg.granting, NewUse(now), Granting(op.verdict.authentication, false, map[])), now);
    }
  }

  /** A validation ends in one of three states. */
  lemma ValidateShape(kind: RegistryKind, s: State, op: Op, now: int)
    requires Valid(kind, s) && op.Validate?
    ensures var end := StepValidate(kind, s, op, now).0;
            || end == s
            || (op.id in s.registry && Expired(s.heap, s.rank, op.id, now) && end == Delete(kind, s, op.id))
            || (op.id in s.registry && !Expired(s.heap, s.rank, op.id, now) && s.heap[op.id].detail.Granted?
                && Valid(kind, Use1(s, op.id, now)) && end == Finally(kind, Use1(s, op.id, now), op.id, now))
  {
    if op.id in s.heap {
      Use1Valid(kind, s, op.id, now);
    }
  }

  lemma UseProper(kind: RegistryKind, s: State, id: Id, now: int)
    requires Valid(kind, s) && id in s.heap && !Expired(s.heap, s.rank, id, now)
    ensures Proper(kind, s, Use1(s, id, now), now)
  {
    UpdateProper(kind, s, Use1(s, id, now).heap, id, now);
  }

  lemma ValidateProper(kind: RegistryKind, s: State, op: Op, now: int)
    requires Valid(kind, s) && op.Validate?
    ensures Proper(kind, s, StepValidate(kind, s, op, now).0, now)
  {
    ValidateShape(kind, s, op, now);
    Unchanged(kind, s, now);
    if op.id in s.registry {
      if Expired(s.heap, s.rank, op.id, now) {
        DeleteProper(kind, s, s, op.id, now);
      } else {
        UseProper(kind, s, op.id, now);
        DeleteProper(kind, s, Use1(s, op.id, now), op.id, now);
      }
    }
  }

  lemma DestroyProper(kind: RegistryKind, s: State, op: Op, now: int)
    requires Valid(kind, s) && op.Destroy?
    ensures Proper(kind, s, StepDestroy(kind, s, op).0, now)
  {
    Unchanged(kind, s, now);
    if Get(kind, s, op.id).Some? && s.heap[op.id].detail.Granting? {
      UpdateProper(kind, s, Flag(s, op.id).heap, op.id, now);
      DeleteProper(kind, s, Flag(s, op.id), op.id, now);
    }
  }

  /** Every step of every operation, with either registry, keeps the invariant and changes old tickets only so. */
  lemma StepProper(kind: RegistryKind, cfg: Config, s: State, op: Op, now: int)
    requires Valid(kind, s) && Fresh(s, op)
    ensures Proper(kind, s, Step(kind, cfg, s, op, now).0, now)
  {
    match op
    case Create(_, _) => CreateProper(kind, cfg, s, op, now);
    case Grant(_, _, _, _, _) => GrantProper(kind, cfg, s, op, now);
    case Delegate(_, _, _, _) => DelegateProper(kind, cfg, s, op, now);
    case Validate(_, _, _, _, _) => ValidateProper(kind, s, op, now);
    case Destroy(_) => DestroyProper(kind, s, op, now);
  }
}
