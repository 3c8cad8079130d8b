/**
  JpaTicketRegistry over a table of tickets with parent ids, its row-by-row deletion, and the delegators of
  AbstractDistributedTicketRegistry. No removal fails.
 */
module JpaRegistry {
  import opened Policies
  import opened Tickets
  import opened TicketInvariants
  import opened Wrappers

  predicate ChildOf(rows: map<Id, Ticket>, x: Id, id: Id, granting: bool) {
    x in rows && rows[x].parent == Some(id) && rows[x].detail.Granting? == granting
  }

  ghost predicate Childless(rows: map<Id, Ticket>, id: Id) {
    forall x :: x in rows ==> rows[x].parent != Some(id)
  }

  /** Every store from the `from`th on has all the parents its tickets point to. */
  ghost predicate NoDangling(stores: seq<map<Id, Ticket>>, from: nat, rank: map<Id, nat>) {
    forall k :: from <= k < |stores| ==> Forest(stores[k], rank)
  }

  // ---------------------------------------------------------------- families

  /** Two children of one ticket do not descend from each other. */
  lemma SiblingsApart(heap: map<Id, Ticket>, rank: map<Id, nat>, id: Id, x: Id, y: Id)
    requires Forest(heap, rank) && x in heap && y in heap && id in heap && x != y
    requires heap[x].parent == Some(id) && heap[y].parent == Some(id)
    ensures !Descends(heap, rank, x, y)
  {
    assert ParentBelow(heap, rank, x) && ParentBelow(heap, rank, y);
    if Descends(heap, rank, x, y) {
      DescendsRank(heap, rank, id, y);
    }
  }

  /** A proper descendant descends from a child. */
  lemma {:induction false} ChildOnTheWay(heap: map<Id, Ticket>, rank: map<Id, nat>, x: Id, id: Id) returns (c: Id)
    requires Forest(heap, rank) && x in heap && Descends(heap, rank, x, id) && x != id
    ensures c in heap && heap[c].parent == Some(id) && Descends(heap, rank, x, c)
    decreases rank[x]
  {
    assert ParentBelow(heap, rank, x);
    c := x;
    if heap[x].parent.value != id {
      c := ChildOnTheWay(heap, rank, heap[x].parent.value, id);
    }
  }

  lemma {:induction false} DescendsThrough(heap: map<Id, Ticket>, rank: map<Id, nat>, x: Id, c: Id, id: Id)
    requires Forest(heap, rank) && x in heap && c in heap && heap[c].parent == Some(id) && Descends(heap, rank, x, c)
    ensures Descends(heap, rank, x, id) && x != id
    decreases rank[x]
  {
    assert ParentBelow(heap, rank, x);
    assert ParentBelow(heap, rank, c);
    DescendsRank(heap, rank, x, c);
    if x != c {
      DescendsThrough(heap, rank, heap[x].parent.value, c, id);
    }
  }

  /** What deleting a child from a smaller table removes, in terms of the table at the start. */
  lemma FamilyOfPart(heap: map<Id, Ticket>, rows: map<Id, Ticket>, rank: map<Id, nat>, done: set<Id>, c: Id)
    requires Forest(heap, rank) && Forest(rows, rank) && rows == heap - done
    ensures Family(rows, rank, c) <= Family(heap, rank, c)
    ensures Family(heap, rank, c) <= done + Family(rows, rank, c)
  {
    forall x | x in rows ensures rows[x].parent.Some? ==> rows[x].parent.value in rows {
      assert ParentBelow(rows, rank, x);
    }
    forall x | x in rows ensures Descends(rows, rank, x, c) == Descends(heap, rank, x, c) {
      DescendsAgree(rows, rank, heap, rank, rows.Keys, x, c);
    }
  }

  lemma ChildFamily(heap: map<Id, Ticket>, rank: map<Id, nat>, c: Id, id: Id)
    requires Forest(heap, rank) && c in heap && heap[c].parent == Some(id)
    ensures Family(heap, rank, c) <= Family(heap, rank, id) - {id}
  {
    forall x | x in Family(heap, rank, c) ensures Descends(heap, rank, x, id) && x != id {
      DescendsThrough(heap, rank, x, c, id);
    }
  }

  /** A service ticket has no family but itself. */
  lemma LeafFamily(heap: map<Id, Ticket>, rank: map<Id, nat>, c: Id)
    requires Forest(heap, rank) && c in heap && heap[c].detail.Granted?
    ensures Family(heap, rank, c) == {c} && Childless(heap, c)
  {
    forall x | x in heap ensures (Descends(heap, rank, x, c) <==> x == c) && heap[x].parent != Some(c) {
      assert ParentBelow(heap, rank, x);
      if Descends(heap, rank, x, c) {
        DescendsRank(heap, rank, x, c);
      }
    }
  }

  /** The families of all children, and the ticket itself, make up the family. */
  lemma FamilyCovered(heap: map<Id, Ticket>, rank: map<Id, nat>, id: Id, done: set<Id>)
    requires Forest(heap, rank) && id in heap && done <= Family(heap, rank, id) - {id}
    requires forall c :: c in heap && heap[c].parent == Some(id) ==> Family(heap, rank, c) <= done
    ensures done + {id} == Family(heap, rank, id)
  {
    forall x | x in Family(heap, rank, id) && x != id ensures x in done {
      var c := ChildOnTheWay(heap, rank, x, id);
      assert x in Family(heap, rank, c);
    }
  }

  lemma RemovalForest(rows: map<Id, Ticket>, rank: map<Id, nat>, id: Id)
    requires Forest(rows, rank) && Childless(rows, id)
    ensures Forest(rows - {id}, rank)
  {
    forall x | x in rows - {id} ensures ParentBelow(rows - {id}, rank, x) {
      assert ParentBelow(rows, rank, x);
    }
  }

  // ---------------------------------------------------------------- the registry

  class JpaTicketRegistry {
    var rows: map<Id, Ticket>
    /** The table after each removal. */
    ghost var stores: seq<map<Id, Ticket>>

    /** `entityManager.remove`: the row must have no children left, or the store would have a dangling parent. */
    method RemoveTicket(id: Id)
      requires Childless(rows, id)
      modifies this
      ensures rows == old(rows) - {id} && stores == old(stores) + [rows]
    {
      rows := rows - {id};
      stores := stores + [rows];
    }

    /** The two queries by parent id; rows come in no particular order. */
    method SelectChildren(id: Id, granting: bool) returns (list: seq<Id>)
      ensures forall x :: x in list <==> ChildOf(rows, x, id, granting)
      ensures forall i, j :: 0 <= i < j < |list| ==> list[i] != list[j]
    {
      var todo := set x | x in rows && ChildOf(rows, x, id, granting);
      list := [];
      while todo != {}
        invariant forall x :: x in list || x in todo <==> ChildOf(rows, x, id, granting)
        invariant forall x :: x in list ==> x !in todo
        invariant forall i, j :: 0 <= i < j < |list| ==> list[i] != list[j]
        decreases todo
      {
        var x :| x in todo;
        list, todo := list + [x], todo - {x};
      }
    }

    /** Removes exactly the ticket and everything granted from it, children before parents. */
    method DeleteTicketAndChildren(id: Id, ghost rank: map<Id, nat>, ghost bound: nat)
      requires Forest(rows, rank) && forall x :: x in rank ==> rank[x] < bound
      requires id in rows
      modifies this
      ensures rows == old(rows) - Family(old(rows), rank, id) && Forest(rows, rank)
      ensures old(stores) <= stores && NoDangling(stores, |old(stores)|, rank)
      decreases bound - rank[id]
    {
      var tgts := SelectChildren(id, true);
      var sts := SelectChildren(id, false);
      ghost var done := DeleteServiceTickets(id, sts, rank);
      done := DeleteProxies(id, tgts, rank, bound, old(rows), done);
      assert forall c :: c in old(rows) && old(rows)[c].parent == Some(id) ==> Family(old(rows), rank, c) <= done by {
        forall c | c in old(rows) && old(rows)[c].parent == Some(id) ensures Family(old(rows), rank, c) <= done {
          assert ChildOf(old(rows), c, id, old(rows)[c].detail.Granting?);
          assert c in tgts || c in sts;
        }
      }
      FamilyCovered(old(rows), rank, id, done);
      assert Childless(rows, id) by {
        forall c | c in rows ensures rows[c].parent != Some(id) {
          assert rows[c].parent == Some(id) ==> c in Family(old(rows), rank, c);
        }
      }
      RemovalForest(rows, rank, id);
      RemoveTicket(id);
    }

    /** The first loop. */
    method DeleteServiceTickets(id: Id, sts: seq<Id>, ghost rank: map<Id, nat>) returns (ghost done: set<Id>)
      requires Forest(rows, rank)
      requires forall x :: x in sts ==> ChildOf(rows, x, id, false)
      modifies this
      ensures rows == old(rows) - done && Forest(rows, rank) && done <= Family(old(rows), rank, id) - {id}
      ensures forall x :: x in sts ==> Family(old(rows), rank, x) <= done
      ensures forall x :: x in done ==> old(rows)[x].detail.Granted?
      ensures old(stores) <= stores && NoDangling(stores, |old(stores)|, rank)
    {
      done := {};
      for k := 0 to |sts|
        invariant rows == old(rows) - done && Forest(rows, rank) && done <= Family(old(rows), rank, id) - {id}
        invariant forall j :: 0 <= j < k ==> Family(old(rows), rank, sts[j]) <= done
        invariant forall x :: x in done ==> old(rows)[x].detail.Granted?
        invariant old(stores) <= stores && NoDangling(stores, |old(stores)|, rank)
      {
        assert sts[k] in sts;
        ChildFamily(old(rows), rank, sts[k], id);
        LeafFamily(old(rows), rank, sts[k]);
        RemovalForest(rows, rank, sts[k]);
        RemoveTicket(sts[k]);
        done := done + {sts[k]};
      }
    }

    /** The second loop, with the recursive calls. */
    method DeleteProxies(id: Id, tgts: seq<Id>, ghost rank: map<Id, nat>, ghost bound: nat, ghost heap: map<Id, Ticket>,
                         ghost before: set<Id>) returns (ghost done: set<Id>)
      requires Forest(heap, rank) && id in heap && forall x :: x in rank ==> rank[x] < bound
      requires rows == heap - before && Forest(rows, rank) && before <= Family(heap, rank, id) - {id}
      requires forall x :: x in tgts ==> ChildOf(heap, x, id, true) && x in rows
      requires forall i, j :: 0 <= i < j < |tgts| ==> tgts[i] != tgts[j]
      modifies this
      ensures rows == heap - done && Forest(rows, rank) && before <= done <= Family(heap, rank, id) - {id}
      ensures forall x :: x in tgts ==> Family(heap, rank, x) <= done
      ensures old(stores) <= stores && NoDangling(stores, |old(stores)|, rank)
      decreases bound - rank[id], 0
    {
      done := before;
      for k := 0 to |tgts|
        invariant rows == heap - done && Forest(rows, rank) && before <= done <= Family(heap, rank, id) - {id}
        invariant forall j :: 0 <= j < k ==> Family(heap, rank, tgts[j]) <= done
        invariant forall j :: k <= j < |tgts| ==> tgts[j] in rows
        invariant old(stores) <= stores && NoDangling(stores, |old(stores)|, rank)
      {
        ghost var t, now := tgts[k], rows;
        assert t in tgts && ParentBelow(heap, rank, t);
        FamilyOfPart(heap, rows, rank, done, t);
        ChildFamily(heap, rank, t, id);
        Unharmed(heap, rank, id, tgts, k);
        DeleteTicketAndChildren(tgts[k], rank, bound);
        done := done + Family(now, rank, t);
      }
    }

    /** `addTicket`. */
    method AddTicket(id: Id, t: Ticket)
      modifies this
      ensures rows == old(rows)[id := t] && stores == old(stores)
    {
      rows := rows[id := t];
    }

    /** `isExpired` of the row's ticket and, through its reference, of its parent's. */
    method IsExpired(id: Id, now: int, ghost rank: map<Id, nat>) returns (b: bool)
      requires Forest(rows, rank) && id in rows
      ensures b == Expired(rows, rank, id, now)
      decreases rank[id]
    {
      var t := rows[id];
      assert ParentBelow(rows, rank, id);
      if PolicyExpired(t.policy, t.use, now) {
        return true;
      }
      if t.parent.Some? {
        b := IsExpired(t.parent.value, now, rank);
        if b {
          return;
        }
      }
      return t.detail.Granting? && t.detail.expired;
    }

    /** `getChainedAuthentications` of the row's ticket. */
    method GetChainedAuthentications(id: Id, ghost rank: map<Id, nat>) returns (list: seq<Authentication>)
      requires Forest(rows, rank) && id in rows && rows[id].detail.Granting?
      ensures list == Authentications(rows, rank, id)
      decreases rank[id]
    {
      var t := rows[id];
      assert ParentBelow(rows, rank, id);
      list := [t.detail.authentication];
      if t.parent.Some? {
        var rest := GetChainedAuthentications(t.parent.value, rank);
        list := list + rest;
      }
    }

    /** `updateTicket`. */
    method MergeTicket(id: Id, t: Ticket)
      modifies this
      ensures rows == old(rows)[id := t] && stores == old(stores)
    {
      rows := rows[id := t];
    }

    /** `getTicket`: what the caller gets wraps a copy of the row. */
    method GetTicket(id: Id) returns (d: TicketDelegator?)
      ensures d == null <==> id !in rows || (rows[id].detail.Granting? <==> !("TGT" <= id))
      ensures d != null ==> fresh(d) && d.ticketRegistry == this && d.id == id && d.InStep()
    {
      var ticket := GetRawTicket(id);
      assert ticket == Get(Jpa, State(rows, rows.Keys, map[], 0), id);
      d := null;
      if ticket.Some? {
        d := new TicketDelegator(this, id, ticket.value);
      }
    }

    /** `deleteTicket`: a service ticket alone, a granting ticket with its family, nothing for an unknown id. */
    method DeleteTicket(id: Id, ghost rank: map<Id, nat>, ghost issued: nat) returns (found: bool)
      requires Valid(Jpa, State(rows, rows.Keys, rank, issued))
      modifies this
      ensures found == Get(Jpa, State(old(rows), old(rows).Keys, rank, issued), id).Some?
      ensures rows == Delete(Jpa, State(old(rows), old(rows).Keys, rank, issued), id).heap
      ensures Valid(Jpa, State(rows, rows.Keys, rank, issued))
      ensures old(stores) <= stores && NoDangling(stores, |old(stores)|, rank)
    {
      ghost var s := State(rows, rows.Keys, rank, issued);
      DeleteValid(Jpa, s, id);
      var ticket := GetRawTicket(id);
      if ticket.None? {
        return false;
      }
      if ticket.value.detail.Granted? {
        LeafFamily(rows, rank, id);
        RemovalForest(rows, rank, id);
        RemoveTicket(id);
      } else {
        DeleteTicketAndChildren(id, rank, issued);
      }
      assert rows.Keys == Delete(Jpa, s, id).registry;
      return true;
    }

    /** Which of the two tables is searched depends on the prefix of the id. */
    method GetRawTicket(id: Id) returns (r: Option<Ticket>)
      ensures forall rank, issued :: r == Get(Jpa, State(rows, rows.Keys, rank, issued), id)
    {
      if HasGrantingPrefix(id) {
        r := if id in rows && rows[id].detail.Granting? then Some(rows[id]) else None;
      } else {
        r := if id in rows && rows[id].detail.Granted? then Some(rows[id]) else None;
      }
    }
  }

  /** A delegator changes its copy of the ticket, then writes it back. */
  class TicketDelegator {
    const ticketRegistry: JpaTicketRegistry
    const id: Id
    var ticket: Ticket

    constructor (registry: JpaTicketRegistry, id: Id, t: Ticket)
      ensures ticketRegistry == registry && this.id == id && ticket == t
    {
      ticketRegistry, this.id, ticket := registry, id, t;
    }

    /** The copy is what the store holds. */
    ghost predicate InStep()
      reads this, ticketRegistry
    {
      id in ticketRegistry.rows && ticketRegistry.rows[id] == ticket
    }

    ghost function StateOf(rank: map<Id, nat>, issued: nat): State
      reads ticketRegistry
    {
      State(ticketRegistry.rows, ticketRegistry.rows.Keys, rank, issued)
    }

    method IsValidFor(matches: Service -> bool, now: int, ghost rank: map<Id, nat>, ghost issued: nat) returns (b: bool)
      requires InStep() && ticket.detail.Granted?
      modifies this, ticketRegistry
      ensures InStep() && b == matches(old(ticket).detail.service)
      ensures StateOf(rank, issued) == Use1(old(StateOf(rank, issued)), id, now)
    {
      ticket := ticket.(use := Touch(ticket.use, now));
      b := matches(ticket.detail.service);
      ticketRegistry.MergeTicket(id, ticket);
    }

    method GrantTicketGrantingTicket(authentication: Authentication, policy: Policy, now: int)
      returns (pgt: Option<Ticket>)
      requires InStep() && ticket.detail.Granted?
      modifies this, ticketRegistry
      ensures InStep() && (pgt.None? <==> old(ticket).detail.delegated)
      ensures pgt.None? ==> ticketRegistry.rows == old(ticketRegistry.rows)
      ensures pgt.Some? ==>
        && pgt.value == Ticket(ticket.parent, policy, NewUse(now), Granting(authentication, false, map[]))
        && ticketRegistry.rows
           == old(ticketRegistry.rows)[id := old(ticket).(detail := old(ticket).detail.(delegated := true))]
    {
      if ticket.detail.delegated {
        return None;
      }
      ticket := ticket.(detail := ticket.detail.(delegated := true));
      pgt := Some(Ticket(ticket.parent, policy, NewUse(now), Granting(authentication, false, map[])));
      ticketRegistry.MergeTicket(id, ticket);
    }

    /** Grant and then store the new ticket: together the step of the protocol. */
    method GrantServiceTicket(cfg: Config, op: Op, now: int, ghost rank: map<Id, nat>, ghost issued: nat)
      returns (st: Ticket)
      requires InStep() && ticket.detail.Granting? && op.Grant? && op.id == id && op.generated.Some?
      modifies this, ticketRegistry
      ensures InStep() && ticketRegistry.rows.Keys == old(ticketRegistry.rows).Keys
      ensures AddTicket(StateOf(rank, issued), op.generated.value, st)
           == Granting'(cfg, old(StateOf(rank, issued)), op, now)
    {
      st := Ticket(Some(id), cfg.service, NewUse(now),
                   Granted(op.service, ticket.use.count == 0 || op.credentials.Some?, false));
      ticket := ticket.(use := Touch(ticket.use, now));
      ticket := ticket.(detail := ticket.detail.(services := ticket.detail.services[op.generated.value := op.service]));
      ticketRegistry.MergeTicket(id, ticket);
    }

    method Expire(ghost rank: map<Id, nat>, ghost issued: nat)
      requires InStep() && ticket.detail.Granting?
      modifies this, ticketRegistry
      ensures InStep() && StateOf(rank, issued) == Flag(old(StateOf(rank, issued)), id)
    {
      ticket := ticket.(detail := ticket.detail.(expired := true));
      ticketRegistry.MergeTicket(id, ticket);
    }
  }

  lemma Unharmed(heap: map<Id, Ticket>, rank: map<Id, nat>, id: Id, tgts: seq<Id>, k: nat)
    requires Forest(heap, rank) && id in heap && k < |tgts|
    requires forall x :: x in tgts ==> ChildOf(heap, x, id, true)
    requires forall i, j :: 0 <= i < j < |tgts| ==> tgts[i] != tgts[j]
    ensures forall j :: k < j < |tgts| ==> tgts[j] !in Family(heap, rank, tgts[k])
  {
    forall j | k < j < |tgts| ensures tgts[j] !in Family(heap, rank, tgts[k]) {
      assert tgts[j] in tgts && tgts[k] in tgts;
      SiblingsApart(heap, rank, id, tgts[j], tgts[k]);
    }
  }
}
