/** Ticket objects and the in-memory registry, as the objects they are. */
module TicketObjects {
  import opened JavaInt
  import opened Policies
  import opened Tickets
  import opened Wrappers

  /** AbstractTicket with its two subclasses; `detail` holds the fields of the subclass. */
  class TicketObject {
    const id: Id
    const parent: TicketObject?
    const policy: Policy
    const creationTime: int
    var lastTimeUsed: int
    var previousLastTimeUsed: int
    var countOfUses: int
    var detail: Detail

    constructor (id: Id, parent: TicketObject?, policy: Policy, detail: Detail, now: int)
      ensures this.id == id && this.parent == parent
      ensures Value() == Ticket(if parent == null then None else Some(parent.id), policy, NewUse(now), detail)
    {
      this.id, this.parent, this.policy, this.detail := id, parent, policy, detail;
      creationTime, lastTimeUsed, previousLastTimeUsed, countOfUses := now, now, 0, 0;
    }

    function Use(): Use
      reads this
    {
      Policies.Use(creationTime, lastTimeUsed, previousLastTimeUsed, countOfUses)
    }

    function Value(): Ticket
      reads this
    {
      Ticket(if parent == null then None else Some(parent.id), policy, Use(), detail)
    }

    method UpdateState(now: int)
      modifies this
      ensures Value() == old(Value()).(use := Touch(old(Use()), now))
    {
      previousLastTimeUsed := lastTimeUsed;
      lastTimeUsed := now;
      countOfUses := Int32(countOfUses + 1);
    }

    /** The policy, then the chain of granting tickets, then the flag of a granting ticket. */
    method IsExpired(ghost all: map<Id, TicketObject>, ghost rank: map<Id, nat>, now: int) returns (b: bool)
      requires Linked(all) && Forest(Heap(all), rank) && id in all && all[id] == this
      ensures b == Expired(Heap(all), rank, id, now)
      decreases rank[id]
    {
      assert ParentBelow(Heap(all), rank, id);
      if PolicyExpired(policy, Use(), now) {
        return true;
      }
      if parent != null {
        b := parent.IsExpired(all, rank, now);
        if b {
          return;
        }
      }
      return detail.Granting? && detail.expired;
    }

    method GetChainedAuthentications(ghost all: map<Id, TicketObject>, ghost rank: map<Id, nat>)
      returns (list: seq<Authentication>)
      requires Linked(all) && Forest(Heap(all), rank) && id in all && all[id] == this && detail.Granting?
      ensures list == Authentications(Heap(all), rank, id)
      decreases rank[id]
    {
      assert ParentBelow(Heap(all), rank, id);
      list := [detail.authentication];
      if parent != null {
        var rest := parent.GetChainedAuthentications(all, rank);
        list := list + rest;
      }
    }

    /** The mark of the new ticket is taken from the use count before this grant is counted. */
    method GrantServiceTicket(newId: Id, service: Service, expirationPolicy: Policy, credentialsProvided: bool,
                              now: int) returns (st: TicketObject)
      requires detail.Granting?
      modifies this
      ensures fresh(st) && st.id == newId && st.parent == this
      ensures st.Value() == Ticket(Some(id), expirationPolicy, NewUse(now),
                                   Granted(service, old(countOfUses) == 0 || credentialsProvided, false))
      ensures Value() == old(Value()).(use := Touch(old(Use()), now),
                                       detail := old(detail).(services := old(detail).services[newId := service]))
    {
      st := new TicketObject(newId, this, expirationPolicy,
                             Granted(service, countOfUses == 0 || credentialsProvided, false), now);
      UpdateState(now);
      detail := detail.(services := detail.services[newId := service]);
    }

    /** The log-out of the granted services is `LogOut.LogOutOfServices`. */
    method Expire()
      requires detail.Granting?
      modifies this
      ensures Value() == old(Value()).(detail := old(detail).(expired := true))
    {
      detail := detail.(expired := true);
    }

    method IsValidFor(matches: Service -> bool, now: int) returns (b: bool)
      requires detail.Granted?
      modifies this
      ensures b == matches(old(detail).service)
      ensures Value() == old(Value()).(use := Touch(old(Use()), now))
    {
      UpdateState(now);
      b := matches(detail.service);
    }

    /** None for the `IllegalStateException` of a second call. */
    method GrantTicketGrantingTicket(newId: Id, authentication: Authentication, expirationPolicy: Policy, now: int)
      returns (pgt: TicketObject?)
      requires detail.Granted?
      modifies this
      ensures pgt == null <==> old(detail).delegated
      ensures pgt == null ==> Value() == old(Value())
      ensures pgt != null ==>
        && fresh(pgt) && pgt.id == newId && pgt.parent == parent
        && pgt.Value()
           == Ticket(old(Value()).parent, expirationPolicy, NewUse(now), Granting(authentication, false, map[]))
        && Value() == old(Value()).(detail := old(detail).(delegated := true))
    {
      if detail.delegated {
        return null;
      }
      detail := detail.(delegated := true);
      pgt := new TicketObject(newId, parent, expirationPolicy, Granting(authentication, false, map[]), now);
    }
  }

  /** Every object is filed under its id, and its parent is filed too. */
  ghost predicate Linked(all: map<Id, TicketObject>) {
    forall id :: id in all ==>
      all[id].id == id
      && (all[id].parent != null ==> all[id].parent.id in all && all[all[id].parent.id] == all[id].parent)
  }

  ghost function Heap(all: map<Id, TicketObject>): map<Id, Ticket>
    reads all.Values
  {
    map id | id in all :: all[id].Value()
  }

  lemma HeapExtended(all: map<Id, TicketObject>, t: TicketObject)
    requires t.id !in all
    ensures Heap(all[t.id := t]) == Heap(all)[t.id := t.Value()]
  {}

  lemma LinkedExtended(all: map<Id, TicketObject>, t: TicketObject)
    requires Linked(all) && t.id !in all && (t.parent != null ==> t.parent.id in all && all[t.parent.id] == t.parent)
    ensures Linked(all[t.id := t])
  {}

  class DefaultTicketRegistry {
    var cache: map<Id, TicketObject>

    constructor ()
      ensures cache == map[]
    {
      cache := map[];
    }

    method AddTicket(t: TicketObject)
      modifies this
      ensures cache == old(cache)[t.id := t]
    {
      cache := cache[t.id := t];
    }

    method GetTicket(id: Id) returns (t: TicketObject?)
      ensures t == if id in cache then cache[id] else null
    {
      t := if id in cache then cache[id] else null;
    }

    method DeleteTicket(id: Id) returns (found: bool)
      modifies this
      ensures cache == old(cache) - {id} && (found <==> id in old(cache))
    {
      found := id in cache;
      cache := cache - {id};
    }

    /** The tickets of one of the two classes, counted in a Java `int`. */
    method CountTickets(granting: bool) returns (count: int)
      ensures count == Int32(|set id | id in cache && cache[id].detail.Granting? == granting|)
    {
      count := 0;
      var todo := cache.Keys;
      ghost var counted: set<Id> := {};
      while todo != {}
        invariant todo <= cache.Keys
        invariant counted == set id | id in cache && id !in todo && cache[id].detail.Granting? == granting
        invariant count == Int32(|counted|)
        decreases todo
      {
        var id :| id in todo;
        if cache[id].detail.Granting? == granting {
          CountedOneMore(counted, id, count);
          count := Int32(count + 1);
          counted := counted + {id};
        }
        todo := todo - {id};
      }
      assert counted == set id | id in cache && cache[id].detail.Granting? == granting;
    }
  }

  lemma CountedOneMore(s: set<Id>, id: Id, count: int)
    requires id !in s && count == Int32(|s|)
    ensures Int32(count + 1) == Int32(|s + {id}|)
  {
    assert |s + {id}| == |s| + 1;
    Int32Next(|s|);
  }
}
