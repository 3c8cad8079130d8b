/** Use records of tickets and the expiration policies that read them. Times are in milliseconds. */
module Policies {
  import opened JavaInt
  import opened Wrappers

  /** What `TicketState` exposes: creation time, last and previous use, and the number of uses, a Java `int`. */
  datatype Use = Use(created: int, last: int, previous: int, count: int)

  function NewUse(now: int): Use { Use(now, now, 0, 0) }

  /** `AbstractTicket.updateState`. */
  function Touch(u: Use, now: int): Use { Use(u.created, now, u.last, Int32(u.count + 1)) }

  datatype Policy =
    | NeverExpires
    | HardTimeout(ttk: int)
    | Timeout(ttk: int)
    | MultiTimeUse(uses: int, ttk: int)
    | GrantingTicketPolicy(maxLive: int, ttk: int)
    | Throttled(ttk: int, between: int)

  /** `isExpired` of the policy classes, branch for branch. */
  predicate PolicyExpired(p: Policy, u: Use, now: int) {
    match p
    case NeverExpires => false
    case HardTimeout(ttk) => now - u.created >= ttk
    case Timeout(ttk) => now - u.last >= ttk
    case MultiTimeUse(uses, ttk) => u.count >= uses || now - u.last >= ttk
    case GrantingTicketPolicy(maxLive, ttk) => now - u.created >= maxLive || now - u.last >= ttk
    case Throttled(ttk, between) =>
      if u.count == 0 && now - u.last < ttk then false
      else if now - u.last >= ttk then true
      else now - u.last <= between
  }

  /** A throttled ticket whose waiting period ends before its time to kill does. */
  predicate CanRevive(p: Policy) { p.Throttled? && 0 <= p.between && p.between + 1 < p.ttk }

  /** Expired, and more than a waiting period that ends in time. */
  predicate Finished(p: Policy, u: Use, now: int) {
    PolicyExpired(p, u, now) && (CanRevive(p) ==> now - u.last >= p.ttk)
  }

  /** From its last use on, a ticket not used any more stays expired exactly if it is finished. */
  lemma FinishedExactly(p: Policy, u: Use, now: int)
    requires u.last <= now
    ensures Finished(p, u, now) <==> forall later :: now <= later ==> PolicyExpired(p, u, later)
  {
    if PolicyExpired(p, u, now) && !Finished(p, u, now) {
      assert !PolicyExpired(p, u, u.last + p.between + 1);
    }
  }

  /** The first instant from now on at which the policy may let the ticket live. */
  function Opens(p: Policy, u: Use, now: int): int {
    if p.Throttled? && u.count != 0 && now <= u.last + p.between then u.last + p.between + 1 else now
  }

  /** The instant at which it ends, if ever. */
  function Closes(p: Policy, u: Use): Option<int> {
    match p
    case NeverExpires => None
    case HardTimeout(ttk) => Some(u.created + ttk)
    case MultiTimeUse(uses, ttk) => Some(if u.count >= uses then u.last else u.last + ttk)
    case GrantingTicketPolicy(maxLive, ttk) => Earlier(Some(u.created + maxLive), Some(u.last + ttk))
    case _ => Some(u.last + p.ttk)
  }

  function Earlier(a: Option<int>, b: Option<int>): Option<int> {
    if a.None? || (b.Some? && b.value < a.value) then b else a
  }

  predicate Before(now: int, end: Option<int>) { end.Some? ==> now < end.value }

  /** The live instants of a ticket that is not used any more have no gaps. */
  lemma LiveWindow(p: Policy, u: Use, now: int, later: int)
    requires u.last <= now <= later
    ensures !PolicyExpired(p, u, later) <==> Opens(p, u, now) <= later && Before(later, Closes(p, u))
  {}

  /** The policy brings a ticket back to life at some time exactly if it can revive tickets and this one was used. */
  lemma ThrottledRevives(p: Policy, u: Use)
    ensures (exists now, later :: u.last <= now <= later && PolicyExpired(p, u, now) && !PolicyExpired(p, u, later))
         <==> CanRevive(p) && u.count != 0
  {
    if CanRevive(p) && u.count != 0 {
      var now, later := u.last + p.between, u.last + p.between + 1;
      assert u.last <= now <= later && PolicyExpired(p, u, now) && !PolicyExpired(p, u, later);
    }
  }

  /** A ticket that is never live: new tickets of this policy are born expired. */
  predicate BornExpired(p: Policy) { PolicyExpired(p, NewUse(0), 0) }

  /** So long as it is not used, such a ticket stays expired. */
  lemma StaysExpired(p: Policy, created: int, now: int)
    requires created <= now
    ensures BornExpired(p) <==> PolicyExpired(p, NewUse(created), created)
    ensures BornExpired(p) ==> PolicyExpired(p, NewUse(created), now)
  {}
}
