/**
  Any number of threads at work on one service ticket of the in-memory registry, in any interleaving of their atomic
  steps: a registry access, a synchronized block, or an unsynchronized look at the ticket.
 */
module BoundedUse {
  import opened Policies

  /** How a call to `validateServiceTicket` ends. */
  datatype Answer = Missing | Expired | Mismatch | Asserted

  /** Where a thread stands: `V` stages validate, `D` stages delegate. */
  datatype Thread =
    | VLookup | VCheck | VFinally(answer: Answer) | VRemove(answer: Answer) | VDone(answer: Answer)
    | DLookup | DCheck | DService | DMint | DMinted | DRefused

  /** What the threads share: the registry's entry, the ticket's use record and its delegation flag. */
  datatype Shared = Shared(registered: bool, use: Use, delegated: bool)

  datatype System = System(shared: Shared, threads: seq<Thread>)

  /** The next step of one thread, with the time it reads and what the rest of the program answers it. */
  datatype Event = Event(thread: nat, now: int, parentExpired: bool, matches: bool, allowed: bool)

  /** The threads that got past the expiry test, that issued a proxy-granting ticket, that have yet to clean up. */
  datatype Class = Passed | Minted | Cleaning

  predicate In(c: Class, t: Thread) {
    match c
    case Passed => (t.VFinally? || t.VRemove? || t.VDone?) && (t.answer.Asserted? || t.answer.Mismatch?)
    case Minted => t.DMinted?
    case Cleaning => t.VFinally? || t.VRemove?
  }

  predicate Looks(p: Policy, y: Shared, e: Event) {
    PolicyExpired(p, y.use, e.now) || e.parentExpired
  }

  /** The next step of a thread at `t`. */
  function Next(p: Policy, y: Shared, t: Thread, e: Event): (Shared, Thread) {
    match t
    case VLookup => (y, if y.registered then VCheck else VDone(Missing))
    // `synchronized (serviceTicket)`: the expiry test and `isValidFor`
    case VCheck =>
      if Looks(p, y, e) then (y, VFinally(Expired))
      else (y.(use := Touch(y.use, e.now)), VFinally(if e.matches then Asserted else Mismatch))
    case VFinally(a) => (y, if Looks(p, y, e) then VRemove(a) else VDone(a))
    case VRemove(a) => (y.(registered := false), VDone(a))
    case DLookup => (y, if y.registered then DCheck else DRefused)
    case DCheck => (y, if Looks(p, y, e) then DRefused else DService)
    case DService => (y, if e.allowed then DMint else DRefused)
    // `synchronized (this)` of `grantTicketGrantingTicket`
    case DMint => if y.delegated then (y, DRefused) else (y.(delegated := true), DMinted)
    case _ => (y, t)
  }

  function Act(p: Policy, y: System, e: Event): System
    requires e.thread < |y.threads|
  {
    var (shared, t) := Next(p, y.shared, y.threads[e.thread], e);
    System(shared, y.threads[e.thread := t])
  }

  predicate Schedulable(es: seq<Event>, n: nat) {
    forall k :: 0 <= k < |es| ==> es[k].thread < n
  }

  ghost function Run(p: Policy, y: System, es: seq<Event>): (z: System)
    requires Schedulable(es, |y.threads|)
    ensures |z.threads| == |y.threads|
  {
    if |es| == 0 then y else Act(p, Run(p, y, es[..|es| - 1]), es[|es| - 1])
  }

  function Count(ts: seq<Thread>, c: Class): (n: nat)
    ensures n <= |ts|
  {
    if |ts| == 0 then 0 else (if In(c, ts[0]) then 1 else 0) + Count(ts[1..], c)
  }

  lemma {:induction false} CountMoved(ts: seq<Thread>, i: nat, t: Thread, c: Class)
    requires i < |ts|
    ensures In(c, ts[i]) ==> Count(ts, c) > 0
    ensures Count(ts[i := t], c) == Count(ts, c) - (if In(c, ts[i]) then 1 else 0) + (if In(c, t) then 1 else 0)
  {
    if i == 0 {
      assert ts[i := t][1..] == ts[1..];
    } else {
      assert ts[i := t][1..] == ts[1..][i - 1 := t];
      CountMoved(ts[1..], i - 1, t, c);
    }
  }

  lemma {:induction false} CountNone(ts: seq<Thread>, c: Class)
    requires forall k :: 0 <= k < |ts| ==> !In(c, ts[k])
    ensures Count(ts, c) == 0
  {
    if |ts| > 0 {
      CountNone(ts[1..], c);
    }
  }

  /** A new ticket, and threads that have not begun. */
  predicate Initial(y: System) {
    && y.shared.registered && y.shared.use.count == 0 && !y.shared.delegated
    && forall k :: 0 <= k < |y.threads| ==> y.threads[k].VLookup? || y.threads[k].DLookup?
  }

  predicate NUse(p: Policy) {
    p.MultiTimeUse? && p.uses <= 0x7fff_ffff
  }

  /**
    Each use was counted, none beyond the limit; one proxy-granting ticket was minted if and only if the flag is set;
    and a used-up ticket is still registered only while a thread that has passed has yet to clean up.
   */
  predicate Inv(p: Policy, y: System)
    requires NUse(p)
  {
    && Count(y.threads, Passed) == y.shared.use.count
    && (y.shared.use.count > 0 ==> y.shared.use.count <= p.uses)
    && Count(y.threads, Minted) == (if y.shared.delegated then 1 else 0)
    && (y.shared.registered && y.shared.use.count > 0 && y.shared.use.count >= p.uses ==>
          Count(y.threads, Cleaning) > 0)
  }

  function Gain(c: Class, t: Thread, u: Thread): int {
    (if In(c, u) then 1 else 0) - (if In(c, t) then 1 else 0)
  }

  /** What a step from `t` to `u` does to the shared fields, by the classes the thread enters and leaves. */
  predicate Effect(p: Policy, y: Shared, t: Thread, z: Shared, u: Thread, now: int)
    requires NUse(p)
  {
    && (if Gain(Passed, t, u) == 1 then y.use.count < p.uses && z.use == Touch(y.use, now) && u.VFinally?
        else Gain(Passed, t, u) == 0 && z.use == y.use)
    && (if Gain(Minted, t, u) == 1 then !y.delegated && z.delegated
        else Gain(Minted, t, u) == 0 && z.delegated == y.delegated)
    && (z.registered ==> y.registered)
    && (Gain(Cleaning, t, u) < 0 && z.registered ==> z.use.count < p.uses)
  }

  lemma NextEffect(p: Policy, y: Shared, t: Thread, e: Event)
    requires NUse(p)
    ensures var (z, u) := Next(p, y, t, e); Effect(p, y, t, z, u, e.now)
  {}

  lemma ActInv(p: Policy, y: System, e: Event)
    requires NUse(p) && e.thread < |y.threads| && Inv(p, y)
    ensures Inv(p, Act(p, y, e))
  {
    var t := y.threads[e.thread];
    var (z, u) := Next(p, y.shared, t, e);
    NextEffect(p, y.shared, t, e);
    InvStep(p, y, z, e.thread, u, e.now);
  }

  lemma InvStep(p: Policy, y: System, z: Shared, i: nat, u: Thread, now: int)
    requires NUse(p) && Inv(p, y) && i < |y.threads| && Effect(p, y.shared, y.threads[i], z, u, now)
    ensures Inv(p, System(z, y.threads[i := u]))
  {
    CountMoved(y.threads, i, u, Passed);
    CountMoved(y.threads, i, u, Minted);
    CountMoved(y.threads, i, u, Cleaning);
    assert u.VFinally? ==> In(Cleaning, u);
  }

  lemma {:induction false} RunInv(p: Policy, y: System, es: seq<Event>)
    requires NUse(p) && Initial(y) && Schedulable(es, |y.threads|)
    ensures Inv(p, Run(p, y, es))
  {
    if |es| == 0 {
      CountNone(y.threads, Passed);
      CountNone(y.threads, Minted);
    } else {
      RunInv(p, y, es[..|es| - 1]);
      ActInv(p, Run(p, y, es[..|es| - 1]), es[|es| - 1]);
    }
  }

  /**
    However the threads interleave, the threads that get past the expiry test are as many as the recorded uses, whether
    their service matched or not, and no more than the policy allows.
   */
  lemma AtMostNPass(p: Policy, y: System, es: seq<Event>)
    requires NUse(p) && Initial(y) && Schedulable(es, |y.threads|)
    ensures Count(Run(p, y, es).threads, Passed) == Run(p, y, es).shared.use.count
    ensures Count(Run(p, y, es).threads, Passed) <= if p.uses > 0 then p.uses else 0
  {
    RunInv(p, y, es);
  }

  /** At most one proxy-granting ticket comes of a service ticket: exactly one once the flag is set. */
  lemma OneProxyGrantingTicket(p: Policy, y: System, es: seq<Event>)
    requires NUse(p) && Initial(y) && Schedulable(es, |y.threads|)
    ensures Count(Run(p, y, es).threads, Minted) == if Run(p, y, es).shared.delegated then 1 else 0
  {
    RunInv(p, y, es);
  }

  /** When no validation is under way any more, a ticket whose uses are spent has left the registry. */
  lemma SpentTicketRetired(p: Policy, y: System, es: seq<Event>)
    requires NUse(p) && Initial(y) && Schedulable(es, |y.threads|)
    requires forall k :: 0 <= k < |y.threads| ==> !In(Cleaning, Run(p, y, es).threads[k])
    requires 0 < Count(Run(p, y, es).threads, Passed) && p.uses <= Count(Run(p, y, es).threads, Passed)
    ensures !Run(p, y, es).shared.registered
  {
    RunInv(p, y, es);
    CountNone(Run(p, y, es).threads, Cleaning);
  }

  lemma {:induction false} CountTwo(ts: seq<Thread>, c: Class, i: nat, j: nat)
    requires i < j < |ts| && In(c, ts[i]) && In(c, ts[j])
    ensures Count(ts, c) >= 2
  {
    if i == 0 {
      CountMoved(ts[1..], j - 1, ts[j], c);
    } else {
      CountTwo(ts[1..], c, i - 1, j - 1);
    }
  }

  /**
    With a single-use policy one thread passes at most; if its service was the wrong one, no thread ever gets an
    assertion.
   */
  lemma SingleUse(p: Policy, y: System, es: seq<Event>, i: nat, j: nat)
    requires NUse(p) && p.uses == 1 && Initial(y) && Schedulable(es, |y.threads|) && i < |y.threads| && j < |y.threads|
    requires In(Passed, Run(p, y, es).threads[i]) && In(Passed, Run(p, y, es).threads[j])
    ensures i == j
  {
    RunInv(p, y, es);
    if i < j {
      CountTwo(Run(p, y, es).threads, Passed, i, j);
    } else if j < i {
      CountTwo(Run(p, y, es).threads, Passed, j, i);
    }
  }

  /** Thread `i` runs to its end undisturbed and its service matches; it may have no fourth step to make. */
  function Alone(i: nat, now: int): (es: seq<Event>) {
    var e := Event(i, now, false, true, true);
    [e, e, e, e]
  }

  lemma RunFour(p: Policy, y: System, e: Event)
    requires e.thread < |y.threads|
    ensures Run(p, y, [e, e, e, e]) == Act(p, Act(p, Act(p, Act(p, y, e), e), e), e)
  {
    var es := [e, e, e, e];
    assert es[..3] == [e, e, e] && [e, e, e][..2] == [e, e] && [e, e][..1] == [e] && [e][..0] == [];
    assert Run(p, y, []) == y;
    assert Run(p, y, [e]) == Act(p, y, e);
    assert Run(p, y, [e, e]) == Act(p, Act(p, y, e), e);
    assert Run(p, y, [e, e, e]) == Act(p, Act(p, Act(p, y, e), e), e);
  }

  lemma AlonePasses(p: Policy, y: System, i: nat)
    requires NUse(p) && p.ttk > 0 && i < |y.threads| && y.threads[i].VLookup? && y.shared.registered
    requires 0 <= y.shared.use.count < p.uses
    ensures var z := Run(p, y, Alone(i, y.shared.use.last));
            && z.shared.use.count == y.shared.use.count + 1 && z.shared.use.last == y.shared.use.last
            && (z.shared.use.count < p.uses ==> z.shared.registered)
            && z.threads == y.threads[i := VDone(Asserted)]
  {
    var e := Event(i, y.shared.use.last, false, true, true);
    var a := Act(p, y, e);
    var b := Act(p, a, e);
    var c := Act(p, b, e);
    RunFour(p, y, e);
    assert a == y.(threads := y.threads[i := VCheck]);
    assert b.threads == y.threads[i := VFinally(Asserted)];
    if b.shared.use.count < p.uses {
      assert c.threads == y.threads[i := VDone(Asserted)];
    } else {
      assert c.threads == y.threads[i := VRemove(Asserted)];
    }
    assert Act(p, c, e).threads == y.threads[i := VDone(Asserted)];
  }

  lemma {:induction false} RunAppend(p: Policy, y: System, es: seq<Event>, fs: seq<Event>)
    requires Schedulable(es, |y.threads|) && Schedulable(fs, |y.threads|)
    ensures Schedulable(es + fs, |y.threads|) && Run(p, y, es + fs) == Run(p, Run(p, y, es), fs)
    decreases |fs|
  {
    if |fs| == 0 {
      assert es + fs == es;
    } else {
      RunAppend(p, y, es, fs[..|fs| - 1]);
      assert (es + fs)[..|es + fs| - 1] == es + fs[..|fs| - 1];
    }
  }

  /** Threads 0 to `n` - 1, one after the other. */
  function InTurn(n: nat, now: int): seq<Event> {
    if n == 0 then [] else InTurn(n - 1, now) + Alone(n - 1, now)
  }

  /** The first `n` threads have passed and are done, the others have not begun. */
  ghost predicate Turned(p: Policy, now: int, z: System, n: nat)
    requires NUse(p)
  {
    && z.shared.use.count == n && z.shared.use.last == now && (n < p.uses ==> z.shared.registered)
    && (forall k :: 0 <= k < n && k < |z.threads| ==> z.threads[k] == VDone(Asserted))
    && (forall k :: n <= k < |z.threads| ==> z.threads[k].VLookup?)
  }

  lemma OneTurn(p: Policy, now: int, z: System, n: nat)
    requires NUse(p) && p.ttk > 0 && n < p.uses && n < |z.threads| && Turned(p, now, z, n)
    ensures Schedulable(Alone(n, now), |z.threads|) && Turned(p, now, Run(p, z, Alone(n, now)), n + 1)
  {
    AlonePasses(p, z, n);
  }

  /** The bound is met: as many threads as the policy allows pass when they come in turn and in time. */
  lemma {:induction false} NPassInTurn(p: Policy, y: System, n: nat)
    requires NUse(p) && p.ttk > 0 && Initial(y) && n <= p.uses && n <= |y.threads|
    requires forall k :: 0 <= k < |y.threads| ==> y.threads[k].VLookup?
    ensures Schedulable(InTurn(n, y.shared.use.last), |y.threads|)
    ensures Turned(p, y.shared.use.last, Run(p, y, InTurn(n, y.shared.use.last)), n)
  {
    if n > 0 {
      var now := y.shared.use.last;
      NPassInTurn(p, y, n - 1);
      OneTurn(p, now, Run(p, y, InTurn(n - 1, now)), n - 1);
      RunAppend(p, y, InTurn(n - 1, now), Alone(n - 1, now));
    }
  }
}
