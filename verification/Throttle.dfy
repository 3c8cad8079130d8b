/** The login throttler: last failures per key, a submission rate, and a clean-up that drops slow keys. */
module Throttle {
  import opened Wrappers

  /** A Java `double` without rounding: `num` / `den` with a positive `den`. */
  datatype Double = NaN | Infinity | Finite(num: int, den: int)

  predicate Proper(d: Double) { d.Finite? ==> d.den > 0 }

  /** Java's `<`: false as soon as one side is not a number. */
  predicate Less(a: Double, b: Double) {
    match (a, b)
    case (Finite(p, q), Finite(r, s)) => p * s < r * q
    case (Finite(_, _), Infinity) => true
    case _ => false
  }

  /** `submissionRate`: submissions a second; division by zero is infinite. */
  function SubmissionRate(a: int, b: int): (r: Double)
    ensures Proper(r)
  {
    var d := a - b;
    if d == 0 then Infinity else if d > 0 then Finite(1000, d) else Finite(-1000, -d)
  }

  /** `afterPropertiesSet`: failures over seconds. */
  function ThresholdRate(failures: nat, seconds: nat): (r: Double)
    ensures Proper(r)
  {
    if seconds > 0 then Finite(failures, seconds) else if failures > 0 then Infinity else NaN
  }

  predicate Exceeds(rate: Double, now: int, last: int) { Less(rate, SubmissionRate(now, last)) }

  predicate Droppable(rate: Double, now: int, last: int) { Less(SubmissionRate(now, last), rate) }

  /** In milliseconds: a failure counts for less than 1000 * seconds / failures. */
  lemma ExceedsWindow(failures: nat, seconds: nat, now: int, last: int)
    requires failures > 0 && seconds > 0 && last <= now
    ensures Exceeds(ThresholdRate(failures, seconds), now, last) <==> (now - last) * failures < 1000 * seconds
  {
    assert failures * (now - last) == (now - last) * failures;
  }

  /** And an entry may be dropped as soon as it is older than that. */
  lemma DropWindow(failures: nat, seconds: nat, now: int, last: int)
    requires seconds > 0 && last < now
    ensures Droppable(ThresholdRate(failures, seconds), now, last) <==> (now - last) * failures > 1000 * seconds
  {
    assert failures * (now - last) == (now - last) * failures;
  }

  /** What may be dropped at one time no longer exceeds the threshold at any later time. */
  lemma DroppedIsSlow(failures: nat, seconds: nat, last: int, now: int, later: int)
    requires last <= now <= later && Droppable(ThresholdRate(failures, seconds), now, last)
    ensures !Exceeds(ThresholdRate(failures, seconds), later, last)
  {
    if seconds > 0 {
      assert 1000 * seconds < failures * (now - last);
      Scaled(failures, now - last, later - last);
    }
  }

  lemma Scaled(k: nat, a: int, b: int)
    requires a <= b
    ensures k * a <= k * b
  {}

  // ---------------------------------------------------------------- the handler's map

  datatype Op = Attempt(key: string) | Failure(key: string) | CleanUp

  datatype Timed = Timed(op: Op, now: int)

  function Kept(rate: Double, ipMap: map<string, int>, now: int): map<string, int> {
    map key | key in ipMap && !Droppable(rate, now, ipMap[key]) :: ipMap[key]
  }

  function Next(rate: Double, ipMap: map<string, int>, t: Timed): map<string, int> {
    match t.op
    case Attempt(_) => ipMap
    case Failure(key) => ipMap[key := t.now]
    case CleanUp => Kept(rate, ipMap, t.now)
  }

  predicate Refused(rate: Double, ipMap: map<string, int>, key: string, now: int) {
    key in ipMap && Exceeds(rate, now, ipMap[key])
  }

  /** Which attempts of the run are refused. */
  function Answers(rate: Double, ipMap: map<string, int>, ts: seq<Timed>): (r: seq<bool>)
    ensures |r| == |ts|
    decreases |ts|
  {
    if |ts| == 0 then []
    else [ts[0].op.Attempt? && Refused(rate, ipMap, ts[0].op.key, ts[0].now)]
         + Answers(rate, Next(rate, ipMap, ts[0]), ts[1..])
  }

  // ---------------------------------------------------------------- a plain history

  /** The time of the last failure of the key before the `n`th event. */
  function LastFailure(ts: seq<Timed>, n: nat, key: string): Option<int>
    requires n <= |ts|
  {
    if n == 0 then None
    else if ts[n - 1].op == Failure(key) then Some(ts[n - 1].now)
    else LastFailure(ts, n - 1, key)
  }

  predicate Throttled(rate: Double, ts: seq<Timed>, n: nat)
    requires n < |ts|
  {
    ts[n].op.Attempt?
    && match LastFailure(ts, n, ts[n].op.key)
       case None => false
       case Some(last) => Exceeds(rate, ts[n].now, last)
  }

  ghost predicate Monotone(ts: seq<Timed>) {
    forall i, j :: 0 <= i < j < |ts| ==> ts[i].now <= ts[j].now
  }

  /** The map holds last failures, and what it has lost may be dropped at or before `now`. */
  ghost predicate Faithful(rate: Double, ts: seq<Timed>, n: nat, ipMap: map<string, int>, now: int)
    requires n <= |ts|
  {
    forall key :: FaithfulAt(rate, LastFailure(ts, n, key), ipMap, key, now)
  }

  ghost predicate FaithfulAt(rate: Double, last: Option<int>, ipMap: map<string, int>, key: string, now: int) {
    match last
    case None => key !in ipMap
    case Some(l) =>
      l <= now && if key in ipMap then ipMap[key] == l else exists w :: l <= w <= now && Droppable(rate, w, l)
  }

  lemma FaithfulNext(rate: Double, ts: seq<Timed>, n: nat, ipMap: map<string, int>, now: int)
    requires n < |ts| && now <= ts[n].now && Faithful(rate, ts, n, ipMap, now)
    ensures Faithful(rate, ts, n + 1, Next(rate, ipMap, ts[n]), ts[n].now)
  {
    var next, m := Next(rate, ipMap, ts[n]), n + 1;
    forall key ensures FaithfulAt(rate, LastFailure(ts, m, key), next, key, ts[n].now) {
      assert FaithfulAt(rate, LastFailure(ts, n, key), ipMap, key, now);
    }
  }

  lemma FaithfulAnswer(failures: nat, seconds: nat, last: Option<int>, ipMap: map<string, int>, key: string, now: int,
                       later: int)
    requires now <= later && FaithfulAt(ThresholdRate(failures, seconds), last, ipMap, key, now)
    ensures Refused(ThresholdRate(failures, seconds), ipMap, key, later)
         <==> last.Some? && Exceeds(ThresholdRate(failures, seconds), later, last.value)
  {
    if last.Some? && key !in ipMap {
      var w :| last.value <= w <= now && Droppable(ThresholdRate(failures, seconds), w, last.value);
      DroppedIsSlow(failures, seconds, last.value, w, later);
    }
  }

  lemma {:induction false} AnswersFrom(failures: nat, seconds: nat, ts: seq<Timed>, n: nat, ipMap: map<string, int>,
                                       now: int)
    requires Monotone(ts) && n <= |ts| && Faithful(ThresholdRate(failures, seconds), ts, n, ipMap, now)
    requires n < |ts| ==> now <= ts[n].now
    ensures forall k :: n <= k < |ts| ==>
      Answers(ThresholdRate(failures, seconds), ipMap, ts[n..])[k - n]
      == Throttled(ThresholdRate(failures, seconds), ts, k)
    decreases |ts| - n
  {
    var rate := ThresholdRate(failures, seconds);
    if n < |ts| {
      var rest := ts[n..];
      assert rest[0] == ts[n] && rest[1..] == ts[n + 1..];
      FaithfulNext(rate, ts, n, ipMap, now);
      AnswersFrom(failures, seconds, ts, n + 1, Next(rate, ipMap, ts[n]), ts[n].now);
      if ts[n].op.Attempt? {
        assert FaithfulAt(rate, LastFailure(ts, n, ts[n].op.key), ipMap, ts[n].op.key, now);
        FaithfulAnswer(failures, seconds, LastFailure(ts, n, ts[n].op.key), ipMap, ts[n].op.key, now, ts[n].now);
      }
      assert Answers(rate, ipMap, rest)[0] == Throttled(rate, ts, n);
      forall k | n < k < |ts| ensures Answers(rate, ipMap, rest)[k - n] == Throttled(rate, ts, k) {
        assert Answers(rate, ipMap, rest)[k - n] == Answers(rate, Next(rate, ipMap, ts[n]), rest[1..])[k - n - 1];
      }
    }
  }

  /**
    With a clock that never goes back, wherever the clean-ups fall, an attempt is refused exactly when the last failure
    of its key is too recent: the answers are those of a plain history that forgets nothing.
   */
  lemma CleanUpUnobservable(failures: nat, seconds: nat, ts: seq<Timed>, k: nat)
    requires Monotone(ts) && k < |ts|
    ensures Answers(ThresholdRate(failures, seconds), map[], ts)[k]
         == Throttled(ThresholdRate(failures, seconds), ts, k)
  {
    assert ts[0..] == ts;
    AnswersFrom(failures, seconds, ts, 0, map[], ts[0].now);
  }

  /** The clock matters: dropped at `now` and refused at `query` both hold exactly when the window ends in between. */
  lemma ClockMatters(failures: nat, seconds: nat, last: int, now: int, query: int)
    requires failures > 0 && seconds > 0 && last <= now && last <= query
    ensures && Droppable(ThresholdRate(failures, seconds), now, last)
            && Exceeds(ThresholdRate(failures, seconds), query, last)
         <==> (query - last) * failures < 1000 * seconds < (now - last) * failures
  {
    ExceedsWindow(failures, seconds, query, last);
    assert failures * (now - last) == (now - last) * failures;
    if now == last {
      assert (now - last) * failures == 0;
    }
  }

  // ---------------------------------------------------------------- the object

  lemma {:induction false} LastFailureBefore(ts: seq<Timed>, t: Timed, n: nat, key: string)
    requires n <= |ts|
    ensures LastFailure(ts + [t], n, key) == LastFailure(ts, n, key)
  {
    if n > 0 {
      LastFailureBefore(ts, t, n - 1, key);
    }
  }

  /** The handler's map against everything that happened to it, up to `now`. */
  ghost predicate Recalled(rate: Double, history: seq<Timed>, ipMap: map<string, int>, now: int) {
    && Monotone(history) && (forall i :: 0 <= i < |history| ==> history[i].now <= now)
    && Faithful(rate, history, |history|, ipMap, now)
  }

  lemma RecalledNext(rate: Double, history: seq<Timed>, ipMap: map<string, int>, t: Timed)
    requires Recalled(rate, history, ipMap, t.now)
    ensures Recalled(rate, history + [t], Next(rate, ipMap, t), t.now)
  {
    var all, n := history + [t], |history|;
    forall key ensures FaithfulAt(rate, LastFailure(all, n, key), ipMap, key, t.now) {
      LastFailureBefore(history, t, n, key);
      assert FaithfulAt(rate, LastFailure(history, n, key), ipMap, key, t.now);
    }
    FaithfulNext(rate, all, n, ipMap, t.now);
  }

  lemma RecalledLater(rate: Double, history: seq<Timed>, ipMap: map<string, int>, now: int, later: int)
    requires Recalled(rate, history, ipMap, now) && now <= later
    ensures Recalled(rate, history, ipMap, later)
  {
    forall key ensures FaithfulAt(rate, LastFailure(history, |history|, key), ipMap, key, later) {
      assert FaithfulAt(rate, LastFailure(history, |history|, key), ipMap, key, now);
    }
  }

  class InMemoryThrottledSubmissionHandler {
    const failures: nat
    const seconds: nat
    const thresholdRate: Double
    var ipMap: map<string, int>
    /** The failures and clean-ups so far. */
    ghost var history: seq<Timed>

    ghost predicate Valid() { thresholdRate == ThresholdRate(failures, seconds) }

    /** The clock has not gone back up to `now`, and the map knows all of the history that still matters. */
    ghost predicate Recalls(now: int)
      reads this
    {
      Recalled(thresholdRate, history, ipMap, now)
    }

    constructor (failures: nat, seconds: nat)
      ensures Valid() && this.failures == failures && this.seconds == seconds
      ensures ipMap == map[] && history == [] && forall now :: Recalls(now)
    {
      this.failures, this.seconds := failures, seconds;
      thresholdRate, ipMap, history := ThresholdRate(failures, seconds), map[], [];
    }

    /**
      So long as the clock has not gone back, the answer is that of the whole history, whatever the clean-ups removed:
      the key has failed, and too recently.
     */
    method ExceedsThreshold(key: string, now: int) returns (b: bool)
      requires Valid()
      ensures b <==> Refused(thresholdRate, ipMap, key, now)
      ensures (exists t :: t <= now && Recalls(t)) ==>
        (b <==> match LastFailure(history, |history|, key)
                case None => false
                case Some(last) => Exceeds(thresholdRate, now, last))
    {
      ghost var last := LastFailure(history, |history|, key);
      if t :| t <= now && Recalls(t) {
        RecalledLater(thresholdRate, history, ipMap, t, now);
        assert FaithfulAt(thresholdRate, last, ipMap, key, now);
        FaithfulAnswer(failures, seconds, last, ipMap, key, now, now);
      }
      if key !in ipMap {
        return false;
      }
      return Less(thresholdRate, SubmissionRate(now, ipMap[key]));
    }

    method RecordSubmissionFailure(key: string, now: int)
      modifies this
      ensures ipMap == old(ipMap)[key := now] && history == old(history) + [Timed(Failure(key), now)]
      ensures (exists t :: t <= now && old(Recalls(t))) ==> Recalls(now)
    {
      ghost var failure := Timed(Failure(key), now);
      if t :| t <= now && Recalls(t) {
        RecalledLater(thresholdRate, history, ipMap, t, now);
        RecalledNext(thresholdRate, history, ipMap, failure);
      }
      ipMap, history := ipMap[key := now], history + [failure];
    }

    /** Removes entries through the iterator, one key after the other. */
    method DecrementCounts(now: int)
      modifies this
      ensures ipMap == Kept(thresholdRate, old(ipMap), now) && history == old(history) + [Timed(CleanUp, now)]
      ensures (exists t :: t <= now && old(Recalls(t))) ==> Recalls(now)
    {
      var keys := ipMap.Keys;
      while keys != {}
        invariant keys <= ipMap.Keys <= old(ipMap).Keys && history == old(history)
        invariant forall key :: key in ipMap ==> ipMap[key] == old(ipMap)[key]
        invariant forall key :: key in old(ipMap) && key !in keys ==>
          (key in ipMap <==> !Droppable(thresholdRate, now, old(ipMap)[key]))
        invariant forall key :: key in keys ==> key in ipMap
        decreases keys
      {
        var key :| key in keys;
        if Less(SubmissionRate(now, ipMap[key]), thresholdRate) {
          ipMap := ipMap - {key};
        }
        keys := keys - {key};
      }
      assert ipMap == Kept(thresholdRate, old(ipMap), now);
      ghost var cleanUp := Timed(CleanUp, now);
      if t :| t <= now && old(Recalls(t)) {
        RecalledLater(thresholdRate, old(history), old(ipMap), t, now);
        RecalledNext(thresholdRate, old(history), old(ipMap), cleanUp);
      }
      history := history + [cleanUp];
    }
  }
}
