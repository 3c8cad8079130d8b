/** `findServiceBy(Service)`: the first match in a tree set built from the values of the services map. */
module ServiceLookup {
  import opened JavaInt
  import opened ServiceStore

  // ---------------------------------------------------------------- the order of `compareTo`

  /** `String.compareTo`, by its sign. */
  function CompareStrings(a: string, b: string): int {
    if |a| == 0 && |b| == 0 then 0
    else if |a| == 0 then -1
    else if |b| == 0 then 1
    else if a[0] != b[0] then if a[0] < b[0] then -1 else 1
    else CompareStrings(a[1..], b[1..])
  }

  lemma {:induction false} StringsEqual(a: string, b: string)
    ensures CompareStrings(a, b) == 0 <==> a == b
  {
    if |a| > 0 && |b| > 0 && a[0] == b[0] {
      StringsEqual(a[1..], b[1..]);
      assert a == [a[0]] + a[1..] && b == [b[0]] + b[1..];
    }
  }

  lemma {:induction false} StringsOpposite(a: string, b: string)
    ensures CompareStrings(a, b) == -CompareStrings(b, a)
  {
    if |a| > 0 && |b| > 0 && a[0] == b[0] {
      StringsOpposite(a[1..], b[1..]);
    }
  }

  lemma {:induction false} StringsTransitive(a: string, b: string, c: string)
    requires CompareStrings(a, b) < 0 && CompareStrings(b, c) < 0
    ensures CompareStrings(a, c) < 0
  {
    if |a| > 0 && |b| > 0 && |c| > 0 && a[0] == b[0] && b[0] == c[0] {
      StringsTransitive(a[1..], b[1..], c[1..]);
    }
  }

  /** How the platform lower-cases. */
  type Lower = string -> string

  function Key(lower: Lower, e: Entry): (int, string) {
    (e.content.evaluationOrder, lower(e.content.name))
  }

  /** `compareTo`: the evaluation order, then the lower-case name. */
  function CompareKeys(a: (int, string), b: (int, string)): int {
    if a.0 < b.0 then -1 else if a.0 > b.0 then 1 else CompareStrings(a.1, b.1)
  }

  lemma KeyOrder(a: (int, string), b: (int, string), c: (int, string))
    ensures CompareKeys(a, b) == 0 <==> a == b
    ensures CompareKeys(a, b) == -CompareKeys(b, a)
    ensures CompareKeys(a, b) < 0 && CompareKeys(b, c) < 0 ==> CompareKeys(a, c) < 0
  {
    StringsEqual(a.1, b.1);
    StringsOpposite(a.1, b.1);
    if a.0 == b.0 && b.0 == c.0 && CompareKeys(a, b) < 0 && CompareKeys(b, c) < 0 {
      StringsTransitive(a.1, b.1, c.1);
    }
  }

  predicate Before(lower: Lower, a: Entry, b: Entry) { CompareKeys(Key(lower, a), Key(lower, b)) < 0 }

  // ---------------------------------------------------------------- the same in plain numbers and characters

  /** The texts agree up to `k`, where the first ends and the second goes on, or has the smaller character. */
  predicate DiffersAt(a: string, b: string, k: nat) {
    && k <= |a| && k < |b| && (forall i :: 0 <= i < k ==> a[i] == b[i])
    && (k == |a| || a[k] < b[k])
  }

  ghost predicate NameAhead(a: string, b: string) { exists k: nat :: DiffersAt(a, b, k) }

  /** The evaluation order is lower; or it is the same, and the lower-case name is ahead. */
  ghost predicate Ahead(lower: Lower, a: Entry, b: Entry) {
    || a.content.evaluationOrder < b.content.evaluationOrder
    || (&& a.content.evaluationOrder == b.content.evaluationOrder
        && NameAhead(lower(a.content.name), lower(b.content.name)))
  }

  lemma {:induction false} StringsAhead(a: string, b: string)
    ensures CompareStrings(a, b) < 0 <==> NameAhead(a, b)
  {
    if |a| == 0 && |b| > 0 {
      assert DiffersAt(a, b, 0);
    } else if |a| > 0 && |b| > 0 {
      if a[0] != b[0] {
        assert a[0] < b[0] ==> DiffersAt(a, b, 0);
      } else {
        StringsAhead(a[1..], b[1..]);
        if k: nat :| DiffersAt(a[1..], b[1..], k) {
          forall i | 0 <= i < k + 1 ensures a[i] == b[i] {
            assert i > 0 ==> a[1..][i - 1] == b[1..][i - 1];
          }
          assert DiffersAt(a, b, k + 1);
        }
        if k: nat :| DiffersAt(a, b, k) {
          assert DiffersAt(a[1..], b[1..], k - 1);
        }
      }
    }
  }

  lemma BeforeIsAhead(lower: Lower, a: Entry, b: Entry)
    ensures Before(lower, a, b) <==> Ahead(lower, a, b)
  {
    StringsAhead(lower(a.content.name), lower(b.content.name));
  }

  // ---------------------------------------------------------------- the tree set

  ghost predicate Ascending(lower: Lower, ts: seq<Entry>) {
    forall i, j :: 0 <= i < j < |ts| ==> Before(lower, ts[i], ts[j])
  }

  /** `TreeSet.add`: an element whose key is there already is not added. */
  function Insert(lower: Lower, ts: seq<Entry>, e: Entry): seq<Entry> {
    if |ts| == 0 then [e]
    else
      var c := CompareKeys(Key(lower, e), Key(lower, ts[0]));
      if c < 0 then [e] + ts else if c == 0 then ts else [ts[0]] + Insert(lower, ts[1..], e)
  }

  function TreeSet(lower: Lower, order: seq<Entry>): seq<Entry> {
    if |order| == 0 then [] else Insert(lower, TreeSet(lower, order[..|order| - 1]), order[|order| - 1])
  }

  ghost predicate HasKey(lower: Lower, ts: seq<Entry>, k: (int, string)) {
    exists i :: 0 <= i < |ts| && Key(lower, ts[i]) == k
  }

  lemma {:induction false} InsertKeeps(lower: Lower, ts: seq<Entry>, e: Entry)
    requires Ascending(lower, ts)
    ensures var t := Insert(lower, ts, e);
            && (forall x :: x in t <==> x in ts || (x == e && !HasKey(lower, ts, Key(lower, e))))
            && Ascending(lower, t)
  {
    if |ts| > 0 {
      var k, k0 := Key(lower, e), Key(lower, ts[0]);
      KeyOrder(k, k0, k);
      KeyOrder(k0, k, k0);
      forall j | 0 < j < |ts| ensures CompareKeys(k, k0) < 0 ==> Before(lower, e, ts[j]) && Key(lower, ts[j]) != k {
        assert Before(lower, ts[0], ts[j]);
        KeyOrder(k, k0, Key(lower, ts[j]));
        KeyOrder(k, k, k);
      }
      if CompareKeys(k, k0) > 0 {
        var rest := ts[1..];
        InsertKeeps(lower, rest, e);
        var t := Insert(lower, rest, e);
        assert HasKey(lower, ts, k) <==> HasKey(lower, rest, k) by {
          if HasKey(lower, ts, k) {
            var i :| 0 <= i < |ts| && Key(lower, ts[i]) == k;
            assert rest[i - 1] == ts[i];
          }
          if HasKey(lower, rest, k) {
            var i :| 0 <= i < |rest| && Key(lower, rest[i]) == k;
            assert ts[i + 1] == rest[i];
          }
        }
        forall j | 0 <= j < |t| ensures Before(lower, ts[0], t[j]) {
          assert t[j] in t;
          if t[j] in rest {
            var i :| 0 <= i < |rest| && rest[i] == t[j];
            assert Before(lower, ts[0], ts[i + 1]);
          }
        }
      }
    }
  }

  /** The set keeps, of the entries with one key, the one that comes first. */
  ghost predicate Kept(lower: Lower, order: seq<Entry>, e: Entry) {
    exists i :: FirstAt(lower, order, e, i)
  }

  ghost predicate FirstAt(lower: Lower, order: seq<Entry>, e: Entry, i: int) {
    0 <= i < |order| && order[i] == e && forall j :: 0 <= j < i ==> Key(lower, order[j]) != Key(lower, e)
  }

  lemma {:induction false} TreeSetKeeps(lower: Lower, order: seq<Entry>)
    ensures Ascending(lower, TreeSet(lower, order))
    ensures forall e :: e in TreeSet(lower, order) <==> Kept(lower, order, e)
  {
    if |order| > 0 {
      var init, last := order[..|order| - 1], order[|order| - 1];
      TreeSetKeeps(lower, init);
      InsertKeeps(lower, TreeSet(lower, init), last);
      KeysKept(lower, init, Key(lower, last));
      forall e ensures e in TreeSet(lower, order) <==> Kept(lower, order, e) {
        KeptLast(lower, init, last, e);
        assert order == init + [last];
      }
    }
  }

  /** Every key of the order is in the set. */
  lemma KeysKept(lower: Lower, order: seq<Entry>, k: (int, string))
    requires forall e :: e in TreeSet(lower, order) <==> Kept(lower, order, e)
    ensures HasKey(lower, TreeSet(lower, order), k) <==> HasKey(lower, order, k)
  {
    var ts := TreeSet(lower, order);
    if HasKey(lower, ts, k) {
      var i :| 0 <= i < |ts| && Key(lower, ts[i]) == k;
      assert ts[i] in ts;
    }
    if HasKey(lower, order, k) {
      var i := FirstWithKey(lower, order, k);
      assert FirstAt(lower, order, order[i], i) && Kept(lower, order, order[i]);
      var j :| 0 <= j < |ts| && ts[j] == order[i];
    }
  }

  lemma {:induction false} FirstWithKey(lower: Lower, order: seq<Entry>, k: (int, string)) returns (i: nat)
    requires HasKey(lower, order, k)
    ensures i < |order| && Key(lower, order[i]) == k && forall j :: 0 <= j < i ==> Key(lower, order[j]) != k
  {
    if Key(lower, order[0]) == k {
      i := 0;
    } else {
      var m :| 0 <= m < |order| && Key(lower, order[m]) == k;
      assert order[1..][m - 1] == order[m];
      var n := FirstWithKey(lower, order[1..], k);
      i := n + 1;
    }
  }

  lemma KeptLast(lower: Lower, init: seq<Entry>, last: Entry, e: Entry)
    ensures Kept(lower, init + [last], e)
         <==> Kept(lower, init, e) || (e == last && !HasKey(lower, init, Key(lower, last)))
  {
    var order := init + [last];
    forall i | 0 <= i < |init| ensures FirstAt(lower, order, e, i) == FirstAt(lower, init, e, i) {
      forall j | 0 <= j <= i ensures order[j] == init[j] {}
    }
    if e == last {
      forall j | 0 <= j < |init| ensures order[j] == init[j] {}
      assert FirstAt(lower, order, e, |init|) <==> !HasKey(lower, init, Key(lower, last));
    }
  }

  // ---------------------------------------------------------------- the lookup

  datatype Found = Default | Missing | Is(entry: Entry)

  /** The first element that matches. */
  function FirstMatch(ts: seq<Entry>, matches: Entry -> bool): Found {
    if |ts| == 0 then Missing else if matches(ts[0]) then Is(ts[0]) else FirstMatch(ts[1..], matches)
  }

  /** `order` is how the map enumerates its values. */
  function FindServiceBy(lower: Lower, order: seq<Entry>, matches: Entry -> bool): Found {
    var ts := TreeSet(lower, order);
    if |ts| == 0 then Default else FirstMatch(ts, matches)
  }

  lemma {:induction false} FirstMatchAt(ts: seq<Entry>, matches: Entry -> bool)
    ensures match FirstMatch(ts, matches)
            case Is(e) =>
              exists i :: 0 <= i < |ts| && ts[i] == e && matches(e) && forall j :: 0 <= j < i ==> !matches(ts[j])
            case Missing => forall j :: 0 <= j < |ts| ==> !matches(ts[j])
            case Default => false
  {
    if |ts| > 0 && !matches(ts[0]) {
      FirstMatchAt(ts[1..], matches);
      match FirstMatch(ts[1..], matches)
      case Is(e) =>
        var i :| 0 <= i < |ts| - 1 && ts[1..][i] == e && forall j :: 0 <= j < i ==> !matches(ts[1..][j]);
        assert ts[i + 1] == e;
        forall j | 0 <= j < i + 1 ensures !matches(ts[j]) {
          if j > 0 { assert ts[1..][j - 1] == ts[j]; }
        }
      case Missing =>
        forall j | 0 <= j < |ts| ensures !matches(ts[j]) {
          if j > 0 { assert ts[1..][j - 1] == ts[j]; }
        }
      case Default =>
    }
  }

  /** A kept match that comes before every other kept match is the answer. */
  lemma AnswerIs(lower: Lower, order: seq<Entry>, matches: Entry -> bool, e: Entry)
    requires Kept(lower, order, e) && matches(e)
    requires forall x :: Kept(lower, order, x) && matches(x) ==> x == e || Before(lower, e, x)
    ensures FindServiceBy(lower, order, matches) == Is(e)
  {
    TreeSetKeeps(lower, order);
    var ts := TreeSet(lower, order);
    FirstMatchAt(ts, matches);
    assert e in ts;
    var k :| 0 <= k < |ts| && ts[k] == e;
    var f := FirstMatch(ts, matches);
    if f.Is? {
      var i :| 0 <= i < |ts| && ts[i] == f.entry && matches(f.entry) && forall j :: 0 <= j < i ==> !matches(ts[j]);
      assert ts[i] in ts;
      if i < k {
        assert Before(lower, ts[i], ts[k]);
        KeyOrder(Key(lower, ts[i]), Key(lower, ts[k]), Key(lower, ts[i]));
      }
    }
  }

  lemma NoAnswer(lower: Lower, order: seq<Entry>, matches: Entry -> bool)
    requires forall x :: x in order ==> !matches(x)
    ensures FindServiceBy(lower, order, matches) == if |order| == 0 then Default else Missing
  {
    TreeSetKeeps(lower, order);
    var ts := TreeSet(lower, order);
    FirstMatchAt(ts, matches);
    forall j | 0 <= j < |ts| ensures !matches(ts[j]) {
      assert ts[j] in ts;
    }
    if |order| > 0 {
      assert Key(lower, order[0]) == Key(lower, order[0]);
      assert HasKey(lower, order, Key(lower, order[0]));
      KeysKept(lower, order, Key(lower, order[0]));
    }
  }

  ghost predicate DistinctKeys(lower: Lower, order: seq<Entry>) {
    forall a, b :: a in order && b in order && Key(lower, a) == Key(lower, b) ==> a == b
  }

  lemma KeptIfDistinct(lower: Lower, order: seq<Entry>, e: Entry)
    requires DistinctKeys(lower, order)
    ensures Kept(lower, order, e) <==> e in order
  {
    if e in order {
      var k :| 0 <= k < |order| && order[k] == e;
      assert HasKey(lower, order, Key(lower, e));
      var i := FirstWithKey(lower, order, Key(lower, e));
      assert order[i] in order;
      assert FirstAt(lower, order, e, i);
    }
  }

  /**
    With distinct keys the lookup gives the matching service that is ahead of all others, whatever the order of the
    map: none exactly when none matches, and the default service exactly when there are no services.
   */
  lemma LeastMatch(lower: Lower, order: seq<Entry>, matches: Entry -> bool)
    requires DistinctKeys(lower, order)
    ensures match FindServiceBy(lower, order, matches)
            case Default => order == []
            case Missing => order != [] && forall e :: e in order ==> !matches(e)
            case Is(e) =>
              e in order && matches(e) && forall x :: x in order && matches(x) ==> x == e || Ahead(lower, e, x)
  {
    if e :| e in order && matches(e) {
      TreeSetKeeps(lower, order);
      var ts := TreeSet(lower, order);
      FirstMatchAt(ts, matches);
      forall x | x in order ensures x in ts {
        KeptIfDistinct(lower, order, x);
      }
      var k :| 0 <= k < |ts| && ts[k] == e;
      assert FirstMatch(ts, matches).Is?;
      LeastOfSet(lower, order, matches, ts);
    } else {
      NoAnswer(lower, order, matches);
    }
  }

  lemma LeastOfSet(lower: Lower, order: seq<Entry>, matches: Entry -> bool, ts: seq<Entry>)
    requires Ascending(lower, ts) && FirstMatch(ts, matches).Is?
    requires (forall e :: e in ts ==> Kept(lower, order, e)) && forall x :: x in order ==> x in ts
    ensures var e := FirstMatch(ts, matches).entry;
            e in order && matches(e) && forall x :: x in order && matches(x) ==> x == e || Ahead(lower, e, x)
  {
    FirstMatchAt(ts, matches);
    var e := FirstMatch(ts, matches).entry;
    var i :| 0 <= i < |ts| && ts[i] == e && matches(e) && forall j :: 0 <= j < i ==> !matches(ts[j]);
    assert ts[i] in ts;
    forall x | x in order && matches(x) ensures x == e || Ahead(lower, e, x) {
      var k :| 0 <= k < |ts| && ts[k] == x;
      BeforeIsAhead(lower, e, x);
    }
  }

  // ---------------------------------------------------------------- keys that are not distinct

  ghost predicate SameElements(o1: seq<Entry>, o2: seq<Entry>) {
    forall e :: e in o1 <==> e in o2
  }

  /** No service matches, or the least matching one is alone with its key. */
  ghost predicate Decided(lower: Lower, order: seq<Entry>, matches: Entry -> bool) {
    || (forall x :: x in order ==> !matches(x))
    || exists e :: Decides(lower, order, matches, e)
  }

  ghost predicate Decides(lower: Lower, order: seq<Entry>, matches: Entry -> bool, e: Entry) {
    && e in order && matches(e)
    && (forall x :: x in order && Key(lower, x) == Key(lower, e) ==> x == e)
    && (forall x :: x in order && matches(x) ==> x == e || Before(lower, e, x))
  }

  lemma DecidedAnswer(lower: Lower, order: seq<Entry>, matches: Entry -> bool, e: Entry)
    requires Decides(lower, order, matches, e)
    ensures FindServiceBy(lower, order, matches) == Is(e)
  {
    var k :| 0 <= k < |order| && order[k] == e;
    assert HasKey(lower, order, Key(lower, e));
    var i := FirstWithKey(lower, order, Key(lower, e));
    assert order[i] in order;
    assert FirstAt(lower, order, e, i) && Kept(lower, order, e);
    forall x | Kept(lower, order, x) && matches(x) ensures x == e || Before(lower, e, x) {
      assert x in order;
    }
    AnswerIs(lower, order, matches, e);
  }

  /** Such lookups do not depend on the order of the map. */
  lemma DecidedIndependent(lower: Lower, o1: seq<Entry>, o2: seq<Entry>, matches: Entry -> bool)
    requires SameElements(o1, o2) && Decided(lower, o1, matches)
    ensures FindServiceBy(lower, o1, matches) == FindServiceBy(lower, o2, matches)
  {
    if forall x :: x in o1 ==> !matches(x) {
      NoAnswer(lower, o1, matches);
      NoAnswer(lower, o2, matches);
      assert |o1| > 0 ==> o1[0] in o2;
      assert |o2| > 0 ==> o2[0] in o1;
    } else {
      var e :| Decides(lower, o1, matches, e);
      DecidedAnswer(lower, o1, matches, e);
      assert Decides(lower, o2, matches, e);
      DecidedAnswer(lower, o2, matches, e);
    }
  }

  ghost predicate NoDuplicates(s: seq<Entry>) {
    forall i, j :: 0 <= i < j < |s| ==> s[i] != s[j]
  }

  lemma {:induction false} LeastMatching(lower: Lower, order: seq<Entry>, matches: Entry -> bool) returns (e: Entry)
    requires exists x :: x in order && matches(x)
    ensures e in order && matches(e) && forall x :: x in order && matches(x) ==> !Before(lower, x, e)
  {
    var init, last := order[..|order| - 1], order[|order| - 1];
    assert order == init + [last];
    KeyOrder(Key(lower, last), Key(lower, last), Key(lower, last));
    if x :| x in init && matches(x) {
      e := LeastMatching(lower, init, matches);
      if matches(last) && Before(lower, last, e) {
        forall x | x in init && matches(x) ensures !Before(lower, x, last) {
          KeyOrder(Key(lower, x), Key(lower, last), Key(lower, e));
        }
        e := last;
      }
    } else {
      e := last;
    }
  }

  /** The enumeration that starts with `e`. */
  lemma Fronted(order: seq<Entry>, e: Entry) returns (o: seq<Entry>)
    requires NoDuplicates(order) && e in order
    ensures NoDuplicates(o) && SameElements(order, o) && |o| > 0 && o[0] == e
  {
    var i :| 0 <= i < |order| && order[i] == e;
    var rest := order[..i] + order[i + 1..];
    assert forall k :: 0 <= k < |rest| ==> rest[k] == order[if k < i then k else k + 1];
    o := [e] + rest;
    forall x ensures x in order <==> x in o {
      if x in order && x != e {
        var k :| 0 <= k < |order| && order[k] == x;
        assert rest[if k < i then k else k - 1] == x;
      }
    }
  }

  /** Which of two entries with one key comes first decides. */
  lemma FirstDecides(lower: Lower, o: seq<Entry>, matches: Entry -> bool, e: Entry)
    requires |o| > 0 && e in o && matches(e) && forall x :: x in o && matches(x) ==> !Before(lower, x, e)
    requires Key(lower, o[0]) == Key(lower, e)
    ensures FindServiceBy(lower, o, matches) == Is(e) <==> o[0] == e
  {
    if o[0] == e {
      assert FirstAt(lower, o, e, 0);
      forall x | Kept(lower, o, x) && matches(x) ensures x == e || Before(lower, e, x) {
        var i :| FirstAt(lower, o, x, i);
        KeyOrder(Key(lower, x), Key(lower, e), Key(lower, x));
        assert o[i] in o;
      }
      AnswerIs(lower, o, matches, e);
    } else {
      TreeSetKeeps(lower, o);
      var ts := TreeSet(lower, o);
      FirstMatchAt(ts, matches);
      assert FindServiceBy(lower, o, matches) == Is(e) ==> e in ts;
      assert e in ts ==> Kept(lower, o, e);
    }
  }

  /** The lookup depends on the order in which the map gives its values unless no service matches or one decides. */
  lemma LookupOrderFree(lower: Lower, order: seq<Entry>, matches: Entry -> bool)
    requires NoDuplicates(order)
    ensures (forall o :: NoDuplicates(o) && SameElements(order, o) ==>
               FindServiceBy(lower, o, matches) == FindServiceBy(lower, order, matches))
         <==> Decided(lower, order, matches)
  {
    if Decided(lower, order, matches) {
      forall o | NoDuplicates(o) && SameElements(order, o)
        ensures FindServiceBy(lower, o, matches) == FindServiceBy(lower, order, matches) {
        DecidedIndependent(lower, order, o, matches);
      }
    } else {
      var e := LeastMatching(lower, order, matches);
      var x := Rival(lower, order, matches, e);
      var o1 := Fronted(order, e);
      var o2 := Fronted(order, x);
      FirstDecides(lower, o1, matches, e);
      FirstDecides(lower, o2, matches, e);
    }
  }

  lemma Rival(lower: Lower, order: seq<Entry>, matches: Entry -> bool, e: Entry) returns (x: Entry)
    requires !Decided(lower, order, matches) && e in order && matches(e)
    requires forall x :: x in order && matches(x) ==> !Before(lower, x, e)
    ensures x in order && x != e && Key(lower, x) == Key(lower, e)
  {
    assert !Decides(lower, order, matches, e);
    if y :| y in order && Key(lower, y) == Key(lower, e) && y != e {
      x := y;
    } else {
      x :| x in order && matches(x) && x != e && !Before(lower, e, x);
      KeyOrder(Key(lower, x), Key(lower, e), Key(lower, x));
    }
  }

  // ---------------------------------------------------------------- the loops

  ghost predicate KeysApart(lower: Lower, values: set<Entry>) {
    forall a, b :: a in values && b in values && Key(lower, a) == Key(lower, b) ==> a == b
  }

  /** `convertToTreeSet`: the map gives its values in some order; the set has one of them for each key, ascending. */
  method ConvertToTreeSet(services: map<JLong, Entry>, lower: Lower) returns (ts: seq<Entry>, ghost order: seq<Entry>)
    ensures (forall e :: e in order <==> e in services.Values) && NoDuplicates(order)
    ensures ts == TreeSet(lower, order)
    ensures Ascending(lower, ts) && forall e :: e in ts ==> e in services.Values
    ensures forall e :: e in services.Values ==> HasKey(lower, ts, Key(lower, e))
  {
    ts, order := [], [];
    var todo := services.Values;
    while todo != {}
      invariant forall e :: e in order || e in todo <==> e in services.Values
      invariant forall e :: e in order ==> e !in todo
      invariant NoDuplicates(order) && ts == TreeSet(lower, order)
      decreases todo
    {
      var e :| e in todo;
      assert (order + [e])[..|order|] == order;
      ts := Insert(lower, ts, e);
      order, todo := order + [e], todo - {e};
    }
    TreeSetKeeps(lower, order);
    forall e | e in services.Values ensures HasKey(lower, ts, Key(lower, e)) {
      assert e in order;
      var i :| 0 <= i < |order| && order[i] == e;
      assert HasKey(lower, order, Key(lower, e));
      KeysKept(lower, order, Key(lower, e));
    }
  }

  lemma Answers(services: map<JLong, Entry>, lower: Lower, matches: Entry -> bool, c: seq<Entry>, order: seq<Entry>)
    requires forall e :: e in order <==> e in services.Values
    requires c == TreeSet(lower, order) && (forall e :: e in c ==> e in services.Values)
    requires forall e :: e in services.Values ==> HasKey(lower, c, Key(lower, e))
    ensures var f := FindServiceBy(lower, order, matches);
            && (f.Default? <==> services.Values == {})
            && (f.Is? ==> f.entry in services.Values && matches(f.entry))
            && (KeysApart(lower, services.Values) ==>
                  match f
                  case Default => services.Values == {}
                  case Missing => forall e :: e in services.Values ==> !matches(e)
                  case Is(e) => forall x :: x in services.Values && matches(x) ==> x == e || Ahead(lower, e, x))
  {
    FirstMatchAt(c, matches);
    if KeysApart(lower, services.Values) {
      LeastMatch(lower, order, matches);
    }
    if |c| > 0 {
      assert c[0] in c;
    }
  }

  /** The loop of `findServiceBy`. */
  method FindFirst(c: seq<Entry>, matches: Entry -> bool) returns (f: Found)
    ensures f == FirstMatch(c, matches)
  {
    for i := 0 to |c|
      invariant FirstMatch(c, matches) == FirstMatch(c[i..], matches)
    {
      if matches(c[i]) {
        return Is(c[i]);
      }
      assert c[i..][1..] == c[i + 1..];
    }
    return Missing;
  }

  /** `findServiceBy(Service)`; with distinct keys the answer is the match ahead of all others, whatever the order. */
  method FindService(services: map<JLong, Entry>, lower: Lower, matches: Entry -> bool)
    returns (f: Found, ghost order: seq<Entry>)
    ensures (forall e :: e in order <==> e in services.Values) && NoDuplicates(order)
    ensures f == FindServiceBy(lower, order, matches)
    ensures f.Default? <==> services.Values == {}
    ensures f.Is? ==> f.entry in services.Values && matches(f.entry)
    ensures KeysApart(lower, services.Values) ==>
      match f
      case Default => services.Values == {}
      case Missing => forall e :: e in services.Values ==> !matches(e)
      case Is(e) => forall x :: x in services.Values && matches(x) ==> x == e || Ahead(lower, e, x)
  {
    var c;
    c, order := ConvertToTreeSet(services, lower);
    Answers(services, lower, matches, c, order);
    if |c| == 0 {
      return Default, order;
    }
    f := FindFirst(c, matches);
  }
}
