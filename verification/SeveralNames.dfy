/** Removal of several named parameters: which URLs keep their meaning, and that the order of the list matters. */
module SeveralNames {
  import opened Wrappers
  import opened JavaStrings
  import opened UrlParameters

  // ---------------------------------------------------------------- which segments go when

  /** The text before the first equals sign. */
  function NameIn(s: string): Option<string> {
    var i := IndexOf(s, "=");
    if i < 0 then None else Some(s[..i])
  }

  predicate Named(s: string, names: set<string>) { NameIn(s).Some? && NameIn(s).value in names }

  /** Different names, none with an equals sign, as those the code uses are. */
  predicate Listed(params: seq<string>) {
    && AllNames(params) && (forall i :: 0 <= i < |params| ==> '=' !in params[i])
    && forall i, j :: 0 <= i < j < |params| ==> params[i] != params[j]
  }

  function Names(params: seq<string>): set<string> { set p | p in params }

  function Noted(seen: multiset<string>, s: string, names: set<string>): multiset<string> {
    if Named(s, names) then seen + multiset{NameIn(s).value} else seen
  }

  function Max(a: nat, b: nat): nat { if a < b then b else a }

  /** How many calls find something: as many as there are segments of the name that occurs most often. */
  function Rounds(segs: seq<string>, names: set<string>, seen: multiset<string>): nat {
    if |segs| == 0 then 0
    else
      var rest := Rounds(segs[1..], names, Noted(seen, segs[0], names));
      if Named(segs[0], names) then Max(seen[NameIn(segs[0]).value] + 1, rest) else rest
  }

  predicate Goes(s: string, names: set<string>) { s == "" || Named(s, names) }

  predicate AllGo(segs: seq<string>, names: set<string>) {
    |segs| > 0 ==> Goes(segs[0], names) && AllGo(segs[1..], names)
  }

  /**
    After how many calls such segments at the end are gone: each call removes the first segment of each name and then
    trims one empty segment, unless it removed the last one.
   */
  function Clear(segs: seq<string>, names: set<string>, seen: multiset<string>): nat {
    if |segs| == 0 then 0
    else
      var rest := Clear(segs[1..], names, Noted(seen, segs[0], names));
      if Named(segs[0], names) then Max(seen[NameIn(segs[0]).value] + 1, rest) else rest + 1
  }

  /** After how many calls the question mark at the end of the last segment to stay is exposed; -1 if it has none. */
  function Spare(segs: seq<string>, names: set<string>, seen: multiset<string>): int {
    if |segs| == 0 then -1
    else
      var next := Noted(seen, segs[0], names);
      if !AllGo(segs[1..], names) then Spare(segs[1..], names, next)
      else if Goes(segs[0], names) || Last(segs[0]) != "?" then -1
      else Clear(segs[1..], names, next)
  }

  /** No call comes to trim that question mark. */
  predicate Untrimmed(segs: seq<string>, names: set<string>) {
    Spare(segs, names, multiset{}) < 0 || Rounds(segs, names, multiset{}) <= Spare(segs, names, multiset{})
  }

  // ---------------------------------------------------------------- one pass

  /** The first segment of each name goes; if the last segment does, an empty one is left. */
  function Drop(segs: seq<string>, todo: set<string>): (r: seq<string>)
    requires |segs| > 0
    ensures |r| > 0
  {
    if Named(segs[0], todo) then if |segs| == 1 then [""] else Drop(segs[1..], todo - {NameIn(segs[0]).value})
    else if |segs| == 1 then segs
    else [segs[0]] + Drop(segs[1..], todo)
  }

  lemma NameMatches(s: string, p: string)
    requires '=' !in p
    ensures p + "=" <= s <==> NameIn(s) == Some(p)
  {
    FirstFree(s, '=');
    if p + "=" <= s {
      var t := s[|p|..];
      assert s == p + t && t[0] == '=' && t[..1] == "=";
      Skip(p, t, "=");
    }
    if NameIn(s) == Some(p) {
      IndexOfHit(s, "=");
      assert s[|p|..][0] == '=';
    }
  }

  lemma {:induction false} DropOne(segs: seq<string>, p: string, todo: set<string>)
    requires |segs| > 0 && p in todo && '=' !in p
    ensures Drop(segs, todo) == Drop(WithoutFirst(segs, p + "="), todo - {p})
  {
    NameMatches(segs[0], p);
    if NameIn(segs[0]) == Some(p) {
      assert NameIn("") == None;
    } else if |segs| > 1 {
      var next := if Named(segs[0], todo) then todo - {NameIn(segs[0]).value} else todo;
      DropOne(segs[1..], p, next);
      var r := WithoutFirst(segs[1..], p + "=");
      assert ([segs[0]] + r)[1..] == r;
      assert next - {p} == if Named(segs[0], todo) then todo - {p} - {NameIn(segs[0]).value} else todo - {p};
    }
  }

  lemma {:induction false} DropNone(segs: seq<string>)
    requires |segs| > 0
    ensures Drop(segs, {}) == segs
  {
    if |segs| > 1 {
      DropNone(segs[1..]);
    }
  }

  lemma {:induction false} PassDrops(base: string, segs: seq<string>, todo: seq<string>, params: seq<string>)
    requires Free(base) && |segs| > 0 && Segmented(segs) && Whole(segs, params) && Listed(todo)
    requires forall p :: p in todo ==> p in params
    ensures var r := Drop(segs, Names(todo));
            Segmented(r) && Whole(r, params) && Pass(Url(base, segs), todo).0 == Url(base, r)
    decreases |todo|
  {
    if |todo| == 0 {
      assert Names(todo) == {};
      DropNone(segs);
    } else {
      var p := todo[0];
      assert p in todo;
      var next := WithoutFirst(segs, p + "=");
      RemoveOneOnSegments(base, segs, p);
      WithoutFirstSegmented(segs, p + "=");
      forall q | q in params ensures !HasInner(next, q + "=") {
        WithoutFirstWhole(segs, p + "=", q + "=");
      }
      PassDrops(base, next, todo[1..], params);
      DropOne(segs, p, Names(todo));
      assert Names(todo[1..]) == Names(todo) - {p};
    }
  }

  // ---------------------------------------------------------------- one call

  /** The names that have not occurred, each of which a pass will find next. */
  function Open(names: set<string>, seen: multiset<string>): set<string> { set n | n in names && n !in seen }

  /** What a call leaves of segments that follow others, in which the names `seen` have occurred. */
  function After(segs: seq<string>, names: set<string>, seen: multiset<string>): seq<string>
    requires |segs| > 0
  {
    TrimSegments(Drop(segs, Open(names, seen)))
  }

  /** Of each name, one occurrence less. */
  function Less(names: set<string>, seen: multiset<string>): multiset<string> { seen - multiset(names) }

  lemma ChopName(s: string)
    ensures NameIn(Chop(s)) == NameIn(s)
  {
    if Last(s) == "?" {
      var front := s[..|s| - 1];
      assert s[|s| - 1] == '?' && s == front + "?";
      if '=' in front {
        Around(front);
      } else {
        NoHit(front, "=");
        Skip(front, "?", "=");
      }
    }
  }

  lemma Around(front: string)
    requires '=' in front
    ensures NameIn(front + "?") == NameIn(front)
  {
    EarlyHit(front, "?", "=");
    var i := IndexOf(front, "=");
    assert (front + "?")[..i] == front[..i];
  }

  /**
    What a call makes of several segments is `a`, if it makes `b` of those behind the first: the first goes, and so much
    less has occurred, or it stays.
   */
  ghost predicate Steps(segs: seq<string>, a: seq<string>, b: seq<string>, names: set<string>, seen: multiset<string>)
    requires |segs| > 0
  {
    var s, less := segs[0], Less(names, seen);
    var next := Noted(seen, s, names);
    if Named(s, names) && NameIn(s).value !in seen then a == b && Less(names, next) == less
    else
      && |a| > 0 && a[0] == s && a[1..] == b && Less(names, next) == Noted(less, s, names)
      && (Named(s, names) ==> seen[NameIn(s).value] == less[NameIn(s).value] + 1)
  }

  lemma AfterCons(segs: seq<string>, names: set<string>, seen: multiset<string>)
    requires |segs| > 1 && forall n :: n in seen ==> n in names
    ensures var next := Noted(seen, segs[0], names);
            && (forall n :: n in next ==> n in names)
            && Steps(segs, After(segs, names, seen), After(segs[1..], names, next), names, seen)
  {
    var s := segs[0];
    var next := Noted(seen, s, names);
    if Named(s, names) {
      var n := NameIn(s).value;
      if n in seen {
        assert Open(names, next) == Open(names, seen);
        assert Less(names, next) == Less(names, seen) + multiset{n};
      } else {
        assert Open(names, next) == Open(names, seen) - {n};
        assert Less(names, next) == Less(names, seen);
      }
    }
    var r := Drop(segs[1..], Open(names, next));
    assert ([s] + r)[1..] == r;
    assert ([s] + TrimSegments(r))[1..] == TrimSegments(r);
  }

  lemma AfterOne(s: string, names: set<string>, seen: multiset<string>)
    ensures After([s], names, seen)
         == if s == "" || (Named(s, names) && NameIn(s).value !in seen) then [] else [Chop(s)]
    ensures Named(s, names) && NameIn(s).value in seen ==>
              seen[NameIn(s).value] == Less(names, seen)[NameIn(s).value] + 1
    ensures NameIn(Chop(s)) == NameIn(s)
  {
    ChopName(s);
    var d := Drop([s], Open(names, seen));
    assert Named(s, Open(names, seen)) <==> Named(s, names) && NameIn(s).value !in seen;
    assert d == if Named(s, Open(names, seen)) then [""] else [s];
    assert TrimSegments([""]) == [];
  }

  lemma RoundsStep(segs: seq<string>, a: seq<string>, b: seq<string>, names: set<string>, seen: multiset<string>)
    requires |segs| > 0 && Steps(segs, a, b, names, seen)
    requires var next := Noted(seen, segs[0], names);
             Rounds(b, names, Less(names, next)) == Fewer(Rounds(segs[1..], names, next))
    ensures Rounds(a, names, Less(names, seen)) == Fewer(Rounds(segs, names, seen))
  {}

  function Fewer(n: nat): nat { if n > 0 then n - 1 else 0 }

  lemma {:induction false} NextRounds(segs: seq<string>, names: set<string>, seen: multiset<string>)
    requires |segs| > 0 && forall n :: n in seen ==> n in names
    ensures Rounds(After(segs, names, seen), names, Less(names, seen)) == Fewer(Rounds(segs, names, seen))
  {
    if |segs| == 1 {
      RoundsOne(segs[0], names, seen);
      assert segs == [segs[0]];
    } else {
      var next := Noted(seen, segs[0], names);
      AfterCons(segs, names, seen);
      NextRounds(segs[1..], names, next);
      RoundsStep(segs, After(segs, names, seen), After(segs[1..], names, next), names, seen);
    }
  }

  lemma RoundsOne(s: string, names: set<string>, seen: multiset<string>)
    ensures Rounds(After([s], names, seen), names, Less(names, seen)) == Fewer(Rounds([s], names, seen))
  {
    AfterOne(s, names, seen);
    RoundsOf(s, names, seen);
    RoundsOf(Chop(s), names, Less(names, seen));
  }

  lemma RoundsOf(s: string, names: set<string>, seen: multiset<string>)
    ensures Rounds([s], names, seen) == if Named(s, names) then seen[NameIn(s).value] + 1 else 0
  {
    assert [s][1..] == [];
  }

  lemma ClearStep(segs: seq<string>, a: seq<string>, b: seq<string>, names: set<string>, seen: multiset<string>)
    requires |segs| > 0 && Steps(segs, a, b, names, seen) && AllGo(segs, names) && AllGo(b, names)
    requires var next := Noted(seen, segs[0], names);
             && Clear(segs[1..], names, next) > 0
             && Clear(b, names, Less(names, next)) == Clear(segs[1..], names, next) - 1
    ensures AllGo(a, names) && Clear(segs, names, seen) > 0
    ensures Clear(a, names, Less(names, seen)) == Clear(segs, names, seen) - 1
  {}

  lemma {:induction false} NextClear(segs: seq<string>, names: set<string>, seen: multiset<string>)
    requires |segs| > 0 && AllGo(segs, names) && forall n :: n in seen ==> n in names
    ensures AllGo(After(segs, names, seen), names) && Clear(segs, names, seen) > 0
    ensures Clear(After(segs, names, seen), names, Less(names, seen)) == Clear(segs, names, seen) - 1
  {
    if |segs| == 1 {
      ClearOne(segs[0], names, seen);
      assert segs == [segs[0]];
    } else {
      var next := Noted(seen, segs[0], names);
      AfterCons(segs, names, seen);
      NextClear(segs[1..], names, next);
      ClearStep(segs, After(segs, names, seen), After(segs[1..], names, next), names, seen);
    }
  }

  lemma ClearOne(s: string, names: set<string>, seen: multiset<string>)
    requires Goes(s, names)
    ensures AllGo(After([s], names, seen), names) && Clear([s], names, seen) > 0
    ensures Clear(After([s], names, seen), names, Less(names, seen)) == Clear([s], names, seen) - 1
  {
    AfterOne(s, names, seen);
    assert [s][1..] == [] && [Chop(s)][1..] == [];
  }

  lemma {:induction false} AllGoKept(segs: seq<string>, params: seq<string>)
    requires Listed(params)
    ensures AllGo(segs, Names(params)) <==> Kept(segs, params) == []
  {
    if |segs| > 0 {
      NamedUnwanted(segs[0], params);
      AllGoKept(segs[1..], params);
    }
  }

  lemma NamedUnwanted(s: string, params: seq<string>)
    requires Listed(params)
    ensures Named(s, Names(params)) <==> Unwanted(s, params)
  {
    forall p | p in params ensures p + "=" <= s <==> NameIn(s) == Some(p) {
      NameMatches(s, p);
    }
  }

  lemma {:induction false} NoSpare(segs: seq<string>, names: set<string>, seen: multiset<string>)
    requires AllGo(segs, names)
    ensures Spare(segs, names, seen) == -1
  {}

  lemma KeptCons(s: string, rest: seq<string>, params: seq<string>)
    ensures Kept([s] + rest, params) == (if s == "" || Unwanted(s, params) then [] else [s]) + Kept(rest, params)
    ensures Total(Kept([s] + rest, params))
         == (if s == "" || Unwanted(s, params) then 0 else |s|) + Total(Kept(rest, params))
  {
    assert ([s] + rest)[1..] == rest && ([s] + Kept(rest, params))[1..] == Kept(rest, params);
  }

  /** What a call does to the segments to stay. */
  ghost predicate Trimmed(segs: seq<string>, t: seq<string>, params: seq<string>, seen: multiset<string>) {
    var names := Names(params);
    var spare := Spare(segs, names, seen);
    if spare == 0 then Total(Kept(t, params)) < Total(Kept(segs, params))
    else
      && Kept(t, params) == Kept(segs, params)
      && Spare(t, names, Less(names, seen)) == if spare > 0 then spare - 1 else -1
  }

  lemma {:induction false} NextSpare(segs: seq<string>, params: seq<string>, seen: multiset<string>)
    requires |segs| > 0 && Listed(params) && forall n :: n in seen ==> n in Names(params)
    ensures Trimmed(segs, After(segs, Names(params), seen), params, seen)
  {
    var names := Names(params);
    if AllGo(segs, names) {
      NextClear(segs, names, seen);
      NoneStay(segs, After(segs, names, seen), params, seen);
    } else if |segs| == 1 {
      assert segs == [segs[0]] && AllGo(segs[1..], names);
      LastOne(segs[0], params, seen);
    } else {
      var next := Noted(seen, segs[0], names);
      AfterCons(segs, names, seen);
      var a, b := After(segs, names, seen), After(segs[1..], names, next);
      if AllGo(segs[1..], names) {
        NextClear(segs[1..], names, next);
        SpareHere(segs, a, b, params, seen);
      } else {
        NextSpare(segs[1..], params, next);
        SpareBehind(segs, a, b, params, seen);
      }
    }
  }

  lemma NoneStay(segs: seq<string>, t: seq<string>, params: seq<string>, seen: multiset<string>)
    requires Listed(params) && AllGo(segs, Names(params)) && AllGo(t, Names(params))
    ensures Trimmed(segs, t, params, seen)
  {
    AllGoKept(segs, params);
    AllGoKept(t, params);
    NoSpare(segs, Names(params), seen);
    NoSpare(t, Names(params), Less(Names(params), seen));
  }

  /** The first segment is the last to stay. */
  lemma SpareHere(segs: seq<string>, a: seq<string>, b: seq<string>, params: seq<string>, seen: multiset<string>)
    requires |segs| > 1 && Listed(params) && Steps(segs, a, b, Names(params), seen)
    requires var names := Names(params);
             var next := Noted(seen, segs[0], names);
             && AllGo(segs[1..], names) && !Goes(segs[0], names)
             && AllGo(b, names) && Clear(segs[1..], names, next) > 0
             && Clear(b, names, Less(names, next)) == Clear(segs[1..], names, next) - 1
    ensures Trimmed(segs, a, params, seen)
  {
    NamedUnwanted(segs[0], params);
    AllGoKept(segs[1..], params);
    AllGoKept(b, params);
    KeptStep(segs, a, b, params);
  }

  lemma KeptStep(segs: seq<string>, a: seq<string>, b: seq<string>, params: seq<string>)
    requires |segs| > 0 && ((a == b && Unwanted(segs[0], params)) || (|a| > 0 && a[0] == segs[0] && a[1..] == b))
    ensures var own := if segs[0] == "" || Unwanted(segs[0], params) then [] else [segs[0]];
            && Kept(segs, params) == own + Kept(segs[1..], params) && Kept(a, params) == own + Kept(b, params)
            && Total(Kept(segs, params)) == Total(own) + Total(Kept(segs[1..], params))
            && Total(Kept(a, params)) == Total(own) + Total(Kept(b, params))
  {
    KeptCons(segs[0], segs[1..], params);
    KeptCons(segs[0], b, params);
    assert segs == [segs[0]] + segs[1..];
    if |a| > 0 && a[0] == segs[0] && a[1..] == b {
      assert a == [segs[0]] + b;
    }
  }

  /** Some segment behind it stays. */
  lemma SpareBehind(segs: seq<string>, a: seq<string>, b: seq<string>, params: seq<string>, seen: multiset<string>)
    requires |segs| > 1 && Listed(params) && Steps(segs, a, b, Names(params), seen)
    requires !AllGo(segs[1..], Names(params)) && Trimmed(segs[1..], b, params, Noted(seen, segs[0], Names(params)))
    ensures Trimmed(segs, a, params, seen)
  {
    NamedUnwanted(segs[0], params);
    AllGoKept(segs[1..], params);
    AllGoKept(b, params);
    KeptStep(segs, a, b, params);
  }

  lemma LastOne(s: string, params: seq<string>, seen: multiset<string>)
    requires Listed(params) && !Goes(s, Names(params)) && forall n :: n in seen ==> n in Names(params)
    ensures Trimmed([s], After([s], Names(params), seen), params, seen)
  {
    var names := Names(params);
    AfterOne(s, names, seen);
    NamedUnwanted(s, params);
    NamedUnwanted(Chop(s), params);
    KeptCons(s, [], params);
    KeptCons(Chop(s), [], params);
    assert [s] + [] == [s] && [Chop(s)] + [] == [Chop(s)];
    assert [s][1..] == [] && [Chop(s)][1..] == [];
  }

  // ---------------------------------------------------------------- all calls

  lemma {:induction false} RoundsHit(segs: seq<string>, params: seq<string>, seen: multiset<string>)
    requires Listed(params)
    ensures Rounds(segs, Names(params), seen) > 0 <==> exists p :: p in params && Hit(segs, p + "=")
  {
    if |segs| > 0 {
      forall p | p in params ensures p + "=" <= segs[0] <==> NameIn(segs[0]) == Some(p) {
        NameMatches(segs[0], p);
      }
      RoundsHit(segs[1..], params, Noted(seen, segs[0], Names(params)));
      if p :| p in params && Hit(segs, p + "=") {
        assert p + "=" <= segs[0] || Hit(segs[1..], p + "=");
      }
      if p :| p in params && p + "=" <= segs[0] {
        assert Hit(segs, p + "=");
      }
      if p :| p in params && Hit(segs[1..], p + "=") {
        assert Hit(segs, p + "=");
      }
    }
  }

  lemma FoundRounds(base: string, segs: seq<string>, params: seq<string>)
    requires Free(base) && |segs| > 0 && Segmented(segs) && Listed(params) && Whole(segs, params)
    ensures Pass(Url(base, segs), params).1 <==> Rounds(segs, Names(params), multiset{}) > 0
  {
    var url := Url(base, segs);
    RoundsHit(segs, params, multiset{});
    forall p | p in params ensures Start(url, p) > -1 <==> Hit(segs, p + "=") {
      RemoveOneOnSegments(base, segs, p);
    }
    if Pass(url, params).1 {
      if forall p :: p in params ==> Start(url, p) == -1 {
        PassIdle(url, params);
      }
    } else {
      PassFinds(url, params);
    }
  }

  lemma {:induction false} CleanedList(base: string, segs: seq<string>, params: seq<string>) returns (r: seq<string>)
    requires Free(base) && |segs| > 0 && Segmented(segs) && Listed(params) && Whole(segs, params)
    ensures Segmented(r) && Cleaned(Url(base, segs), params) == if |r| == 0 then base else Url(base, r)
    ensures if Untrimmed(segs, Names(params)) then NonEmpty(r) == Kept(segs, params)
            else Total(NonEmpty(r)) < Total(Kept(segs, params))
    decreases |Url(base, segs)|
  {
    FoundRounds(base, segs, params);
    if Pass(Url(base, segs), params).1 {
      r := NextCall(base, segs, params);
      if |r| > 0 {
        r := CleanedList(base, r, params);
      }
    } else {
      CleanedIdle(base, segs, params);
      NoneUnwanted(segs, params);
      r := segs;
    }
  }

  lemma NextCall(base: string, segs: seq<string>, params: seq<string>) returns (t: seq<string>)
    requires Free(base) && |segs| > 0 && Segmented(segs) && Listed(params) && Whole(segs, params)
    requires Pass(Url(base, segs), params).1 && Rounds(segs, Names(params), multiset{}) > 0
    ensures Segmented(t) && Whole(t, params) && (|t| > 0 ==> |Url(base, t)| < |Url(base, segs)|)
    ensures Cleaned(Url(base, segs), params) == if |t| == 0 then base else Cleaned(Url(base, t), params)
    ensures if Total(Kept(t, params)) < Total(Kept(segs, params)) then !Untrimmed(segs, Names(params))
            else
              && Kept(t, params) == Kept(segs, params)
              && Untrimmed(t, Names(params)) == Untrimmed(segs, Names(params))
  {
    var names := Names(params);
    PassDrops(base, segs, params, params);
    var r := Drop(segs, names);
    t := TrimSegments(r);
    CleanedNext(base, segs, r, params);
    forall p | p in params ensures !HasInner(t, p + "=") {
      TrimWhole(r, p + "=");
    }
    NextMeaning(segs, t, params);
  }

  lemma NextMeaning(segs: seq<string>, t: seq<string>, params: seq<string>)
    requires |segs| > 0 && Listed(params) && t == TrimSegments(Drop(segs, Names(params)))
    requires Rounds(segs, Names(params), multiset{}) > 0
    ensures if Total(Kept(t, params)) < Total(Kept(segs, params)) then !Untrimmed(segs, Names(params))
            else
              && Kept(t, params) == Kept(segs, params)
              && Untrimmed(t, Names(params)) == Untrimmed(segs, Names(params))
  {
    var names := Names(params);
    assert Open(names, multiset{}) == names && Less(names, multiset{}) == multiset{};
    NextRounds(segs, names, multiset{});
    NextSpare(segs, params, multiset{});
  }

  /**
    For any list of different names without equals signs, and a URL with no ampersand before the query in which no
    listed name follows a question mark inside a segment, meaning is kept exactly if the calls that find something are
    not more than those it takes to expose a question mark at the end of the last segment to stay.
   */
  lemma SeveralNamesExactly(url: string, params: seq<string>)
    requires '&' !in Base(url) && Listed(params) && Whole(Query(url), params)
    ensures Segments(Cleaned(url, params)) == Wanted(Segments(url), params) <==> Untrimmed(Query(url), Names(params))
  {
    var base, segs := Base(url), Query(url);
    WantedNonEmpty(segs, params);
    if IndexOf(url, "?") >= 0 {
      AtQuestion(url, base, segs);
      var r := CleanedList(base, segs, params);
      ReadBase(base);
      if |r| > 0 {
        ReadUrl(base, r);
      }
    }
  }

  /** The segments other than the three parameters that `resetUrl` takes away. */
  function Others(segs: seq<string>): seq<string> {
    if |segs| == 0 then []
    else if "lt=" <= segs[0] || "error_message=" <= segs[0] || "get-lt=" <= segs[0] then Others(segs[1..])
    else [segs[0]] + Others(segs[1..])
  }

  lemma {:induction false} OthersWanted(segs: seq<string>)
    ensures Others(segs) == Wanted(segs, ["lt", "error_message", "get-lt"])
  {
    if |segs| > 0 {
      OthersWanted(segs[1..]);
      var ps := ["lt", "error_message", "get-lt"];
      assert ps[0] in ps && ps[1] in ps && ps[2] in ps;
      assert "lt" + "=" == "lt=" && "error_message" + "=" == "error_message=" && "get-lt" + "=" == "get-lt=";
      assert forall p :: p in ps ==> p == "lt" || p == "error_message" || p == "get-lt";
    }
  }

  /** So for the three names of `resetUrl`: exactly under this condition all other non-empty segments stay, in order. */
  lemma ResetExactly(url: string)
    requires '&' !in Base(url) && Whole(Query(url), ["lt", "error_message", "get-lt"])
    ensures Segments(Cleaned(url, ["lt", "error_message", "get-lt"])) == Others(Segments(url))
         <==> Untrimmed(Query(url), {"lt", "error_message", "get-lt"})
  {
    var ps := ["lt", "error_message", "get-lt"];
    assert ps[0][0] == 'l' && ps[1][0] == 'e' && ps[2][0] == 'g';
    assert Names(ps) == {"lt", "error_message", "get-lt"};
    OthersWanted(Segments(url));
    SeveralNamesExactly(url, ps);
  }

  // ---------------------------------------------------------------- orders that matter

  lemma PassPair(url: string, mid: string, end: string, p: string, q: string)
    requires RemoveOne(url, p) == mid && RemoveOne(mid, q) == end
    ensures Pass(url, [p, q]) == (end, Start(url, p) > -1 || Start(mid, q) > -1)
  {
    assert [p, q][1..] == [q] && [q][1..] == [];
    assert Pass(mid, [q]) == (end, Start(mid, q) > -1);
  }

  /** One call of the code with two names, the first of which it finds. */
  lemma CallPair(segs: seq<string>, mid: seq<string>, end: seq<string>, p: string, q: string, w: string, v: string)
    requires |segs| > 0 && |mid| > 0 && |end| > 0 && Segmented(segs) && Segmented(mid) && Segmented(end)
    requires Free(p) && Free(q) && w == p + "=" && v == q + "=" && (Hit(segs, w) || HasInner(segs, w))
    requires mid == Removed(segs, w) && end == Removed(mid, v) && |TrimSegments(end)| > 0
    ensures Cleaned(Url("", segs), [p, q]) == Cleaned(Url("", TrimSegments(end)), [p, q])
  {
    RemoveOneOnSegments("", segs, p);
    RemoveOneOnSegments("", mid, q);
    PassPair(Url("", segs), Url("", mid), Url("", end), p, q);
    CleanedNext("", segs, end, [p, q]);
  }

  lemma NoCallPair(s: string, p: string, q: string)
    requires Free(s) && Free(p) && Free(q) && !(p + "=" <= s) && !(q + "=" <= s)
    ensures Cleaned(Url("", [s]), [p, q]) == "?" + s
  {
    NoCall(s, [p, q]);
  }

  /** Names that are not prefixes of one another or of the text of a segment, which may hold question marks. */
  predicate Apart(s: string, w: string, v: string) {
    && s != "" && '&' !in s && Word(w) && Word(v)
    && !(w <= s) && !(v <= s) && !(w <= v) && !(v <= w)
    && !Inner(s, w) && !Inner(s, v) && !Inner(w, w) && !Inner(w, v) && !Inner(v, w) && !Inner(v, v)
  }

  lemma TwoToOne(s: string, p: string, q: string, w: string, v: string)
    requires Free(p) && Free(q) && w == p + "=" && v == q + "=" && Apart(s, w, v)
    ensures Cleaned(Url("", [w, s]), [p, q]) == Cleaned(Url("", [Chop(s)]), [p, q])
  {
    assert [w, s][1..] == [s] && [s][1..] == [];
    CallPair([w, s], [s], [s], p, q, w, v);
  }

  lemma HitCons(s: string, rest: seq<string>, w: string)
    ensures Hit([s] + rest, w) <==> w <= s || Hit(rest, w)
    ensures HasInner([s] + rest, w) <==> Inner(s, w) || HasInner(rest, w)
    ensures |rest| > 0 ==> WithoutFirst([s] + rest, w) == if w <= s then rest else [s] + WithoutFirst(rest, w)
    ensures |rest| > 0 ==> TrimSegments([s] + rest) == [s] + TrimSegments(rest)
  {
    assert ([s] + rest)[1..] == rest;
  }

  lemma HitOne(s: string, w: string)
    ensures (Hit([s], w) <==> w <= s) && (HasInner([s], w) <==> Inner(s, w))
    ensures WithoutFirst([s], w) == if w <= s then [""] else [s]
  {
    assert [s][1..] == [];
  }

  lemma FirstAndLast(s: string, w: string, v: string)
    requires Apart(s, w, v)
    ensures Hit([w, w, s, v], w) && Removed([w, w, s, v], w) == [w, s, v] && Removed([w, s, v], v) == [w, s, ""]
    ensures TrimSegments([w, s, ""]) == [w, s]
  {
    assert [w] + [w, s, v] == [w, w, s, v];
    HitCons(w, [w, s, v], w);
    LastGone(s, w, v);
    assert [s] + [""] == [s, ""] && [w] + [s, ""] == [w, s, ""];
    HitCons(s, [""], w);
    HitCons(w, [s, ""], w);
    assert [s] + [] == [s] && [w] + [s] == [w, s];
  }

  lemma LastGone(s: string, w: string, v: string)
    requires Apart(s, w, v)
    ensures Removed([w, s, v], v) == [w, s, ""]
  {
    assert [w] + [s, v] == [w, s, v] && [s] + [v] == [s, v];
    HitOne(v, v);
    HitCons(s, [v], v);
    HitCons(w, [s, v], v);
    assert [s] + [""] == [s, ""] && [w] + [s, ""] == [w, s, ""];
  }

  lemma FourToTwo(s: string, p: string, q: string, w: string, v: string)
    requires Free(p) && Free(q) && w == p + "=" && v == q + "=" && Apart(s, w, v)
    ensures Cleaned(Url("", [w, w, s, v]), [p, q]) == Cleaned(Url("", [w, s]), [p, q])
  {
    FirstAndLast(s, w, v);
    CallPair([w, w, s, v], [w, s, v], [w, s, ""], p, q, w, v);
  }

  /**
    With several names the order of the list matters: from `?p=&p=&x?&q=` the names p and q in this order also take the
    question mark of `x?`, though it is not the last segment.
   */
  lemma OrderOfNames(x: string, s: string, p: string, q: string, w: string, v: string)
    requires Free(x) && s == x + "?" && Free(p) && Free(q) && w == p + "=" && v == q + "=" && Apart(s, w, v)
    ensures Cleaned(Url("", [w, w, s, v]), [p, q]) == "?" + x
  {
    FourToTwo(s, p, q, w, v);
    TwoToOne(s, p, q, w, v);
    ChopMark(x);
    ChopPrefix(s, w);
    ChopPrefix(s, v);
    NoCallPair(x, p, q);
  }

  lemma NoneThere(x: string, n: string, p: string, w: string)
    requires Free(x) && Free(n) && Free(p) && w == p + "=" && !(w <= x) && !(w <= n)
    ensures Start(Url("", [x, n]), p) == -1 && Removed([x, n], w) == [x, n]
  {
    NoHit(x, "?" + w);
    NoHit(n, "?" + w);
    HitOne(n, w);
    HitCons(x, [n], w);
    assert [x] + [n] == [x, n];
    RemoveOneOnSegments("", [x, n], p);
  }

  lemma NoCallTwo(x: string, n: string, p: string, q: string)
    requires Free(x) && Free(n) && Free(p) && Free(q)
    requires var w, v := p + "=", q + "="; !(w <= x) && !(w <= n) && !(v <= x) && !(v <= n)
    ensures Cleaned(Url("", [x, n]), [p, q]) == Url("", [x, n])
  {
    NoneThere(x, n, p, p + "=");
    NoneThere(x, n, q, q + "=");
    PassIdle(Url("", [x, n]), [p, q]);
  }

  lemma MiddleGone(x: string, u: string, n: string, p: string, w: string)
    requires Free(x) && '&' !in u && Free(n) && n != "" && w == p + "="
    requires !(w <= x) && w <= u && !Inner(u, w)
    ensures Hit([x, u, n], w) && Removed([x, u, n], w) == [x, n] && TrimSegments([x, n]) == [x, n]
  {
    NoHit(x, "?" + w);
    NoHit(n, "?" + w);
    HitOne(n, w);
    HitCons(u, [n], w);
    HitCons(x, [u, n], w);
    HitCons(x, [n], w);
    assert [u] + [n] == [u, n] && [x] + [u, n] == [x, u, n] && [x] + [n] == [x, n];
    assert Chop(n) == n by {
      assert n[|n| - 1] in n;
    }
  }

  /**
    The order can also save meaning: in `?x&u&n`, where `u` is named p and holds the name q behind a question mark, all
    of `u` is gone before q is looked for, and `n` stays.
   */
  lemma OrderSaves(x: string, u: string, n: string, p: string, q: string)
    requires Free(x) && '&' !in u && Free(n) && n != "" && Free(p) && Free(q)
    requires var w, v := p + "=", q + "=";
             && !(w <= x) && !(w <= n) && !(v <= x) && !(v <= n) && w <= u && !Inner(u, w) && Inner(u, v)
    ensures Cleaned(Url("", [x, u, n]), [p, q]) == Url("", [x, n])
  {
    var w, v := p + "=", q + "=";
    MiddleGone(x, u, n, p, w);
    NoneThere(x, n, q, v);
    CallPair([x, u, n], [x, n], [x, n], p, q, w, v);
    NoCallTwo(x, n, p, q);
  }
}
