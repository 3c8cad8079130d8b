/** Removal of one named parameter: exactly which URLs keep their meaning. */
module OneName {
  import opened JavaStrings
  import opened UrlParameters

  // ---------------------------------------------------------------- the three ways to lose meaning

  /** The segments that are neither empty nor start with `w`. */
  function Left(segs: seq<string>, w: string): seq<string> {
    if |segs| == 0 then []
    else if segs[0] == "" || w <= segs[0] then Left(segs[1..], w)
    else [segs[0]] + Left(segs[1..], w)
  }

  /** A segment that should stay holds `w` behind a question mark. */
  predicate WantedInner(segs: seq<string>, w: string) {
    |segs| > 0 && ((!(w <= segs[0]) && Inner(segs[0], w)) || WantedInner(segs[1..], w))
  }

  /**
    How often the code finds the name: once for each segment it names, and once more for each unbroken row of such
    segments, other than one at the start of the query (`lead`), in which some segment holds `w` inside (`mark` once
    that segment is behind).
   */
  function Finds(segs: seq<string>, w: string, lead: bool, mark: bool): nat {
    if |segs| == 0 then 0
    else if w <= segs[0] then
      var cut := !lead && Inner(segs[0], w);
      1 + (if cut && !mark then 1 else 0) + Finds(segs[1..], w, lead, mark || cut)
    else Finds(segs[1..], w, false, false)
  }

  /** Such a row is directly followed by a segment that should stay: it is taken for part of the last one cut. */
  predicate Swallows(segs: seq<string>, w: string, lead: bool, mark: bool) {
    |segs| > 0 &&
    if w <= segs[0] then Swallows(segs[1..], w, lead, mark || (!lead && Inner(segs[0], w)))
    else (mark && segs[0] != "") || Swallows(segs[1..], w, false, false)
  }

  predicate AllEmpty(segs: seq<string>) {
    |segs| > 0 ==> segs[0] == "" && AllEmpty(segs[1..])
  }

  /**
    The number of empty segments behind the last other one, if that should stay and ends in a question mark; otherwise
    -1. Each time the code finds the name it trims one character, and comes to that question mark when these are gone.
   */
  function Exposed(segs: seq<string>, w: string): int {
    if |segs| == 0 then -1
    else if !AllEmpty(segs[1..]) then Exposed(segs[1..], w)
    else if segs[0] != "" && !(w <= segs[0]) && Last(segs[0]) == "?" then |segs| - 1
    else -1
  }

  /** Nothing is swallowed and no question mark trimmed. */
  predicate Calm(segs: seq<string>, w: string) {
    && !Swallows(segs, w, true, false)
    && (Exposed(segs, w) < 0 || Finds(segs, w, true, false) <= Exposed(segs, w))
  }

  /** None of the three ways to lose meaning occurs. */
  predicate Harmless(segs: seq<string>, w: string) {
    !WantedInner(segs, w) && Calm(segs, w)
  }

  // ---------------------------------------------------------------- one removal

  lemma {:induction false} EmptyExposed(segs: seq<string>, w: string)
    requires AllEmpty(segs)
    ensures Exposed(segs, w) == -1 && Left(segs, w) == []
    ensures Word(w) ==> Finds(segs, w, false, false) == 0
  {
    if |segs| > 0 {
      EmptyExposed(segs[1..], w);
    }
  }

  lemma {:induction false} IdleFinds(segs: seq<string>, w: string, lead: bool)
    requires !Hit(segs, w)
    ensures Finds(segs, w, lead, false) == 0 && !Swallows(segs, w, lead, false)
    ensures NonEmpty(segs) == Left(segs, w)
  {
    if |segs| > 0 {
      IdleFinds(segs[1..], w, false);
    }
  }

  /** What a removal does to the three conditions when nothing is lost. */
  ghost predicate Progress(segs: seq<string>, r: seq<string>, w: string, lead: bool) {
    && Finds(r, w, lead, false) + 1 == Finds(segs, w, lead, false)
    && !WantedInner(r, w)
    && Swallows(r, w, lead, false) == Swallows(segs, w, lead, false)
    && Left(r, w) == Left(segs, w)
    && (Exposed(r, w) == Exposed(segs, w)
        || (Exposed(segs, w) == -1 && Finds(r, w, lead, false) == 0 && Exposed(r, w) > 0))
  }

  lemma LeadStep(segs: seq<string>, w: string)
    requires |segs| > 0 && Word(w) && w <= segs[0] && !WantedInner(segs, w)
    ensures Progress(segs, WithoutFirst(segs, w), w, true)
  {
    if AllEmpty(segs[1..]) {
      EmptyExposed(segs[1..], w);
    }
    assert [""][1..] == [];
    assert !Inner("", w);
  }

  lemma {:induction false} HitNotEmpty(segs: seq<string>, w: string)
    requires Hit(segs, w) && Word(w)
    ensures !AllEmpty(segs)
  {
    if !(w <= segs[0]) {
      HitNotEmpty(segs[1..], w);
    }
  }

  lemma {:induction false} NamedStep(segs: seq<string>, w: string)
    requires Hit(segs, w) && Word(w) && !HasInner(segs, w)
    ensures Progress(segs, WithoutFirst(segs, w), w, false)
  {
    assert !Inner("", w);
    if w <= segs[0] {
      assert [""][1..] == [];
      if AllEmpty(segs[1..]) {
        EmptyExposed(segs[1..], w);
      }
      NoInnerWanted(segs, w);
    } else {
      NamedStep(segs[1..], w);
      HitNotEmpty(segs[1..], w);
      var r := WithoutFirst(segs[1..], w);
      assert ([segs[0]] + r)[1..] == r;
      if AllEmpty(r) {
        EmptyExposed(r, w);
      }
    }
  }

  lemma {:induction false} NoInnerWanted(segs: seq<string>, w: string)
    requires !HasInner(segs, w)
    ensures !WantedInner(segs, w)
  {
    if |segs| > 0 {
      NoInnerWanted(segs[1..], w);
    }
  }

  /** What follows the head of a cut segment is read as before, except that it may follow the question mark. */
  lemma HeadInner(s: string, t: string, w: string)
    requires Word(w) && Inner(s, w)
    ensures Inner(Head(s, w) + t, w) <==> w <= t || Inner(t, w)
    ensures w <= s ==> w <= Head(s, w) + t
  {
    var x := IndexOf(s, "?" + w);
    BeforeHit(s, "?" + w);
    IndexOfHit(s, "?" + w);
    assert [("?" + w)[0]] == "?" && "?" <= s[x..];
    AroundIndex(s, x, '?');
    assert Head(s, w) == s[..x] + "?";
    QuestionHit(s[..x], t, w);
    PrefixOfFirst(s[..x], s[x + 1..], w, '?');
    PrefixOfFirst(s[..x], t, w, '?');
  }

  /** The segment swallowed by the first cut should stay. */
  predicate Hurts(segs: seq<string>, w: string) {
    |segs| > 0 &&
    if Inner(segs[0], w) then |segs| > 1 && segs[1] != "" && !(w <= segs[1]) else Hurts(segs[1..], w)
  }

  lemma HeadAlone(s: string, w: string)
    requires Word(w) && Inner(s, w) && w <= s
    ensures Progress([s], [Head(s, w)], w, false) && Exposed([s], w) == Exposed([Head(s, w)], w)
  {
    HeadInner(s, "", w);
    assert Head(s, w) + "" == Head(s, w) && !Inner("", w);
    assert [s][1..] == [] && [Head(s, w)][1..] == [];
  }

  lemma HeadMerged(s: string, n: string, rest: seq<string>, w: string)
    requires Word(w) && Inner(s, w) && w <= s && !WantedInner([s, n] + rest, w)
    ensures var segs, r := [s, n] + rest, [Head(s, w) + n] + rest;
            && (n == "" || w <= n ==> Progress(segs, r, w, false) && Exposed(segs, w) == Exposed(r, w))
            && (n != "" && !(w <= n) ==>
                  Swallows(segs, w, false, false) && !WantedInner(r, w) && Total(Left(r, w)) < Total(Left(segs, w)))
  {
    var segs, r := [s, n] + rest, [Head(s, w) + n] + rest;
    assert segs[1..] == [n] + rest && segs[1..][1..] == rest && r[1..] == rest;
    HeadInner(s, n, w);
    assert Left(segs, w) == Left([n] + rest, w) && Left(r, w) == Left(rest, w);
    assert !Inner("", w);
    if AllEmpty(rest) {
      EmptyExposed(rest, w);
    }
    if n != "" && !(w <= n) {
      assert Left(segs, w) == [n] + Left(rest, w);
      assert ([n] + Left(rest, w))[1..] == Left(rest, w);
    }
  }

  lemma LeftCons(segs: seq<string>, w: string)
    requires |segs| > 0
    ensures var stays := segs[0] != "" && !(w <= segs[0]);
            && Left(segs, w) == (if stays then [segs[0]] else []) + Left(segs[1..], w)
            && Total(Left(segs, w)) == (if stays then |segs[0]| else 0) + Total(Left(segs[1..], w))
  {
    assert ([segs[0]] + Left(segs[1..], w))[1..] == Left(segs[1..], w);
  }

  /** What the first cut does to the three conditions. */
  ghost predicate Merged(segs: seq<string>, r: seq<string>, w: string) {
    if Hurts(segs, w) then
      Swallows(segs, w, false, false) && !WantedInner(r, w) && Total(Left(r, w)) < Total(Left(segs, w))
    else Progress(segs, r, w, false) && Exposed(segs, w) == Exposed(r, w)
  }

  lemma {:induction false} MergeStep(segs: seq<string>, r: seq<string>, w: string)
    requires HasInner(segs, w) && Word(w) && !WantedInner(segs, w) && r == Merge(segs, w)
    ensures Merged(segs, r, w)
    decreases |segs|
  {
    if Inner(segs[0], w) {
      if |segs| == 1 {
        HeadAlone(segs[0], w);
        assert segs == [segs[0]];
      } else {
        assert segs == [segs[0], segs[1]] + segs[2..];
        HeadMerged(segs[0], segs[1], segs[2..], w);
      }
    } else {
      var rest := Merge(segs[1..], w);
      MergeStep(segs[1..], rest, w);
      assert r == [segs[0]] + rest && r[1..] == rest;
      MergeEmpty(segs[1..], w);
      LeftCons(segs, w);
      LeftCons(r, w);
    }
  }

  lemma {:induction false} MergeEmpty(segs: seq<string>, w: string)
    requires HasInner(segs, w) && Word(w) && !WantedInner(segs, w)
    ensures !AllEmpty(segs) && !AllEmpty(Merge(segs, w))
  {
    assert !Inner("", w);
    if !Inner(segs[0], w) {
      MergeEmpty(segs[1..], w);
    } else if |segs| == 1 {
      HeadInner(segs[0], "", w);
      assert Head(segs[0], w) + "" == Head(segs[0], w);
    } else {
      HeadInner(segs[0], segs[1], w);
    }
  }

  lemma RemovedStep(segs: seq<string>, w: string)
    requires Word(w) && (Hit(segs, w) || HasInner(segs, w)) && !WantedInner(segs, w)
    ensures var r := Removed(segs, w);
            && !WantedInner(r, w)
            && (Progress(segs, r, w, true)
                || (Swallows(segs, w, true, false) && Total(Left(r, w)) < Total(Left(segs, w))))
  {
    if w <= segs[0] {
      LeadStep(segs, w);
    } else if HasInner(segs, w) {
      MergeStep(segs, Merge(segs, w), w);
    } else {
      NamedStep(segs, w);
    }
  }

  // ---------------------------------------------------------------- one call of the code

  lemma {:induction false} TrimEmpty(segs: seq<string>, w: string)
    requires |segs| > 0 && Word(w) && Exposed(segs, w) != 0
    ensures AllEmpty(TrimSegments(segs)) == AllEmpty(segs)
    ensures AllEmpty(segs) ==> |TrimSegments(segs)| == |segs| - 1
  {
    if |segs| > 1 {
      if AllEmpty(segs[1..]) {
        EmptyExposed(segs[1..], w);
      }
      TrimEmpty(segs[1..], w);
      assert ([segs[0]] + TrimSegments(segs[1..]))[1..] == TrimSegments(segs[1..]);
    } else {
      ChopPrefix(segs[0], w);
      assert segs[1..] == [] && [Chop(segs[0])][1..] == [];
    }
  }

  /** A trim takes a separator that is not missed or the question mark that is exposed. */
  lemma {:induction false} TrimLeft(segs: seq<string>, w: string)
    requires |segs| > 0 && Word(w)
    ensures var t := TrimSegments(segs);
            if Exposed(segs, w) == 0 then Total(Left(t, w)) < Total(Left(segs, w))
            else
              && Left(t, w) == Left(segs, w)
              && Exposed(t, w) == if Exposed(segs, w) > 0 then Exposed(segs, w) - 1 else -1
  {
    var s := segs[0];
    if |segs| > 1 {
      var r := TrimSegments(segs[1..]);
      TrimLeft(segs[1..], w);
      assert ([s] + r)[1..] == r;
      LeftCons(segs, w);
      LeftCons([s] + r, w);
      if AllEmpty(segs[1..]) {
        EmptyExposed(segs[1..], w);
      }
      if Exposed(segs[1..], w) != 0 {
        TrimEmpty(segs[1..], w);
      }
    } else {
      ChopPrefix(s, w);
      assert segs[1..] == [] && [Chop(s)][1..] == [];
      LeftCons(segs, w);
      LeftCons([Chop(s)], w);
    }
  }

  lemma {:induction false} TrimFinds(segs: seq<string>, w: string, lead: bool, mark: bool)
    requires |segs| > 0 && Word(w)
    ensures var t := TrimSegments(segs);
            && Finds(t, w, lead, mark) == Finds(segs, w, lead, mark)
            && WantedInner(t, w) == WantedInner(segs, w)
            && (Exposed(segs, w) != 0 ==> Swallows(t, w, lead, mark) == Swallows(segs, w, lead, mark))
  {
    var s := segs[0];
    if |segs| > 1 {
      var cut := !lead && Inner(s, w);
      TrimFinds(segs[1..], w, if w <= s then lead else false, if w <= s then mark || cut else false);
      assert ([s] + TrimSegments(segs[1..]))[1..] == TrimSegments(segs[1..]);
      if AllEmpty(segs[1..]) {
        EmptyExposed(segs[1..], w);
      }
    } else {
      ChopPrefix(s, w);
      ChopInner(s, w);
      assert segs[1..] == [] && [Chop(s)][1..] == [] && !Inner("", w);
    }
  }

  /** One call of the code: either something is lost, or no more is to be lost later than was to be lost before. */
  lemma OneRound(segs: seq<string>, w: string)
    requires Word(w) && (Hit(segs, w) || HasInner(segs, w)) && !WantedInner(segs, w)
    ensures var t := TrimSegments(Removed(segs, w));
            && !WantedInner(t, w)
            && (if Total(Left(t, w)) < Total(Left(segs, w)) then !Calm(segs, w)
                else Left(t, w) == Left(segs, w) && Calm(t, w) == Calm(segs, w))
  {
    var r := Removed(segs, w);
    RemovedStep(segs, w);
    TrimLeft(r, w);
    TrimFinds(r, w, true, false);
  }

  /** A call of the code that finds its one name, and one that does not. */
  lemma CallOne(base: string, segs: seq<string>, p: string)
    requires Free(base) && |segs| > 0 && Segmented(segs) && Free(p) && (Hit(segs, p + "=") || HasInner(segs, p + "="))
    ensures var r := TrimSegments(Removed(segs, p + "="));
            && Segmented(r)
            && (|r| > 0 ==> |Url(base, r)| < |Url(base, segs)|)
            && Cleaned(Url(base, segs), [p]) == if |r| == 0 then base else Cleaned(Url(base, r), [p])
  {
    RemoveOneOnSegments(base, segs, p);
    RemovedSegmented(segs, p + "=");
    assert [p][1..] == [];
    CleanedNext(base, segs, Removed(segs, p + "="), [p]);
  }

  lemma CallNone(base: string, segs: seq<string>, p: string)
    requires Free(base) && |segs| > 0 && Segmented(segs) && Free(p) && !Hit(segs, p + "=") && !HasInner(segs, p + "=")
    ensures Cleaned(Url(base, segs), [p]) == Url(base, segs)
  {
    RemoveOneOnSegments(base, segs, p);
    assert [p][1..] == [];
    CleanedIdle(base, segs, [p]);
  }

  lemma {:induction false} CleanedOne(base: string, segs: seq<string>, p: string) returns (r: seq<string>)
    requires Free(base) && |segs| > 0 && Segmented(segs) && Free(p) && !WantedInner(segs, p + "=")
    ensures Segmented(r) && Cleaned(Url(base, segs), [p]) == if |r| == 0 then base else Url(base, r)
    ensures var w := p + "=";
            if Calm(segs, w) then NonEmpty(r) == Left(segs, w) else Total(NonEmpty(r)) < Total(Left(segs, w))
    decreases |Url(base, segs)|
  {
    var w := p + "=";
    if Hit(segs, w) || HasInner(segs, w) {
      CallOne(base, segs, p);
      OneRound(segs, w);
      r := TrimSegments(Removed(segs, w));
      if |r| > 0 {
        r := CleanedOne(base, r, p);
      }
    } else {
      CallNone(base, segs, p);
      IdleFinds(segs, w, true);
      r := segs;
    }
  }

  // ---------------------------------------------------------------- the exact condition

  lemma {:induction false} LeftIsKept(segs: seq<string>, p: string)
    ensures Left(segs, p + "=") == Kept(segs, [p])
  {
    if |segs| > 0 {
      assert p in [p];
      LeftIsKept(segs[1..], p);
    }
  }

  lemma {:induction false} InnerWanted(segs: seq<string>, p: string) returns (s: string)
    requires WantedInner(segs, p + "=")
    ensures s in Kept(segs, [p]) && Inner(s, p + "=")
  {
    var w := p + "=";
    if !(w <= segs[0]) && Inner(segs[0], w) {
      s := segs[0];
      assert !Inner("", w);
    } else {
      s := InnerWanted(segs[1..], p);
    }
  }

  /**
    For one name and a URL with no ampersand before the query, meaning is kept exactly if: no segment to stay holds the
    name behind a question mark; no row of named segments that is not the start of the query, and in which the name
    follows a question mark inside some segment, is directly followed by a segment to stay; and the code does not find
    the name more often than there are empty segments behind a last segment to stay that ends in a question mark.
   */
  lemma OneNameExactly(url: string, p: string)
    requires '&' !in Base(url) && Free(p)
    ensures Segments(Cleaned(url, [p])) == Wanted(Segments(url), [p]) <==> Harmless(Query(url), p + "=")
  {
    var w, base, segs := p + "=", Base(url), Query(url);
    WantedNonEmpty(segs, [p]);
    LeftIsKept(segs, p);
    if IndexOf(url, "?") >= 0 {
      AtQuestion(url, base, segs);
      if WantedInner(segs, w) {
        var s := InnerWanted(segs, p);
        RemovalLosesMeaning(url, [p], s, p);
      } else {
        var r := CleanedOne(base, segs, p);
        ReadBase(base);
        if |r| > 0 {
          ReadUrl(base, r);
        }
      }
    }
  }

  lemma InnerEnd(x: string, w: string, v: string)
    requires Free(x) && Word(w) && Word(v)
    ensures Inner(x + "?" + w, w) && Head(x + "?" + w, w) == x + "?"
    ensures !Inner(x + "?", v) && !Inner(v, w) && !Inner(x, w)
    ensures w <= x + "?" <==> w <= x
    ensures w <= x + "?" + w <==> w <= x
  {
    NoHit(x, "?" + w);
    NoHit(x, "?" + v);
    NoHit(v, "?" + w);
    QuestionHit(x, w, w);
    QuestionHit(x, "", v);
    PrefixOfFirst(x, "", w, '?');
    PrefixOfFirst(x, w, w, '?');
    assert x + "?" + "" == x + "?";
    assert (x + "?" + w)[..|x| + 1] == x + "?";
  }

  /**
    With a second question mark: in `?x?p=` the code cuts inside the segment that should stay, and then trims its
    question mark.
   */
  lemma SecondQuestionMark(x: string, p: string)
    requires Free(x) && Free(p) && !(p + "=" <= x)
    ensures Cleaned(Url("", [x + "?" + (p + "=")]), [p]) == "?" + x
  {
    var w := p + "=";
    var s := x + "?" + w;
    InnerEnd(x, w, w);
    assert [s][1..] == [] && [x + "?"][1..] == [];
    CallOne("", [s], p);
    ChopMark(x);
    NoCall(x, [p]);
  }
}
