/** Removal of named GET parameters from a URL, as string surgery and as a statement about query segments. */
module UrlParameters {
  import opened Wrappers
  import opened JavaStrings

  // ---------------------------------------------------------------- the code's surgery

  function Start(url: string, p: string): (i: int)
    ensures -1 <= i < |url|
    ensures i != 0
  {
    var q, a := IndexOf(url, "?" + p + "="), IndexOf(url, "&" + p + "=");
    if q > -1 then q + 1 else if a > -1 then a + 1 else -1
  }

  /** One turn of the loop. */
  function RemoveOne(url: string, p: string): (r: string)
    ensures |r| <= |url| && (Start(url, p) > -1 ==> |r| < |url|)
  {
    var start := Start(url, p);
    if start > -1 then
      var temp := IndexOfFrom(url, "&", start);
      var end := if temp > -1 then temp + 1 else |url|;
      url[..start] + url[end..]
    else url
  }

  /** The loop, and whether it found anything. */
  function Pass(url: string, params: seq<string>): (r: (string, bool))
    ensures |r.0| <= |url| && (r.1 ==> |r.0| < |url|) && (!r.1 ==> r.0 == url)
  {
    if |params| == 0 then (url, false)
    else
      var (cleaned, found) := Pass(RemoveOne(url, params[0]), params[1..]);
      (cleaned, Start(url, params[0]) > -1 || found)
  }

  function Trim(url: string): (r: string)
    ensures |r| <= |url|
  {
    if Last(url) == "?" || Last(url) == "&" then url[..|url| - 1] else url
  }

  function Cleaned(url: string, params: seq<string>): string
    decreases |url|
  {
    if IndexOf(url, "?") == -1 then url
    else
      var (cleaned, found) := Pass(url, params);
      if !found then url else Cleaned(Trim(cleaned), params)
  }

  /** The body of the loop. */
  method EraseParameter(url: string, p: string) returns (cleanedUrl: string, found: bool)
    ensures cleanedUrl == RemoveOne(url, p) && (found <==> Start(url, p) > -1)
  {
    cleanedUrl, found := url, false;
    var startPosition, endPosition := -1, -1;
    if IndexOf(cleanedUrl, "?" + p + "=") > -1 {
      startPosition := IndexOf(cleanedUrl, "?" + p + "=") + 1;
    } else if IndexOf(cleanedUrl, "&" + p + "=") > -1 {
      startPosition := IndexOf(cleanedUrl, "&" + p + "=") + 1;
    }
    if startPosition > -1 {
      var temp := IndexOfFrom(cleanedUrl, "&", startPosition);
      endPosition := if temp > -1 then temp + 1 else |cleanedUrl|;
      cleanedUrl := cleanedUrl[..startPosition] + cleanedUrl[endPosition..];
      found := true;
    }
  }

  /** `removeHttpGetParameters`; None is null. */
  method RemoveHttpGetParameters(casUrl: Option<string>, paramsToBeRemoved: seq<string>) returns (r: Option<string>)
    ensures r == if casUrl.None? then None else Some(Cleaned(casUrl.value, paramsToBeRemoved))
    decreases if casUrl.None? then 0 else |casUrl.value|
  {
    if casUrl.None? {
      return None;
    }
    var url := casUrl.value;
    if IndexOf(url, "?") == -1 {
      return casUrl;
    }
    var cleanedUrl, containsOneOfTheUnwantedParams := url, false;
    for i := 0 to |paramsToBeRemoved|
      invariant |cleanedUrl| <= |url| && (containsOneOfTheUnwantedParams ==> |cleanedUrl| < |url|)
      invariant Pass(url, paramsToBeRemoved).0 == Pass(cleanedUrl, paramsToBeRemoved[i..]).0
      invariant Pass(url, paramsToBeRemoved).1
            <==> containsOneOfTheUnwantedParams || Pass(cleanedUrl, paramsToBeRemoved[i..]).1
    {
      assert paramsToBeRemoved[i..][1..] == paramsToBeRemoved[i + 1..];
      var found: bool;
      cleanedUrl, found := EraseParameter(cleanedUrl, paramsToBeRemoved[i]);
      if found {
        containsOneOfTheUnwantedParams := true;
      }
    }
    if Last(cleanedUrl) == "?" || Last(cleanedUrl) == "&" {
      cleanedUrl := cleanedUrl[..|cleanedUrl| - 1];
    }
    if !containsOneOfTheUnwantedParams {
      return casUrl;
    }
    r := RemoveHttpGetParameters(Some(cleanedUrl), paramsToBeRemoved);
  }

  /** A second application changes nothing, whatever the URL and the names. */
  lemma {:induction false} CleanedTwice(url: string, params: seq<string>)
    ensures Cleaned(Cleaned(url, params), params) == Cleaned(url, params)
    decreases |url|
  {
    if IndexOf(url, "?") != -1 && Pass(url, params).1 {
      CleanedTwice(Trim(Pass(url, params).0), params);
    }
  }

  lemma {:induction false} PassFinds(url: string, params: seq<string>)
    requires !Pass(url, params).1
    ensures forall p :: p in params ==> Start(url, p) == -1
  {
    if |params| > 0 {
      PassFinds(url, params[1..]);
    }
  }

  /** Nothing that the code looks for is left, in any URL that still has a question mark. */
  lemma {:induction false} NothingLeft(url: string, params: seq<string>)
    ensures var r := Cleaned(url, params); IndexOf(r, "?") == -1 || forall p :: p in params ==> Start(r, p) == -1
    decreases |url|
  {
    if IndexOf(url, "?") != -1 {
      if Pass(url, params).1 {
        NothingLeft(Trim(Pass(url, params).0), params);
      } else {
        PassFinds(url, params);
      }
    }
  }

  // ---------------------------------------------------------------- query segments

  predicate Free(s: string) { '&' !in s && '?' !in s }

  predicate Unwanted(seg: string, params: seq<string>) {
    exists p :: p in params && p + "=" <= seg
  }

  /** The segments that are not empty. */
  function NonEmpty(segs: seq<string>): seq<string> {
    if |segs| == 0 then [] else (if segs[0] == "" then [] else [segs[0]]) + NonEmpty(segs[1..])
  }

  /** The segments that are not named in the list. */
  function Wanted(segs: seq<string>, params: seq<string>): seq<string> {
    if |segs| == 0 then []
    else (if Unwanted(segs[0], params) then [] else [segs[0]]) + Wanted(segs[1..], params)
  }

  /** All segments behind the first question mark, none if there is none. */
  function Query(url: string): seq<string> {
    var i := IndexOf(url, "?");
    if i < 0 then [] else Split(url[i + 1..])
  }

  /** What a query says: its non-empty segments. */
  function Segments(url: string): seq<string> { NonEmpty(Query(url)) }

  function Base(url: string): string {
    var i := IndexOf(url, "?");
    if i < 0 then url else url[..i]
  }

  // ---------------------------------------------------------------- one removal, on segments

  predicate Hit(segs: seq<string>, w: string) {
    |segs| > 0 && (w <= segs[0] || Hit(segs[1..], w))
  }

  function WithoutFirst(segs: seq<string>, w: string): (r: seq<string>)
    requires |segs| > 0
    ensures |r| > 0
  {
    if w <= segs[0] then if |segs| == 1 then [""] else segs[1..]
    else if |segs| == 1 then segs
    else [segs[0]] + WithoutFirst(segs[1..], w)
  }

  /** The segment holds `w` behind a question mark of its own. */
  predicate Inner(seg: string, w: string) { IndexOf(seg, "?" + w) >= 0 }

  predicate HasInner(segs: seq<string>, w: string) {
    |segs| > 0 && (Inner(segs[0], w) || HasInner(segs[1..], w))
  }

  /** The segment up to and with the first question mark that `w` follows. */
  function Head(seg: string, w: string): string
    requires Inner(seg, w)
  {
    seg[..IndexOf(seg, "?" + w) + 1]
  }

  /** The first segment with `w` inside is cut there, and so is the ampersand behind it. */
  function Merge(segs: seq<string>, w: string): (r: seq<string>)
    requires |segs| > 0
    ensures |r| > 0
  {
    if Inner(segs[0], w) then
      if |segs| == 1 then [Head(segs[0], w)] else [Head(segs[0], w) + segs[1]] + segs[2..]
    else if |segs| == 1 then segs
    else [segs[0]] + Merge(segs[1..], w)
  }

  /** The code looks for `w` behind a question mark first, and behind an ampersand only where that fails. */
  function Removed(segs: seq<string>, w: string): (r: seq<string>)
    requires |segs| > 0
    ensures |r| > 0
  {
    if !(w <= segs[0]) && HasInner(segs, w) then Merge(segs, w) else WithoutFirst(segs, w)
  }

  /** The text without what lies from `k` to the next ampersand. */
  function CutFrom(q: string, k: nat): string
    requires k <= |q|
  {
    q[..k] + AfterAmpersand(q[k..])
  }

  function CutAt(q: string, k: int): string
    requires k <= |q|
  {
    if k < 0 then q else CutFrom(q, k)
  }

  /** Where `w` follows an ampersand or starts the text. */
  function AmpersandAt(q: string, w: string): (i: int)
    ensures -1 <= i <= |q|
  {
    if w <= q then 0 else Shift(IndexOf(q, "&" + w), 1)
  }

  /** Where `w` follows a question mark. */
  function QuestionAt(q: string, w: string): (i: int)
    ensures -1 <= i <= |q|
  {
    Shift(IndexOf(q, "?" + w), 1)
  }

  /** The text without what an ampersand announces as `w`. */
  function CutNamed(q: string, w: string): string { CutAt(q, AmpersandAt(q, w)) }

  /** The text without what a question mark announces as `w`. */
  function CutInner(q: string, w: string): string { CutAt(q, QuestionAt(q, w)) }

  lemma CutBehind(front: string, t: string, k: nat)
    requires k <= |t|
    ensures CutFrom(front + t, |front| + k) == front + CutFrom(t, k)
  {
    Tail(front, t, k);
    Regroup(front, t[..k], AfterAmpersand(t[k..]));
  }

  lemma CutAtBehind(front: string, t: string, k: int, all: string, i: int)
    requires -1 <= k <= |t| && all == front + t && i == Shift(k, |front|)
    ensures i <= |all| && CutAt(all, i) == front + CutAt(t, k)
  {
    if k >= 0 {
      CutBehind(front, t, k);
    }
  }

  /** Where the first ampersand is not followed by `w`, the search goes on behind it. */
  lemma AmpersandHit(s: string, t: string, w: string)
    requires '&' !in s && '&' !in w && !(w <= s)
    ensures AmpersandAt(s + "&" + t, w) == Shift(AmpersandAt(t, w), |s| + 1)
  {
    PrefixOfFirst(s, t, w, '&');
    Skip(s, "&" + t, "&" + w);
    assert s + ("&" + t) == s + "&" + t;
    assert ("&" + t)[1..] == t;
    PrefixBehind('&', w, t);
  }

  lemma CutFirst(q: string, w: string)
    requires w <= q
    ensures AmpersandAt(q, w) == 0 && CutNamed(q, w) == AfterAmpersand(q)
  {
    assert q[0..] == q && q[..0] + AfterAmpersand(q) == AfterAmpersand(q);
  }

  lemma {:induction false} NamedOnSegments(segs: seq<string>, w: string)
    requires |segs| > 0 && Segmented(segs) && '&' !in w
    ensures w <= Join(segs) <==> w <= segs[0]
    ensures Hit(segs, w) <==> AmpersandAt(Join(segs), w) >= 0
    ensures Join(WithoutFirst(segs, w)) == CutNamed(Join(segs), w)
  {
    var s := segs[0];
    if |segs| == 1 {
      NoHit(s, "&");
      NoHit(s, "&" + w);
      if w <= s {
        CutFirst(s, w);
      }
    } else {
      var t := Join(segs[1..]);
      NamedOnSegments(segs[1..], w);
      PrefixOfFirst(s, t, w, '&');
      FirstAmpersand(s, t);
      if w <= s {
        CutFirst(Join(segs), w);
      } else {
        AmpersandHit(s, t, w);
        CutAtBehind(s + "&", t, AmpersandAt(t, w), Join(segs), AmpersandAt(Join(segs), w));
      }
    }
  }

  /** The first `w` behind a question mark, where `a` holds none. */
  lemma {:induction false} QuestionHit(a: string, t: string, w: string)
    requires '?' !in w && !Inner(a, w)
    ensures QuestionAt(a + "?" + t, w) == if w <= t then |a| + 1 else Shift(QuestionAt(t, w), |a| + 1)
  {
    if |a| == 0 {
      assert a + "?" + t == "?" + t;
      assert ("?" + t)[1..] == t;
      PrefixBehind('?', w, t);
    } else {
      assert (a + "?" + t)[0] == a[0] && (a + "?" + t)[1..] == a[1..] + "?" + t;
      QuestionHit(a[1..], t, w);
      if "?" + w <= a + "?" + t {
        assert a[0] == '?' && a == "?" + a[1..];
        assert "?" + (a[1..] + "?" + t) == a + "?" + t;
        PrefixBehind('?', w, a[1..] + "?" + t);
        PrefixOfFirst(a[1..], t, w, '?');
        PrefixBehind('?', w, a[1..]);
      }
    }
  }

  /** An ampersand ends the search in the first segment. */
  lemma {:induction false} InnerFirst(s: string, t: string, w: string)
    requires '&' !in w
    ensures IndexOf(s + "&" + t, "?" + w)
         == if Inner(s, w) then IndexOf(s, "?" + w) else Shift(IndexOf(t, "?" + w), |s| + 1)
  {
    PrefixOfFirst(s, t, "?" + w, '&');
    if |s| == 0 {
      assert s + "&" + t == "&" + t && ("&" + t)[1..] == t;
    } else {
      assert (s + "&" + t)[1..] == s[1..] + "&" + t;
      InnerFirst(s[1..], t, w);
    }
  }

  lemma CutHead(s: string, t: string, w: string)
    requires '&' !in s && '&' !in w && Inner(s, w)
    ensures CutInner(s, w) == Head(s, w)
    ensures QuestionAt(s + "&" + t, w) == QuestionAt(s, w) && CutInner(s + "&" + t, w) == Head(s, w) + t
  {
    var k := QuestionAt(s, w);
    assert '&' !in s[k..];
    NoHit(s[k..], "&");
    FirstAmpersand(s[k..], t);
    InnerFirst(s, t, w);
    assert (s + "&" + t)[..k] == s[..k] && (s + "&" + t)[k..] == s[k..] + "&" + t;
  }

  lemma {:induction false} InnerOnSegments(segs: seq<string>, w: string)
    requires |segs| > 0 && Segmented(segs) && '&' !in w
    ensures HasInner(segs, w) <==> QuestionAt(Join(segs), w) >= 0
    ensures Join(Merge(segs, w)) == CutInner(Join(segs), w)
  {
    var s := segs[0];
    if |segs| == 1 {
      if Inner(s, w) {
        CutHead(s, "", w);
      }
    } else {
      var t := Join(segs[1..]);
      InnerOnSegments(segs[1..], w);
      if Inner(s, w) {
        CutHead(s, t, w);
        JoinPrefixed(Head(s, w), segs[1..]);
        assert segs[1..][1..] == segs[2..];
      } else {
        InnerFirst(s, t, w);
        CutAtBehind(s + "&", t, QuestionAt(t, w), Join(segs), QuestionAt(Join(segs), w));
      }
    }
  }

  function Url(base: string, segs: seq<string>): string
    requires |segs| > 0
  {
    base + "?" + Join(segs)
  }

  /** Where the code starts to cut in a query. */
  function StartIn(q: string, w: string): (i: int)
    ensures -1 <= i <= |q|
  {
    if !(w <= q) && QuestionAt(q, w) >= 0 then QuestionAt(q, w) else AmpersandAt(q, w)
  }

  lemma StartAt(base: string, q: string, p: string)
    requires Free(base) && Free(p)
    ensures Start(base + "?" + q, p) == Shift(StartIn(q, p + "="), |base| + 1)
  {
    var w := p + "=";
    assert "?" + p + "=" == "?" + w && "&" + p + "=" == "&" + w;
    NoHit(base, "?" + w);
    QuestionHit(base, q, w);
    Skip(base + "?", q, "&" + w);
  }

  lemma RemoveOneCuts(url: string, p: string)
    requires Start(url, p) > -1
    ensures RemoveOne(url, p) == CutFrom(url, Start(url, p))
  {
    var start := Start(url, p);
    var j := IndexOf(url[start..], "&");
    if j >= 0 {
      DropTwice(url, start, j + 1);
    }
  }

  lemma RemoveOneInQuery(base: string, q: string, p: string)
    requires Free(base) && Free(p)
    ensures var k := StartIn(q, p + "=");
            RemoveOne(base + "?" + q, p) == base + "?" + CutAt(q, k)
  {
    StartAt(base, q, p);
    if StartIn(q, p + "=") >= 0 {
      RemoveOneCuts(base + "?" + q, p);
    }
    CutAtBehind(base + "?", q, StartIn(q, p + "="), base + "?" + q, Start(base + "?" + q, p));
  }

  /**
    One turn of the loop, on query segments: a named first segment goes; otherwise the first segment with the name
    behind a question mark inside is cut and merged with the next; otherwise the first named segment goes.
   */
  lemma RemoveOneOnSegments(base: string, segs: seq<string>, p: string)
    requires Free(base) && |segs| > 0 && Segmented(segs) && Free(p)
    ensures RemoveOne(Url(base, segs), p) == Url(base, Removed(segs, p + "="))
    ensures Start(Url(base, segs), p) > -1 <==> Hit(segs, p + "=") || HasInner(segs, p + "=")
  {
    var w, q := p + "=", Join(segs);
    StartAt(base, q, p);
    RemoveOneInQuery(base, q, p);
    NamedOnSegments(segs, w);
    InnerOnSegments(segs, w);
  }

  lemma {:induction false} MergeSegmented(segs: seq<string>, w: string)
    requires |segs| > 0 && Segmented(segs)
    ensures Segmented(Merge(segs, w))
  {
    if |segs| > 1 && !Inner(segs[0], w) {
      MergeSegmented(segs[1..], w);
    }
  }

  lemma {:induction false} WithoutFirstSegmented(segs: seq<string>, w: string)
    requires |segs| > 0 && Segmented(segs)
    ensures Segmented(WithoutFirst(segs, w))
  {
    if |segs| > 1 && !(w <= segs[0]) {
      WithoutFirstSegmented(segs[1..], w);
    }
  }

  lemma RemovedSegmented(segs: seq<string>, w: string)
    requires |segs| > 0 && Segmented(segs)
    ensures Segmented(Removed(segs, w))
  {
    MergeSegmented(segs, w);
    WithoutFirstSegmented(segs, w);
  }

  // ---------------------------------------------------------------- trimming, on segments

  /** Without a question mark at the end. */
  function Chop(s: string): string { if Last(s) == "?" then s[..|s| - 1] else s }

  /** An empty last segment goes with its separator, else a question mark at the end; no segment means no query. */
  function TrimSegments(segs: seq<string>): seq<string>
    requires |segs| > 0
  {
    if |segs| > 1 then [segs[0]] + TrimSegments(segs[1..])
    else if segs[0] == "" then []
    else [Chop(segs[0])]
  }

  lemma TrimText(front: string, s: string)
    requires |front| > 0 && (front[|front| - 1] == '?' || front[|front| - 1] == '&') && '&' !in s
    ensures Trim(front + s) == if s == "" then front[..|front| - 1] else front + Chop(s)
  {
    if s == "" {
      assert front + s == front;
    } else {
      assert (front + s)[|front + s| - 1] == s[|s| - 1];
      assert s[|s| - 1] in s;
      assert (front + s)[..|front + s| - 1] == front + s[..|s| - 1];
    }
  }

  /** The text before the segments with what is left of them. */
  function Rest(front: string, segs: seq<string>): string
    requires |front| > 0
  {
    if |segs| == 0 then front[..|front| - 1] else front + Join(segs)
  }

  lemma {:induction false} TrimJoin(front: string, segs: seq<string>)
    requires |front| > 0 && (front[|front| - 1] == '?' || front[|front| - 1] == '&') && |segs| > 0 && Segmented(segs)
    ensures Trim(front + Join(segs)) == Rest(front, TrimSegments(segs))
    decreases |segs|
  {
    var s := segs[0];
    if |segs| == 1 {
      TrimText(front, s);
    } else {
      var next := front + (s + "&");
      var t := TrimSegments(segs[1..]);
      TrimJoin(next, segs[1..]);
      Regroup(front, s + "&", Join(segs[1..]));
      if |t| == 0 {
        assert next[..|next| - 1] == front + s;
      } else {
        Regroup(front, s + "&", Join(t));
        assert ([s] + t)[1..] == t;
      }
    }
  }

  lemma {:induction false} TrimSegmented(segs: seq<string>)
    requires |segs| > 0 && Segmented(segs)
    ensures Segmented(TrimSegments(segs))
  {
    if |segs| > 1 {
      TrimSegmented(segs[1..]);
    }
  }

  /** A name with its equals sign. */
  predicate Word(w: string) { |w| > 0 && Free(w) && w[|w| - 1] == '=' }

  lemma ChopPrefix(s: string, w: string)
    requires Word(w)
    ensures w <= Chop(s) <==> w <= s
  {
    if w <= s && Last(s) == "?" {
      assert s[|s| - 1] == '?';
      assert w[|w| - 1] == s[|w| - 1];
    }
  }

  lemma ChopRest(s: string)
    requires |s| > 1 && s[|s| - 1] == '?'
    ensures Last(s[1..]) == "?" && Chop(s) == [s[0]] + Chop(s[1..]) && Chop(s)[1..] == Chop(s[1..])
  {
    assert s[1..][|s| - 2..] == s[|s| - 1..] == "?";
    assert s[..|s| - 1] == [s[0]] + s[1..][..|s| - 2];
  }

  lemma {:induction false} ChopInner(s: string, w: string)
    requires Word(w)
    ensures Inner(Chop(s), w) <==> Inner(s, w)
  {
    var pat := "?" + w;
    if Last(s) == "?" {
      assert s[|s| - 1] == '?';
      if |s| == 1 {
        assert s[1..] == "" && Chop(s) == "";
      } else {
        ChopRest(s);
        ChopInner(s[1..], w);
        if pat <= s {
          assert pat[|pat| - 1] == s[|pat| - 1];
        }
        assert pat <= Chop(s) <==> pat <= s;
      }
    }
  }

  lemma ChopMark(x: string)
    ensures Chop(x + "?") == x
  {
    assert (x + "?")[|x|..] == "?" && (x + "?")[..|x|] == x;
  }

  // ---------------------------------------------------------------- one call of the code

  predicate AllNames(params: seq<string>) {
    forall i :: 0 <= i < |params| ==> Free(params[i])
  }

  /** Nothing is found: the URL is returned as it is. */
  lemma CleanedIdle(base: string, segs: seq<string>, params: seq<string>)
    requires Free(base) && |segs| > 0 && Segmented(segs) && AllNames(params) && !Pass(Url(base, segs), params).1
    ensures Cleaned(Url(base, segs), params) == Url(base, segs)
    ensures forall p :: p in params ==> !Hit(segs, p + "=")
  {
    PassFinds(Url(base, segs), params);
    forall p | p in params ensures !Hit(segs, p + "=") {
      RemoveOneOnSegments(base, segs, p);
    }
  }

  lemma HasQuestion(base: string, segs: seq<string>)
    requires Free(base) && |segs| > 0
    ensures IndexOf(Url(base, segs), "?") == |base|
  {
    Skip(base, "?" + Join(segs), "?");
    assert base + ("?" + Join(segs)) == Url(base, segs);
  }

  /** Something is found: the code goes on with what is left, which may be no query. */
  lemma CleanedNext(base: string, segs: seq<string>, r: seq<string>, params: seq<string>)
    requires Free(base) && |segs| > 0 && |r| > 0 && Segmented(r)
    requires Pass(Url(base, segs), params).1 && Pass(Url(base, segs), params).0 == Url(base, r)
    ensures var t := TrimSegments(r);
            && Segmented(t)
            && (|t| > 0 ==> |Url(base, t)| < |Url(base, segs)|)
            && Cleaned(Url(base, segs), params) == if |t| == 0 then base else Cleaned(Url(base, t), params)
  {
    HasQuestion(base, segs);
    TrimSegmented(r);
    TrimJoin(base + "?", r);
    assert (base + "?")[..|base|] == base;
    NoHit(base, "?");
  }

  lemma {:induction false} PassIdle(url: string, params: seq<string>)
    requires forall p :: p in params ==> Start(url, p) == -1
    ensures !Pass(url, params).1
  {
    if |params| > 0 {
      assert params[0] in params;
      PassIdle(url, params[1..]);
    }
  }

  lemma NoCall(s: string, params: seq<string>)
    requires Free(s) && AllNames(params) && forall p :: p in params ==> !(p + "=" <= s)
    ensures Cleaned(Url("", [s]), params) == "?" + s
  {
    forall p | p in params ensures Start(Url("", [s]), p) == -1 {
      RemoveOneOnSegments("", [s], p);
      NoHit(s, "?" + (p + "="));
      assert [s][1..] == [];
    }
    PassIdle(Url("", [s]), params);
  }

  // ---------------------------------------------------------------- reading URLs

  lemma ReadUrl(base: string, segs: seq<string>)
    requires Free(base) && |segs| > 0 && Segmented(segs)
    ensures Base(Url(base, segs)) == base && Query(Url(base, segs)) == segs
  {
    var url := Url(base, segs);
    HasQuestion(base, segs);
    assert url[..|base|] == base && url[|base| + 1..] == Join(segs);
    SplitJoin(segs);
  }

  lemma ReadBase(base: string)
    requires Free(base)
    ensures Base(base) == base && Query(base) == []
  {
    NoHit(base, "?");
  }

  lemma AtQuestion(url: string, base: string, segs: seq<string>)
    requires base == Base(url) && segs == Query(url) && '&' !in base && IndexOf(url, "?") >= 0
    ensures Free(base) && |segs| > 0 && Segmented(segs) && url == Url(base, segs)
  {
    var i := IndexOf(url, "?");
    FirstFree(url, '?');
    IndexOfHit(url, "?");
    AroundIndex(url, i, '?');
    JoinSplit(url[i + 1..]);
  }

  // ---------------------------------------------------------------- lists of names, none inside a segment

  /** No listed name follows a question mark inside a segment. */
  predicate Whole(segs: seq<string>, params: seq<string>) {
    forall p :: p in params ==> !HasInner(segs, p + "=")
  }

  /** The segments that are neither empty nor unwanted. */
  function Kept(segs: seq<string>, params: seq<string>): seq<string> {
    if |segs| == 0 then []
    else if segs[0] == "" || Unwanted(segs[0], params) then Kept(segs[1..], params)
    else [segs[0]] + Kept(segs[1..], params)
  }

  function Total(segs: seq<string>): nat {
    if |segs| == 0 then 0 else |segs[0]| + Total(segs[1..])
  }

  /** The last segment does not end in a question mark. */
  predicate EndsPlain(segs: seq<string>) { |segs| > 0 ==> Last(segs[|segs| - 1]) != "?" }

  lemma {:induction false} WithoutFirstKeeps(segs: seq<string>, p: string, params: seq<string>)
    requires |segs| > 0 && Segmented(segs) && p in params
    ensures Segmented(WithoutFirst(segs, p + "="))
    ensures Kept(WithoutFirst(segs, p + "="), params) == Kept(segs, params)
  {
    if p + "=" <= segs[0] {
      assert Unwanted(segs[0], params);
      assert |segs| == 1 ==> [""][1..] == segs[1..];
    } else if |segs| > 1 {
      WithoutFirstKeeps(segs[1..], p, params);
      var r := WithoutFirst(segs[1..], p + "=");
      assert ([segs[0]] + r)[1..] == r;
    }
  }

  lemma {:induction false} WithoutFirstWhole(segs: seq<string>, v: string, w: string)
    requires |segs| > 0 && !HasInner(segs, w)
    ensures !HasInner(WithoutFirst(segs, v), w)
  {
    if v <= segs[0] {
      assert |segs| == 1 ==> [""][1..] == [];
    } else if |segs| > 1 {
      WithoutFirstWhole(segs[1..], v, w);
      var r := WithoutFirst(segs[1..], v);
      assert ([segs[0]] + r)[1..] == r;
    }
  }

  lemma {:induction false} PassKeeps(base: string, segs: seq<string>, todo: seq<string>, params: seq<string>)
    returns (r: seq<string>)
    requires Free(base) && |segs| > 0 && Segmented(segs) && Whole(segs, params) && AllNames(todo)
    requires forall p :: p in todo ==> p in params
    ensures |r| > 0 && Segmented(r) && Whole(r, params) && Pass(Url(base, segs), todo).0 == Url(base, r)
    ensures Kept(r, params) == Kept(segs, params)
    decreases |todo|
  {
    if |todo| == 0 {
      r := segs;
    } else {
      assert todo[0] in todo;
      var next := WithoutFirst(segs, todo[0] + "=");
      RemoveOneOnSegments(base, segs, todo[0]);
      WithoutFirstKeeps(segs, todo[0], params);
      forall p | p in params ensures !HasInner(next, p + "=") {
        WithoutFirstWhole(segs, todo[0] + "=", p + "=");
      }
      r := PassKeeps(base, next, todo[1..], params);
    }
  }

  lemma ChopUnwanted(s: string, params: seq<string>)
    requires AllNames(params) && Unwanted(s, params)
    ensures Chop(s) != "" && Unwanted(Chop(s), params)
  {
    var p :| p in params && p + "=" <= s;
    ChopPrefix(s, p + "=");
  }

  lemma {:induction false} TrimKeeps(segs: seq<string>, params: seq<string>)
    requires |segs| > 0 && AllNames(params) && EndsPlain(Kept(segs, params))
    ensures Kept(TrimSegments(segs), params) == Kept(segs, params)
  {
    var s := segs[0];
    if |segs| > 1 {
      var k := Kept(segs[1..], params);
      assert |k| > 0 ==> Kept(segs, params)[|Kept(segs, params)| - 1] == k[|k| - 1];
      TrimKeeps(segs[1..], params);
      assert ([s] + TrimSegments(segs[1..]))[1..] == TrimSegments(segs[1..]);
    } else {
      assert segs[1..] == [];
      if Unwanted(s, params) {
        ChopUnwanted(s, params);
      }
      assert [Chop(s)][1..] == [];
    }
  }

  lemma {:induction false} TrimWhole(segs: seq<string>, w: string)
    requires |segs| > 0 && Word(w)
    ensures HasInner(TrimSegments(segs), w) <==> HasInner(segs, w)
  {
    if |segs| > 1 {
      TrimWhole(segs[1..], w);
      assert ([segs[0]] + TrimSegments(segs[1..]))[1..] == TrimSegments(segs[1..]);
    } else {
      assert segs[1..] == [] && [Chop(segs[0])][1..] == [];
      ChopInner(segs[0], w);
    }
  }

  lemma {:induction false} NoneUnwanted(segs: seq<string>, params: seq<string>)
    requires forall p :: p in params ==> !Hit(segs, p + "=")
    ensures Kept(segs, params) == NonEmpty(segs)
  {
    if |segs| > 0 {
      forall p | p in params ensures !(p + "=" <= segs[0]) && !Hit(segs[1..], p + "=") {}
      NoneUnwanted(segs[1..], params);
    }
  }

  lemma {:induction false} CleanedKeeps(base: string, segs: seq<string>, params: seq<string>) returns (r: seq<string>)
    requires Free(base) && |segs| > 0 && Segmented(segs) && AllNames(params) && Whole(segs, params)
    requires Pass(Url(base, segs), params).1 ==> EndsPlain(Kept(segs, params))
    ensures Segmented(r) && NonEmpty(r) == Kept(segs, params)
    ensures Cleaned(Url(base, segs), params) == if |r| == 0 then base else Url(base, r)
    decreases |Url(base, segs)|
  {
    if Pass(Url(base, segs), params).1 {
      var s := PassKeeps(base, segs, params, params);
      CleanedNext(base, segs, s, params);
      TrimKeeps(s, params);
      r := TrimSegments(s);
      if |r| > 0 {
        forall p | p in params ensures !HasInner(r, p + "=") {
          TrimWhole(s, p + "=");
        }
        r := CleanedKeeps(base, r, params);
      }
    } else {
      CleanedIdle(base, segs, params);
      NoneUnwanted(segs, params);
      r := segs;
    }
  }

  lemma {:induction false} WantedNonEmpty(segs: seq<string>, params: seq<string>)
    ensures Kept(segs, params) == Wanted(NonEmpty(segs), params)
  {
    if |segs| > 0 {
      WantedNonEmpty(segs[1..], params);
      if segs[0] == "" {
        assert NonEmpty(segs) == NonEmpty(segs[1..]);
        assert !Unwanted("", params);
      } else {
        assert NonEmpty(segs)[1..] == NonEmpty(segs[1..]);
      }
    }
  }

  /**
    For a URL with no ampersand before the query, meaning is kept - the part before the query stays, and the non-empty
    segments of the query are, in order, those of the original that are not named in the list - if no listed name
    follows a question mark inside a segment, and nothing is found or the last segment to stay does not end in a
    question mark.
   */
  lemma RemovalKeepsMeaning(url: string, params: seq<string>)
    requires '&' !in Base(url) && AllNames(params) && Whole(Query(url), params)
    requires (forall p :: p in params ==> Start(url, p) == -1) || EndsPlain(Wanted(Segments(url), params))
    ensures Base(Cleaned(url, params)) == Base(url)
    ensures Segments(Cleaned(url, params)) == Wanted(Segments(url), params)
  {
    if IndexOf(url, "?") >= 0 {
      var base, segs := Base(url), Query(url);
      AtQuestion(url, base, segs);
      WantedNonEmpty(segs, params);
      if Pass(url, params).1 && !EndsPlain(Wanted(Segments(url), params)) {
        PassIdle(url, params);
      }
      var r := CleanedKeeps(base, segs, params);
      ReadBase(base);
      if |r| > 0 {
        ReadUrl(base, r);
      }
    }
  }

  // ---------------------------------------------------------------- a name inside a segment to stay

  lemma {:induction false} NonEmptyIn(segs: seq<string>, s: string)
    requires s in NonEmpty(segs)
    ensures s in segs
  {
    if s != segs[0] {
      NonEmptyIn(segs[1..], s);
    }
  }

  lemma SegmentFound(url: string, s: string, pat: string)
    requires s in Segments(url) && IndexOf(s, pat) >= 0
    ensures IndexOf(url, pat) >= 0
  {
    var i := IndexOf(url, "?");
    NonEmptyIn(Query(url), s);
    var a, b := SplitPart(url[i + 1..], s);
    Prefixed(url, i + 1, a, s, b);
    FoundInside(url[..i + 1] + a, s, b, pat);
  }

  /** Meaning is lost, in any URL and with any list, if a segment to stay holds a listed name behind a question mark. */
  lemma RemovalLosesMeaning(url: string, params: seq<string>, s: string, p: string)
    requires s in Wanted(Segments(url), params) && p in params && Inner(s, p + "=")
    ensures Segments(Cleaned(url, params)) != Wanted(Segments(url), params)
  {
    var r := Cleaned(url, params);
    NothingLeft(url, params);
    if s in Segments(r) {
      assert "?" + (p + "=") == "?" + p + "=";
      SegmentFound(r, s, "?" + p + "=");
    }
  }

  // ---------------------------------------------------------------- what goes

  lemma FoundFirst(front: string, mark: string, s: string, b: string, w: string)
    requires w <= s
    ensures IndexOf(front + (mark + s) + b, mark + w) >= 0
  {
    var t := mark + s;
    assert mark + w <= t by { assert s == w + s[|w|..]; }
    assert t[0..] == t;
    FoundAt(t, mark + w, 0);
    FoundInside(front, t, b, mark + w);
  }

  lemma Assembled(base: string, a: string, s: string, b: string)
    ensures base + "?" + (s + b) == base + ("?" + s) + b
    ensures base + "?" + (a + "&" + s + b) == (base + "?" + a) + ("&" + s) + b
  {}

  /** A segment that begins with a name is found. */
  lemma NamedFound(url: string, s: string, p: string)
    requires s in Query(url) && p + "=" <= s
    ensures Start(url, p) > -1
  {
    var i, w := IndexOf(url, "?"), p + "=";
    IndexOfHit(url, "?");
    AroundIndex(url, i, '?');
    assert "?" + p + "=" == "?" + w && "&" + p + "=" == "&" + w;
    var a, b := SplitPart(url[i + 1..], s);
    NamedBehind(url, url[..i], url[i + 1..], a, s, b, w);
  }

  lemma NamedBehind(url: string, base: string, q: string, a: string, s: string, b: string, w: string)
    requires url == base + "?" + q && q == a + s + b && (a == "" || a[|a| - 1] == '&') && w <= s
    ensures IndexOf(url, "?" + w) >= 0 || IndexOf(url, "&" + w) >= 0
  {
    if a == "" {
      assert q == s + b;
      Assembled(base, a, s, b);
      FoundFirst(base, "?", s, b, w);
    } else {
      var front := a[..|a| - 1];
      assert a == front + "&";
      Assembled(base, front, s, b);
      FoundFirst(base + "?" + front, "&", s, b, w);
    }
  }

  /** No segment of a cleaned query begins with a listed name, whatever the URL. */
  lemma NoneNamed(url: string, params: seq<string>)
    ensures forall s, p :: s in Query(Cleaned(url, params)) && p in params ==> !(p + "=" <= s)
  {
    var r := Cleaned(url, params);
    NothingLeft(url, params);
    forall s, p | s in Query(r) && p in params ensures !(p + "=" <= s) {
      if p + "=" <= s {
        NamedFound(r, s, p);
      }
    }
  }

  const RESET_NAMES: seq<string> := ["lt", "error_message", "get-lt"]

  /** Whatever the URL, no segment of the query that is left begins with one of the three names. */
  method ResetUrl(casUrl: Option<string>) returns (r: Option<string>)
    ensures r == if casUrl.None? then None else Some(Cleaned(casUrl.value, ["lt", "error_message", "get-lt"]))
    ensures r.Some? ==>
      forall s :: s in Query(r.value) ==> !("lt=" <= s) && !("error_message=" <= s) && !("get-lt=" <= s)
  {
    r := RemoveHttpGetParameters(casUrl, RESET_NAMES);
    if casUrl.Some? {
      NoneNamed(casUrl.value, RESET_NAMES);
      assert RESET_NAMES[0] in RESET_NAMES && RESET_NAMES[1] in RESET_NAMES && RESET_NAMES[2] in RESET_NAMES;
      assert "lt" + "=" == "lt=" && "error_message" + "=" == "error_message=" && "get-lt" + "=" == "get-lt=";
    }
  }

  // ---------------------------------------------------------------- the part before the query

  lemma {:induction false} PassShape(base: string, segs: seq<string>, todo: seq<string>) returns (r: seq<string>)
    requires Free(base) && |segs| > 0 && Segmented(segs) && AllNames(todo)
    ensures |r| > 0 && Segmented(r) && Pass(Url(base, segs), todo).0 == Url(base, r)
    decreases |todo|
  {
    if |todo| == 0 {
      r := segs;
    } else {
      RemoveOneOnSegments(base, segs, todo[0]);
      RemovedSegmented(segs, todo[0] + "=");
      r := PassShape(base, Removed(segs, todo[0] + "="), todo[1..]);
    }
  }

  lemma {:induction false} CleanedShape(base: string, segs: seq<string>, params: seq<string>)
    requires Free(base) && |segs| > 0 && Segmented(segs) && AllNames(params)
    ensures Base(Cleaned(Url(base, segs), params)) == base
    decreases |Url(base, segs)|
  {
    if Pass(Url(base, segs), params).1 {
      var s := PassShape(base, segs, params);
      CleanedNext(base, segs, s, params);
      ReadBase(base);
      if |TrimSegments(s)| > 0 {
        CleanedShape(base, TrimSegments(s), params);
      }
    } else {
      CleanedIdle(base, segs, params);
      ReadUrl(base, segs);
    }
  }

  /** The part before the query stays in any case. */
  lemma BaseKept(url: string, params: seq<string>)
    requires '&' !in Base(url) && AllNames(params)
    ensures Base(Cleaned(url, params)) == Base(url)
  {
    if IndexOf(url, "?") >= 0 {
      AtQuestion(url, Base(url), Query(url));
      CleanedShape(Base(url), Query(url), params);
    }
  }
}
