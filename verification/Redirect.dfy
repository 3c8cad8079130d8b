/** The redirect URL that `Response.getRedirectResponse` prints, against a reader of URLs. */
module Redirect {
  import UrlEncoding
  import opened JavaStrings
  import opened Wrappers

  // ---------------------------------------------------------------- sanitizing

  /** The class of the pattern: code points 0 to hexadecimal 19, and 7F. */
  predicate NonPrintable(c: char) { c <= '\U{19}' || c == '\U{7F}' }

  /** The length of the run of such characters at the front. */
  function RunLength(s: string): (n: nat)
    ensures n <= |s|
    ensures forall i :: 0 <= i < n ==> NonPrintable(s[i])
    ensures n < |s| ==> !NonPrintable(s[n])
  {
    if |s| == 0 || !NonPrintable(s[0]) then 0 else 1 + RunLength(s[1..])
  }

  /** Each longest run becomes one space. */
  function Sanitized(s: string): string
    decreases |s|
  {
    if |s| == 0 then ""
    else if NonPrintable(s[0]) then " " + Sanitized(s[RunLength(s)..])
    else [s[0]] + Sanitized(s[1..])
  }

  /** The matcher loop: text up to the next run, then a space; the tail at the end. */
  method SanitizeUrl(url: string) returns (r: string)
    ensures r == Sanitized(url)
  {
    r := "";
    var from := 0;
    var at := 0;
    while at < |url|
      invariant 0 <= from <= at <= |url|
      invariant forall i :: from <= i < at ==> !NonPrintable(url[i])
      invariant Sanitized(url) == r + Sanitized(url[from..])
      decreases |url| - at
    {
      if NonPrintable(url[at]) {
        var end := at + RunLength(url[at..]);
        PlainText(url, from, at);
        RunText(url, at, end);
        Assembled(r, url[from..at], " ", Sanitized(url[end..]));
        r := r + url[from..at] + " ";
        from, at := end, end;
      } else {
        at := at + 1;
      }
    }
    PlainText(url, from, |url|);
    r := r + url[from..];
  }

  lemma {:induction false} PlainFront(a: string, t: string)
    requires forall i :: 0 <= i < |a| ==> !NonPrintable(a[i])
    ensures Sanitized(a + t) == a + Sanitized(t)
  {
    if |a| == 0 {
      assert a + t == t;
    } else {
      PlainFront(a[1..], t);
      assert (a + t)[1..] == a[1..] + t;
      assert a == [a[0]] + a[1..];
    }
  }

  lemma PlainText(s: string, from: nat, at: nat)
    requires from <= at <= |s| && forall i :: from <= i < at ==> !NonPrintable(s[i])
    ensures Sanitized(s[from..]) == s[from..at] + Sanitized(s[at..])
  {
    PlainFront(s[from..at], s[at..]);
    assert s[from..] == s[from..at] + s[at..];
  }

  lemma RunStart(u: string)
    requires |u| > 0 && NonPrintable(u[0])
    ensures RunLength(u) > 0 && Sanitized(u) == " " + Sanitized(u[RunLength(u)..])
  {}

  lemma RunText(s: string, at: nat, end: nat)
    requires at < |s| && NonPrintable(s[at]) && end == at + RunLength(s[at..])
    ensures at < end && Sanitized(s[at..]) == " " + Sanitized(s[end..])
  {
    RunStart(s[at..]);
    DropTwice(s, at, end - at);
  }

  lemma Assembled(r: string, a: string, b: string, c: string)
    ensures r + (a + (b + c)) == r + a + b + c
  {}

  lemma {:induction false} RunIs(u: string, v: string)
    requires (forall c :: c in u ==> NonPrintable(c)) && (v == "" || !NonPrintable(v[0]))
    ensures RunLength(u + v) == |u|
  {
    if |u| == 0 {
      assert u + v == v;
    } else {
      assert u[0] in u && (u + v)[1..] == u[1..] + v;
      RunIs(u[1..], v);
    }
  }

  /**
    What becomes of any text: what precedes the first run of such characters stays, the whole run becomes one space,
    and so on behind it.
   */
  lemma SanitizedRun(a: string, u: string, v: string)
    requires (forall c :: c in a ==> !NonPrintable(c)) && (forall c :: c in u ==> NonPrintable(c))
    requires v == "" || !NonPrintable(v[0])
    ensures Sanitized(a + u + v) == a + (if u == "" then "" else " ") + Sanitized(v)
  {
    assert a + u + v == a + (u + v);
    PlainFront(a, u + v);
    if u == "" {
      assert u + v == v;
    } else {
      RunIs(u, v);
      assert u[0] in u && (u + v)[|u|..] == v;
      RunStart(u + v);
    }
  }

  /** No character of the class is left, and the others but the space are neither lost nor made. */
  lemma {:induction false} SanitizedClean(s: string)
    ensures forall c :: c in Sanitized(s) ==> !NonPrintable(c)
    ensures forall c :: c != ' ' && !NonPrintable(c) ==> (c in Sanitized(s) <==> c in s)
    decreases |s|
  {
    if |s| > 0 {
      if NonPrintable(s[0]) {
        var n := RunLength(s);
        SanitizedClean(s[n..]);
        assert s == s[..n] + s[n..];
        assert forall c :: c in s[..n] ==> NonPrintable(c);
      } else {
        SanitizedClean(s[1..]);
        assert s == [s[0]] + s[1..];
      }
    }
  }

  /** A URL without such characters is left alone, so sanitizing twice is sanitizing once. */
  lemma SanitizedTwice(s: string)
    ensures (forall c :: c in s ==> !NonPrintable(c)) ==> Sanitized(s) == s
    ensures Sanitized(Sanitized(s)) == Sanitized(s)
  {
    if forall c :: c in s ==> !NonPrintable(c) {
      PlainWhole(s);
    }
    SanitizedClean(s);
    PlainWhole(Sanitized(s));
  }

  lemma PlainWhole(s: string)
    requires forall c :: c in s ==> !NonPrintable(c)
    ensures Sanitized(s) == s
  {
    PlainText(s, 0, |s|);
    assert s[0..] == s && s[0..|s|] == s;
  }

  /** The class ends at hexadecimal 19: an unprintable character is left exactly if the input holds one of 1A to 1F. */
  lemma EscapeStays(s: string)
    ensures (exists c :: c in Sanitized(s) && (c < ' ' || c == '\U{7F}'))
         <==> exists c :: c in s && '\U{1A}' <= c <= '\U{1F}'
  {
    SanitizedClean(s);
    forall c ensures c in Sanitized(s) && (c < ' ' || c == '\U{7F}') <==> c in s && '\U{1A}' <= c <= '\U{1F}' {
      assert c < ' ' <==> c <= '\U{1F}';
      assert NonPrintable(c) || c < ' ' ==> c != ' ';
    }
  }

  // ---------------------------------------------------------------- splitting at the fragment

  function Pieces(s: string): (ps: seq<string>)
    ensures |ps| > 0
    decreases |s|
  {
    var i := IndexOf(s, "#");
    if i < 0 then [s] else [s[..i]] + Pieces(s[i + 1..])
  }

  function WithoutTrailingEmpty(ps: seq<string>): seq<string> {
    if |ps| > 0 && ps[|ps| - 1] == "" then WithoutTrailingEmpty(ps[..|ps| - 1]) else ps
  }

  /** `split("#")`: trailing empty pieces are dropped, but a text without `#` is its own single piece. */
  function SplitHash(s: string): seq<string> {
    if IndexOf(s, "#") < 0 then [s] else WithoutTrailingEmpty(Pieces(s))
  }

  /** What precedes the fragment (section 3.5 of RFC 3986). */
  function BeforeFragment(s: string): string {
    var i := IndexOf(s, "#");
    if i < 0 then s else s[..i]
  }

  function Fragment(s: string): Option<string> {
    var i := IndexOf(s, "#");
    if i < 0 then None else Some(s[i + 1..])
  }

  predicate OnlyHashes(s: string) { |s| > 0 && forall i :: 0 <= i < |s| ==> s[i] == '#' }

  lemma {:induction false} TrimmedPrefix(ps: seq<string>)
    ensures WithoutTrailingEmpty(ps) <= ps
    ensures WithoutTrailingEmpty(ps) == [] <==> forall p :: p in ps ==> p == ""
    ensures |ps| > 0 ==> (|WithoutTrailingEmpty(ps)| <= 1 <==> forall p :: p in ps[1..] ==> p == "")
  {
    assert |ps| > 0 ==> ps[|ps| - 1] in ps;
    assert |ps| > 1 ==> ps[1..][|ps| - 2] == ps[|ps| - 1] && ps[1..][|ps| - 2] in ps[1..];
    if |ps| > 0 && ps[|ps| - 1] == "" {
      var init := ps[..|ps| - 1];
      TrimmedPrefix(init);
      assert ps == init + [""];
      assert forall p :: p in ps <==> p in init || p == "";
      if |ps| > 1 {
        assert ps[1..] == init[1..] + [""];
        assert forall p :: p in ps[1..] <==> p in init[1..] || p == "";
      }
    }
  }

  lemma {:induction false} EmptyPieces(s: string)
    ensures (forall p :: p in Pieces(s) ==> p == "") <==> s == "" || OnlyHashes(s)
    decreases |s|
  {
    var i := IndexOf(s, "#");
    NoHashBefore(s);
    if i >= 0 {
      EmptyPieces(s[i + 1..]);
      IndexOfHit(s, "#");
      AllEmptyCons(s[..i], Pieces(s[i + 1..]));
      assert s[i] == s[i..][0] == '#';
      if i == 0 {
        HashesBehind(s);
        assert s[..i] == "" && s[i + 1..] == s[1..];
        assert OnlyHashes(s) <==> forall p :: p in Pieces(s[1..]) ==> p == "";
      } else {
        assert s[..i][0] == s[0] && s[0] in s[..i];
        assert !OnlyHashes(s);
      }
    } else {
      assert s in Pieces(s);
      assert |s| > 0 ==> s[0] in s;
    }
  }

  lemma AllEmptyCons(p: string, rest: seq<string>)
    ensures (forall q :: q in [p] + rest ==> q == "") <==> p == "" && forall q :: q in rest ==> q == ""
  {
    assert p in [p] + rest;
    forall q | q in rest ensures q in [p] + rest {
      var i :| 0 <= i < |rest| && rest[i] == q;
      assert ([p] + rest)[i + 1] == q;
    }
  }

  lemma HashesBehind(s: string)
    requires |s| > 0 && s[0] == '#'
    ensures OnlyHashes(s) <==> s[1..] == "" || OnlyHashes(s[1..])
  {
    forall i | 1 <= i < |s| ensures s[i] == s[1..][i - 1] {}
  }

  lemma NoHashBefore(s: string)
    ensures '#' !in BeforeFragment(s)
  {
    FirstFree(s, '#');
  }

  /** The split fails to have a first piece exactly for texts of nothing but `#`. */
  lemma FirstPiece(s: string)
    ensures |SplitHash(s)| == 0 <==> OnlyHashes(s)
    ensures |SplitHash(s)| > 0 ==> SplitHash(s)[0] == BeforeFragment(s)
  {
    EmptyPieces(s);
    TrimmedPrefix(Pieces(s));
    NoHashBefore(s);
    assert |s| > 0 ==> s[0] in s;
    if IndexOf(s, "#") >= 0 {
      assert Pieces(s)[0] == BeforeFragment(s);
      IndexOfHit(s, "#");
    }
  }

  /** The second piece is the fragment up to its own first `#`; it is there unless the fragment is empty or only `#`. */
  lemma SecondPiece(s: string)
    ensures |SplitHash(s)| > 1 <==> Fragment(s).Some? && Fragment(s).value != "" && !OnlyHashes(Fragment(s).value)
    ensures |SplitHash(s)| > 1 ==> SplitHash(s)[1] == BeforeFragment(Fragment(s).value)
  {
    var i := IndexOf(s, "#");
    if i >= 0 {
      var f := s[i + 1..];
      TrimmedCons(s[..i], Pieces(f));
      EmptyPieces(f);
      assert Pieces(f)[0] == BeforeFragment(f);
    }
  }

  lemma TrimmedCons(p: string, rest: seq<string>)
    requires |rest| > 0
    ensures var t := WithoutTrailingEmpty([p] + rest);
            && (|t| <= 1 <==> forall q :: q in rest ==> q == "")
            && (|t| > 1 ==> t[1] == rest[0])
  {
    TrimmedPrefix([p] + rest);
    assert ([p] + rest)[1..] == rest;
  }

  // ---------------------------------------------------------------- printing

  /** A map entry; the value may be null. */
  type Parameter = (string, Option<string>)

  function Given(ps: seq<Parameter>): (r: seq<(string, string)>) {
    if |ps| == 0 then []
    else
      Given(ps[..|ps| - 1])
      + match ps[|ps| - 1].1 case None => [] case Some(v) => [(ps[|ps| - 1].0, v)]
  }

  type Encoder = string -> string

  function Printed(enc: Encoder, gs: seq<(string, string)>): (segs: seq<string>)
    ensures |segs| == |gs|
    ensures forall i :: 0 <= i < |gs| ==> segs[i] == gs[i].0 + "=" + enc(gs[i].1)
  {
    if |gs| == 0 then []
    else Printed(enc, gs[..|gs| - 1]) + [gs[|gs| - 1].0 + "=" + enc(gs[|gs| - 1].1)]
  }

  /** The parameters as appended to the part before the fragment. */
  function Suffix(enc: Encoder, marked: bool, gs: seq<(string, string)>): string {
    if |gs| == 0 then "" else (if marked then "&" else "?") + Join(Printed(enc, gs))
  }

  datatype Result = Ok(url: string) | OutOfBounds

  function RedirectUrl(enc: Encoder, url: string, ps: seq<Parameter>): Result {
    var pieces := SplitHash(Sanitized(url));
    if |pieces| == 0 then OutOfBounds
    else
      Ok(pieces[0] + Suffix(enc, '?' in url, Given(ps)) + if |pieces| > 1 then "#" + pieces[1] else "")
  }

  lemma {:induction false} JoinConcat(a: seq<string>, b: seq<string>)
    requires |a| > 0 && |b| > 0
    ensures Join(a + b) == Join(a) + ("&" + Join(b))
  {
    assert a + b == [a[0]] + (a[1..] + b);
    if |a| == 1 {
      assert a[1..] + b == b;
      JoinCons(a[0], b);
      Regroup(a[0], "&", Join(b));
    } else {
      JoinConcat(a[1..], b);
      JoinCons(a[0], a[1..] + b);
      Regroup(a[0] + "&", Join(a[1..]), "&" + Join(b));
    }
  }

  lemma SuffixNext(enc: Encoder, marked: bool, gs: seq<(string, string)>, g: (string, string))
    ensures Suffix(enc, marked, gs + [g])
         == Suffix(enc, marked, gs) + (if |gs| > 0 then "&" else if marked then "&" else "?") + g.0 + "=" + enc(g.1)
  {
    assert (gs + [g])[..|gs|] == gs;
    var segs, seg := Printed(enc, gs), g.0 + "=" + enc(g.1);
    var mark := if marked then "&" else "?";
    assert Printed(enc, gs + [g]) == segs + [seg];
    if |gs| == 0 {
      assert segs + [seg] == [seg];
      Glue("", mark, g.0, enc(g.1));
      assert "" + mark == mark;
    } else {
      JoinConcat(segs, [seg]);
      Regroup(mark, Join(segs), "&" + seg);
      Glue(mark + Join(segs), "&", g.0, enc(g.1));
    }
  }

  lemma Glue(a: string, c: string, k: string, v: string)
    ensures a + (c + (k + "=" + v)) == a + c + k + "=" + v
    ensures a + c + (k + "=" + v) == a + c + k + "=" + v
  {}

  lemma GivenNext(ps: seq<Parameter>, i: nat)
    requires i < |ps|
    ensures ps[i].1.None? ==> Given(ps[..i + 1]) == Given(ps[..i])
    ensures ps[i].1.Some? ==> Given(ps[..i + 1]) == Given(ps[..i]) + [(ps[i].0, ps[i].1.value)]
  {
    assert ps[..i + 1][..i] == ps[..i];
  }

  /** The printing loop; `parameters` lists the map's entries in its own order. */
  method AppendParameters(enc: Encoder, start: string, marked: bool, parameters: seq<Parameter>)
    returns (builder: string)
    ensures builder == start + Suffix(enc, marked, Given(parameters))
  {
    builder := start;
    var isFirst := true;
    for i := 0 to |parameters|
      invariant isFirst <==> |Given(parameters[..i])| == 0
      invariant builder == start + Suffix(enc, marked, Given(parameters[..i]))
    {
      GivenNext(parameters, i);
      var (key, value) := parameters[i];
      if value.Some? {
        builder := AppendEntry(enc, builder, start, marked, isFirst, Given(parameters[..i]), key, value.value);
        isFirst := false;
      }
    }
    assert parameters[..|parameters|] == parameters;
  }

  method AppendEntry(enc: Encoder, builder: string, ghost start: string, marked: bool, isFirst: bool,
                     ghost gs: seq<(string, string)>, key: string, value: string) returns (r: string)
    requires isFirst <==> |gs| == 0
    requires builder == start + Suffix(enc, marked, gs)
    ensures r == start + Suffix(enc, marked, gs + [(key, value)])
  {
    SuffixNext(enc, marked, gs, (key, value));
    var separator := "&";
    if isFirst {
      separator := if marked then "&" else "?";
    }
    r := AppendOne(builder, start, Suffix(enc, marked, gs), separator, key, enc(value));
  }

  method AppendOne(builder: string, ghost start: string, ghost suffix: string, separator: string, key: string,
                   value: string) returns (r: string)
    requires builder == start + suffix
    ensures r == start + (suffix + separator + key + "=" + value)
  {
    r := builder + separator;
    r := r + key;
    r := r + "=";
    r := r + value;
  }

  method GetRedirectResponse(enc: Encoder, url: string, parameters: seq<Parameter>) returns (r: Result)
    ensures r == RedirectUrl(enc, url, parameters)
  {
    var sanitized := SanitizeUrl(url);
    var fragmentSplit := SplitHash(sanitized);
    if |fragmentSplit| == 0 {
      return OutOfBounds;
    }
    var builder := AppendParameters(enc, fragmentSplit[0], '?' in url, parameters);
    if |fragmentSplit| > 1 {
      builder := builder + ("#" + fragmentSplit[1]);
    }
    return Ok(builder);
  }

  // ---------------------------------------------------------------- reading the result back

  /** The query of a text without fragment: what is behind the first question mark. */
  function QueryIn(head: string): Option<string> {
    var i := IndexOf(head, "?");
    if i < 0 then None else Some(head[i + 1..])
  }

  function PathIn(head: string): string {
    var i := IndexOf(head, "?");
    if i < 0 then head else head[..i]
  }

  function SegmentsIn(head: string): seq<string> {
    match QueryIn(head) case None => [] case Some(q) => Split(q)
  }

  /** The segments of a URL's query (section 3.4 of RFC 3986), and its part before the query. */
  function QuerySegments(u: string): seq<string> { SegmentsIn(BeforeFragment(u)) }

  function Path(u: string): string { PathIn(BeforeFragment(u)) }

  /** Name and decoded value of a query segment. */
  function ParseSegment(dec: Encoder, seg: string): (string, string) {
    var i := IndexOf(seg, "=");
    if i < 0 then (seg, "") else (seg[..i], dec(seg[i + 1..]))
  }

  predicate Safe(s: string) { '&' !in s && '=' !in s && '?' !in s && '#' !in s }

  /** What is assumed of the encoder and its inverse. */
  ghost predicate Lawful(enc: Encoder, dec: Encoder) {
    forall v :: dec(enc(v)) == v && Safe(enc(v))
  }

  lemma EncodedLawful(v: string, e: string)
    requires e == UrlEncoding.Encode(v)
    ensures UrlEncoding.Decode(e) == v && Safe(e)
  {
    UrlEncoding.RoundTrip(v);
    UrlEncoding.EncodedFree(v, '&');
    UrlEncoding.EncodedFree(v, '=');
    UrlEncoding.EncodedFree(v, '?');
    UrlEncoding.EncodedFree(v, '#');
  }

  /** `URLEncoder` meets it. */
  lemma EncoderLawful()
    ensures Lawful(UrlEncoding.Encode, UrlEncoding.Decode)
  {
    forall v ensures UrlEncoding.Decode(UrlEncoding.Encode(v)) == v && Safe(UrlEncoding.Encode(v)) {
      EncodedLawful(v, UrlEncoding.Encode(v));
    }
  }

  /** No parameter name, which the code prints as it is, holds the character. */
  predicate NoneNamed(gs: seq<(string, string)>, c: char) {
    forall i :: 0 <= i < |gs| ==> c !in gs[i].0
  }

  lemma {:induction false} SplitAppend(q: string, segs: seq<string>)
    requires |segs| > 0 && forall i :: 0 <= i < |segs| ==> '&' !in segs[i]
    ensures Split(q + ("&" + Join(segs))) == Split(q) + segs
    decreases |q|
  {
    var t := "&" + Join(segs);
    if '&' in q {
      EarlyHit(q, "", "&");
      var i := IndexOf(q, "&");
      IndexOfHit(q, "&");
      FirstFree(q, '&');
      AroundIndex(q, i, '&');
      var a, b := q[..i], q[i + 1..];
      SplitAppend(b, segs);
      SplitOnce(a, b);
      SplitOnce(a, b + t);
      Regroup(a + "&", b, t);
      Onward(a, Split(b), segs);
    } else {
      SplitJoin(segs);
      NoHit(q, "&");
      SplitOnce(q, Join(segs));
      Regroup(q, "&", Join(segs));
    }
  }

  lemma SplitOnce(a: string, b: string)
    requires '&' !in a
    ensures Split(a + "&" + b) == [a] + Split(b)
  {
    FirstAmpersand(a, b);
    var u := a + "&" + b;
    assert u[..|a|] == a && u[|a| + 1..] == b;
  }

  lemma Onward(a: string, x: seq<string>, y: seq<string>)
    ensures [a] + (x + y) == ([a] + x) + y
  {}

  lemma PrintedSafe(enc: Encoder, dec: Encoder, gs: seq<(string, string)>, i: nat)
    requires Lawful(enc, dec) && i < |gs|
    ensures var k, seg := gs[i].0, Printed(enc, gs)[i];
            && ('&' in seg <==> '&' in k) && ('#' in seg <==> '#' in k)
            && (ParseSegment(dec, seg) == gs[i] <==> '=' !in k)
  {
    var k, v := gs[i].0, enc(gs[i].1);
    assert Safe(v) && dec(v) == gs[i].1;
    var seg := k + "=" + v;
    assert seg == k + ("=" + v);
    if '=' in k {
      EarlyHit(k, "=" + v, "=");
    } else {
      Skip(k, "=" + v, "=");
      assert seg[..|k|] == k && seg[|k| + 1..] == v;
    }
  }

  lemma {:induction false} JoinFreeOf(segs: seq<string>, c: char)
    requires |segs| > 0 && c != '&'
    ensures c in Join(segs) <==> exists i :: 0 <= i < |segs| && c in segs[i]
  {
    if |segs| > 1 {
      JoinFreeOf(segs[1..], c);
      assert forall i :: 1 <= i < |segs| ==> segs[i] == segs[1..][i - 1];
      assert forall i :: 0 <= i < |segs[1..]| ==> segs[1..][i] == segs[i + 1];
    }
  }

  /** The parameters hold a hash exactly if some name does. */
  lemma SuffixHash(enc: Encoder, dec: Encoder, marked: bool, gs: seq<(string, string)>)
    requires Lawful(enc, dec)
    ensures '#' !in Suffix(enc, marked, gs) <==> NoneNamed(gs, '#')
    ensures Segmented(Printed(enc, gs)) <==> NoneNamed(gs, '&')
  {
    var segs := Printed(enc, gs);
    forall i | 0 <= i < |gs|
      ensures ('#' in segs[i] <==> '#' in gs[i].0) && ('&' in segs[i] <==> '&' in gs[i].0) {
      PrintedSafe(enc, dec, gs, i);
    }
    if |gs| > 0 {
      JoinFreeOf(segs, '#');
    }
  }

  /** A head with a query gets the parameters behind it. */
  lemma AppendedQuery(head: string, t: string)
    requires '?' in head
    ensures QueryIn(head).Some? && QueryIn(head + t) == Some(QueryIn(head).value + t)
    ensures PathIn(head + t) == PathIn(head)
  {
    EarlyHit(head, t, "?");
    var i := IndexOf(head, "?");
    TakeDrop(head, t, i);
  }

  lemma TakeDrop(s: string, t: string, i: nat)
    requires i < |s|
    ensures (s + t)[..i] == s[..i] && (s + t)[i + 1..] == s[i + 1..] + t
  {}

  /** A head without one gets a query of the parameters. */
  lemma FreshQuery(head: string, j: string)
    requires '?' !in head
    ensures QueryIn(head).None? && QueryIn(head + ("?" + j)) == Some(j)
    ensures PathIn(head + ("?" + j)) == PathIn(head)
  {
    var t := "?" + j;
    NoHit(head, "?");
    Skip(head, t, "?");
    assert t[..1] == "?";
    assert (head + t)[..|head|] == head && (head + t)[|head| + 1..] == j;
  }

  lemma HeadSegments(enc: Encoder, dec: Encoder, head: string, marked: bool, gs: seq<(string, string)>)
    requires Lawful(enc, dec) && NoneNamed(gs, '&') && (marked <==> '?' in head)
    ensures var u := head + Suffix(enc, marked, gs);
            SegmentsIn(u) == SegmentsIn(head) + Printed(enc, gs) && PathIn(u) == PathIn(head)
  {
    SuffixHash(enc, dec, marked, gs);
    if |gs| == 0 {
      NothingAppended(enc, head, marked, gs);
    } else if marked {
      AppendedQuery(head, "&" + Join(Printed(enc, gs)));
      SplitAppend(QueryIn(head).value, Printed(enc, gs));
    } else {
      FreshQuery(head, Join(Printed(enc, gs)));
      SplitJoin(Printed(enc, gs));
    }
  }

  lemma NothingAppended(enc: Encoder, head: string, marked: bool, gs: seq<(string, string)>)
    requires |gs| == 0
    ensures head + Suffix(enc, marked, gs) == head && SegmentsIn(head) + Printed(enc, gs) == SegmentsIn(head)
  {}

  /** The length of the query read from a text. */
  lemma QueryLength(u: string)
    ensures |SegmentsIn(u)| > 0 ==> |Join(SegmentsIn(u))| == |u| - |PathIn(u)| - 1
  {
    if QueryIn(u).Some? {
      JoinSplit(QueryIn(u).value);
    }
  }

  lemma PathLonger(head: string, t: string)
    requires '?' !in head
    ensures |PathIn(head + t)| >= |head|
    ensures |t| > 0 && t[0] != '?' ==> |PathIn(head + t)| > |head|
  {
    Skip(head, t, "?");
    if |t| > 0 && t[0] != '?' {
      Skip(head + t[..1], t[1..], "?");
      assert head + t[..1] + t[1..] == head + t;
    }
  }

  /** A query that would read back right has the length of all segments with their separators. */
  lemma ExpectedLength(enc: Encoder, head: string, gs: seq<(string, string)>)
    requires |gs| > 0
    ensures var expected := SegmentsIn(head) + Printed(enc, gs);
            |Join(expected)| == (if '?' in head then |head| - |PathIn(head)| else 0) + |Join(Printed(enc, gs))|
  {
    QueryLength(head);
    if '?' in head {
      EarlyHit(head, "", "?");
      JoinConcat(SegmentsIn(head), Printed(enc, gs));
    } else {
      NoHit(head, "?");
      assert [] + Printed(enc, gs) == Printed(enc, gs);
    }
  }

  /**
    Cut off within the parameters, or printed behind an ampersand with no question mark before it, the parameters cannot
    read back right: the query is too short.
   */
  lemma TooShort(enc: Encoder, head: string, marked: bool, gs: seq<(string, string)>, t: string)
    requires |gs| > 0 && ('?' in head ==> marked) && t <= Suffix(enc, marked, gs)
    requires |t| < |Suffix(enc, marked, gs)| || (marked && '?' !in head)
    ensures SegmentsIn(head + t) != SegmentsIn(head) + Printed(enc, gs)
  {
    var u := head + t;
    QueryLength(u);
    ExpectedLength(enc, head, gs);
    assert |SegmentsIn(head) + Printed(enc, gs)| > 0;
    if '?' in head {
      AppendedQuery(head, t);
    } else {
      PathLonger(head, t);
    }
  }

  lemma WithTail(head: string, tail: string)
    requires '#' !in head && (tail == "" || tail[0] == '#')
    ensures BeforeFragment(head + tail) == head
    ensures Fragment(head + tail) == if tail == "" then None else Some(tail[1..])
  {
    if tail == "" {
      assert head + tail == head;
      NoHit(head, "#");
    } else {
      Skip(head, tail, "#");
      assert tail[..1] == "#";
      assert (head + tail)[..|head|] == head && (head + tail)[|head| + 1..] == tail[1..];
    }
  }

  /** Printing raises an exception exactly when the sanitized URL is nothing but `#`. */
  lemma RedirectFails(enc: Encoder, url: string, ps: seq<Parameter>)
    ensures RedirectUrl(enc, url, ps).OutOfBounds? <==> OnlyHashes(Sanitized(url))
  {
    FirstPiece(Sanitized(url));
  }

  /** What is printed behind the parameters. */
  function TailOf(s: string): string {
    if |SplitHash(s)| > 1 then "#" + SplitHash(s)[1] else ""
  }

  /** The printed URL is made of the part before the fragment, the parameters, and what is left of the fragment. */
  lemma PrintedParts(enc: Encoder, url: string, ps: seq<Parameter>)
    requires RedirectUrl(enc, url, ps).Ok?
    ensures var s := Sanitized(url);
            RedirectUrl(enc, url, ps).url == BeforeFragment(s) + Suffix(enc, '?' in s, Given(ps)) + TailOf(s)
  {
    SanitizedClean(url);
    FirstPiece(Sanitized(url));
  }

  /** How much of the parameters precedes the fragment: all, unless a name holds a hash. */
  lemma PrintedHead(enc: Encoder, dec: Encoder, url: string, ps: seq<Parameter>) returns (k: nat)
    requires Lawful(enc, dec) && RedirectUrl(enc, url, ps).Ok?
    ensures var s, r := Sanitized(url), RedirectUrl(enc, url, ps).url;
            var t := Suffix(enc, '?' in s, Given(ps));
            && k <= |t| && BeforeFragment(r) == BeforeFragment(s) + t[..k]
            && (|t| > 0 ==> k > 0) && (k == |t| <==> NoneNamed(Given(ps), '#'))
  {
    var s := Sanitized(url);
    var t := Suffix(enc, '?' in s, Given(ps));
    PrintedParts(enc, url, ps);
    NoHashBefore(s);
    SuffixHash(enc, dec, '?' in s, Given(ps));
    k := HeadCut(BeforeFragment(s), t, TailOf(s));
  }

  lemma HeadCut(head: string, t: string, tail: string) returns (k: nat)
    requires '#' !in head && (tail == "" || tail[0] == '#') && (t == "" || t[0] != '#')
    ensures k <= |t| && BeforeFragment(head + t + tail) == head + t[..k]
    ensures (|t| > 0 ==> k > 0) && (k == |t| <==> '#' !in t)
  {
    if '#' in t {
      k := FirstInside(head, t, tail);
    } else {
      WithTail(head + t, tail);
      k := |t|;
      assert t[..k] == t;
    }
  }

  lemma FirstInside(head: string, t: string, tail: string) returns (k: nat)
    requires '#' !in head && '#' in t && t[0] != '#'
    ensures 0 < k < |t| && BeforeFragment(head + t + tail) == head + t[..k]
  {
    EarlyHit(t, tail, "#");
    Skip(head, t + tail, "#");
    Regroup(head, t, tail);
    k := IndexOf(t, "#");
    IndexOfHit(t, "#");
    assert t[k..][0] == '#' && t[0..] == t;
    assert (head + (t + tail))[..|head| + k] == head + t[..k];
  }

  /**
    Reading the query of the printed URL gives the segments of the sanitized URL followed by the non-null parameters, in
    order, exactly when there is nothing to append, or no parameter name holds an ampersand or a hash and no question
    mark is in the fragment alone.
   */
  lemma QueryRoundTrip(enc: Encoder, dec: Encoder, url: string, ps: seq<Parameter>)
    requires Lawful(enc, dec) && RedirectUrl(enc, url, ps).Ok?
    ensures var s, r, gs := Sanitized(url), RedirectUrl(enc, url, ps).url, Given(ps);
            QuerySegments(r) == QuerySegments(s) + Printed(enc, gs)
            <==> gs == [] || (NoneNamed(gs, '&') && NoneNamed(gs, '#') && ('?' in s ==> '?' in BeforeFragment(s)))
  {
    var s, r, gs := Sanitized(url), RedirectUrl(enc, url, ps).url, Given(ps);
    var head, t := BeforeFragment(s), Suffix(enc, '?' in s, gs);
    var k := PrintedHead(enc, dec, url, ps);
    HeadInside(s);
    assert k == |t| ==> t[..k] == t;
    if |gs| == 0 {
      NothingAppended(enc, head, '?' in s, gs);
    } else if k < |t| || ('?' in s && '?' !in head) {
      TooShort(enc, head, '?' in s, gs, t[..k]);
    } else if NoneNamed(gs, '&') {
      HeadSegments(enc, dec, head, '?' in s, gs);
    } else {
      Ampersands(enc, dec, SegmentsIn(head), BeforeFragment(r), gs);
    }
  }

  /** A name with an ampersand reads back as two segments. */
  lemma Ampersands(enc: Encoder, dec: Encoder, before: seq<string>, u: string, gs: seq<(string, string)>)
    requires Lawful(enc, dec) && !NoneNamed(gs, '&')
    ensures SegmentsIn(u) != before + Printed(enc, gs)
  {
    SuffixHash(enc, dec, true, gs);
    var i :| 0 <= i < |gs| && '&' in Printed(enc, gs)[i];
    assert (before + Printed(enc, gs))[|before| + i] == Printed(enc, gs)[i];
    if QueryIn(u).Some? {
      JoinSplit(QueryIn(u).value);
    }
  }

  lemma PathStays(enc: Encoder, head: string, marked: bool, gs: seq<(string, string)>, k: nat)
    requires ('?' in head ==> marked) && k <= |Suffix(enc, marked, gs)| && (k == 0 ==> |gs| == 0)
    ensures PathIn(head + Suffix(enc, marked, gs)[..k]) == PathIn(head)
         <==> gs == [] || (marked ==> '?' in head)
  {
    var t := Suffix(enc, marked, gs)[..k];
    if '?' in head {
      AppendedQuery(head, t);
    } else if |gs| == 0 {
      assert head + t == head;
    } else {
      NoHit(head, "?");
      PathLonger(head, t);
      if !marked {
        FreshQuery(head, t[1..]);
        assert t == "?" + t[1..];
      }
    }
  }

  /** The path stays exactly when there is nothing to append or no question mark is in the fragment alone. */
  lemma PathKept(enc: Encoder, dec: Encoder, url: string, ps: seq<Parameter>)
    requires Lawful(enc, dec) && RedirectUrl(enc, url, ps).Ok?
    ensures var s, gs := Sanitized(url), Given(ps);
            Path(RedirectUrl(enc, url, ps).url) == Path(s)
            <==> gs == [] || ('?' in s ==> '?' in BeforeFragment(s))
  {
    var k := PrintedHead(enc, dec, url, ps);
    HeadInside(Sanitized(url));
    PathStays(enc, BeforeFragment(Sanitized(url)), '?' in Sanitized(url), Given(ps), k);
  }

  lemma HeadInside(s: string)
    ensures forall c :: c in BeforeFragment(s) ==> c in s
  {}

  /** Each appended segment reads back as its parameter, value decoded, exactly if the name holds no equals sign. */
  lemma ParametersReadBack(enc: Encoder, dec: Encoder, ps: seq<Parameter>, i: nat)
    requires Lawful(enc, dec) && i < |Given(ps)|
    ensures ParseSegment(dec, Printed(enc, Given(ps))[i]) == Given(ps)[i] <==> '=' !in Given(ps)[i].0
  {
    PrintedSafe(enc, dec, Given(ps), i);
  }

  lemma FragmentBehind(a: string, b: string)
    requires '#' !in a && '#' in b
    ensures Fragment(b).Some? && Fragment(a + b) == Fragment(b)
  {
    EarlyHit(b, "", "#");
    Skip(a, b, "#");
    assert (a + b)[|a| + IndexOf(b, "#") + 1..] == b[IndexOf(b, "#") + 1..];
  }

  lemma FragmentBefore(a: string, b: string)
    requires '#' in a
    ensures Fragment(a).Some? && Fragment(a + b) == Some(Fragment(a).value + b)
  {
    EarlyHit(a, b, "#");
    EarlyHit(a, "", "#");
    TakeDrop(a, b, IndexOf(a, "#"));
  }

  /** Behind the first hash of the parameters, which is in a name, there is still an equals sign. */
  lemma {:induction false} EqualsBehind(segs: seq<string>, names: seq<string>, values: seq<string>)
    requires |segs| == |names| == |values| > 0 && '#' in Join(segs)
    requires forall i :: 0 <= i < |segs| ==> segs[i] == names[i] + "=" + values[i] && '#' !in values[i]
    ensures Fragment(Join(segs)).Some? && '=' in Fragment(Join(segs)).value
    decreases |segs|
  {
    var k, v := names[0], "=" + values[0];
    assert segs[0] == k + v;
    var rest := if |segs| == 1 then "" else "&" + Join(segs[1..]);
    if '#' in k {
      Regroup(k, v, rest);
      if |segs| == 1 {
        assert v + rest == v;
      } else {
        Regroup(k + v, "&", Join(segs[1..]));
      }
      FragmentBefore(k, v + rest);
      assert (v + rest)[0] == '=';
      assert (Fragment(k).value + (v + rest))[|Fragment(k).value|] == '=';
    } else {
      FragmentBehind(k + v + "&", Join(segs[1..]));
      EqualsBehind(segs[1..], names[1..], values[1..]);
    }
  }

  /** What the parameters hold behind their first hash is neither empty nor only hashes. */
  lemma BehindHash(enc: Encoder, dec: Encoder, marked: bool, gs: seq<(string, string)>)
    requires Lawful(enc, dec) && !NoneNamed(gs, '#')
    ensures var x := Fragment(Suffix(enc, marked, gs)); x.Some? && x.value != "" && !OnlyHashes(x.value)
  {
    SuffixHash(enc, dec, marked, gs);
    var mark, segs := if marked then "&" else "?", Printed(enc, gs);
    FragmentBehind(mark, Join(segs));
    var names := seq(|gs|, i requires 0 <= i < |gs| => gs[i].0);
    EqualsBehind(segs, names, seq(|gs|, i requires 0 <= i < |gs| => enc(gs[i].1)));
    var x := Fragment(Join(segs)).value;
    assert OnlyHashes(x) ==> forall c :: c in x ==> c == '#';
  }

  /** A text that starts with what precedes its first hash, behind a text and a hash. */
  lemma Twice(f: string, x: string)
    requires '#' in f || f != ""
    ensures f == x + ("#" + BeforeFragment(f)) <==> f == x + "#" + BeforeFragment(x)
  {
    NoHashBefore(f);
    NoHashBefore(x);
    if '#' in x {
      EarlyHit(x, "", "#");
      EarlyHit(x, "#" + BeforeFragment(f), "#");
      EarlyHit(x, "#" + BeforeFragment(x), "#");
    } else {
      NoHit(x, "#");
      Skip(x, "#" + BeforeFragment(f), "#");
      Skip(x, "#" + BeforeFragment(x), "#");
    }
    assert x + "#" + BeforeFragment(x) == x + ("#" + BeforeFragment(x));
  }

  /** A name with a hash: the fragment starts in it. */
  lemma FragmentInside(s: string, t: string)
    requires '#' in t && Fragment(t).Some? && Fragment(t).value != "" && !OnlyHashes(Fragment(t).value)
    ensures var f, x := Fragment(s), Fragment(t).value;
            Fragment(BeforeFragment(s) + t + TailOf(s)) == f <==> f == Some(x + "#" + BeforeFragment(x))
  {
    var x := Fragment(t).value;
    NoHashBefore(s);
    FragmentBehind(BeforeFragment(s), t);
    FragmentBefore(BeforeFragment(s) + t, TailOf(s));
    SecondPiece(s);
    if Fragment(s).Some? && Fragment(s).value != "" {
      Twice(Fragment(s).value, x);
    }
    OnlyFirst(x);
  }

  /** Such a text is not made of hashes, whatever follows it. */
  lemma OnlyFirst(x: string)
    requires x != "" && !OnlyHashes(x)
    ensures forall y :: x + y != "" && !OnlyHashes(x + y)
  {
    var i :| 0 <= i < |x| && x[i] != '#';
    forall y ensures x + y != "" && !OnlyHashes(x + y) {
      assert (x + y)[i] == x[i];
    }
  }

  lemma FragmentOutside(s: string, t: string)
    requires '#' !in t
    ensures var f := Fragment(s);
            Fragment(BeforeFragment(s) + t + TailOf(s)) == f <==> f.None? || (f.value != "" && '#' !in f.value)
  {
    NoHashBefore(s);
    WithTail(BeforeFragment(s) + t, TailOf(s));
    SecondPiece(s);
    if Fragment(s).Some? {
      OwnFragment(Fragment(s).value);
    }
  }

  /**
    Where no parameter name holds a hash, the fragment survives exactly when there is none, or it is not empty and holds
    no further hash. Where one does, the fragment starts inside that name; then it comes out right for just one
    fragment: `x#y`, where `x` is what the parameters hold behind their first hash, and `y` what `x` holds before its
    own.
   */
  lemma FragmentKept(enc: Encoder, dec: Encoder, url: string, ps: seq<Parameter>)
    requires Lawful(enc, dec) && RedirectUrl(enc, url, ps).Ok?
    ensures var s, gs := Sanitized(url), Given(ps);
            var f, x := Fragment(s), Fragment(Suffix(enc, '?' in s, gs));
            Fragment(RedirectUrl(enc, url, ps).url) == f
            <==> if NoneNamed(gs, '#') then f.None? || (f.value != "" && '#' !in f.value)
                 else x.Some? && f == Some(x.value + "#" + BeforeFragment(x.value))
  {
    var s := Sanitized(url);
    PrintedParts(enc, url, ps);
    SuffixHash(enc, dec, '?' in s, Given(ps));
    if NoneNamed(Given(ps), '#') {
      FragmentOutside(s, Suffix(enc, '?' in s, Given(ps)));
    } else {
      BehindHash(enc, dec, '?' in s, Given(ps));
      FragmentInside(s, Suffix(enc, '?' in s, Given(ps)));
    }
  }

  lemma OwnFragment(f: string)
    ensures BeforeFragment(f) == f <==> '#' !in f
    ensures OnlyHashes(f) ==> '#' in f
  {
    NoHashBefore(f);
    assert OnlyHashes(f) ==> f[0] in f;
    if '#' !in f {
      NoHit(f, "#");
    }
  }
}
