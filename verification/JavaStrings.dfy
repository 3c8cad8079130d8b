/** What `java.lang.String` offers for searching, and texts split at ampersands. */
module JavaStrings {
  // ---------------------------------------------------------------- searching

  /** `String.indexOf`, -1 if there is no occurrence. */
  function IndexOf(s: string, pat: string): (i: int)
    ensures -1 <= i && (i >= 0 ==> i + |pat| <= |s|)
  {
    if pat <= s then 0
    else if |s| == 0 then -1
    else
      var i := IndexOf(s[1..], pat);
      if i < 0 then -1 else i + 1
  }

  lemma {:induction false} IndexOfHit(s: string, pat: string)
    requires IndexOf(s, pat) >= 0
    ensures pat <= s[IndexOf(s, pat)..]
  {
    if !(pat <= s) {
      IndexOfHit(s[1..], pat);
      assert s[IndexOf(s, pat)..] == s[1..][IndexOf(s[1..], pat)..];
    }
  }

  function Shift(i: int, n: nat): int { if i < 0 then -1 else i + n }

  function IndexOfFrom(s: string, pat: string, from: nat): (i: int)
    requires from <= |s|
    ensures i == -1 || from <= i <= |s|
    ensures i >= 0 && |pat| > 0 ==> i < |s|
  {
    Shift(IndexOf(s[from..], pat), from)
  }

  function Last(s: string): string { if |s| == 0 then "" else s[|s| - 1..] }

  /** Text without the first character of a pattern holds no start of it. */
  lemma {:induction false} Skip(s: string, t: string, pat: string)
    requires |pat| > 0 && pat[0] !in s
    ensures IndexOf(s + t, pat) == Shift(IndexOf(t, pat), |s|)
  {
    if |s| == 0 {
      assert s + t == t;
    } else {
      assert (s + t)[0] == s[0] && (s + t)[1..] == s[1..] + t;
      assert !(pat <= s + t);
      Skip(s[1..], t, pat);
    }
  }

  lemma NoHit(s: string, pat: string)
    requires |pat| > 0 && pat[0] !in s
    ensures IndexOf(s, pat) == -1
  {
    Skip(s, "", pat);
    assert s + "" == s;
  }

  /** What is found stays found there, whatever follows. */
  lemma {:induction false} EarlyHit(s: string, t: string, pat: string)
    requires |pat| == 1 && pat[0] in s
    ensures 0 <= IndexOf(s, pat) < |s| && IndexOf(s + t, pat) == IndexOf(s, pat)
  {
    assert s + "" == s;
    assert s[..1] == [s[0]] && (s + t)[..1] == [s[0]];
    assert pat == [pat[0]];
    if s[0] != pat[0] {
      assert s == [s[0]] + s[1..];
      EarlyHit(s[1..], t, pat);
      assert (s + t)[1..] == s[1..] + t;
    }
  }

  /** A character does not occur before its first occurrence. */
  lemma {:induction false} FirstFree(q: string, c: char)
    ensures var i := IndexOf(q, [c]); c !in if i < 0 then q else q[..i]
  {
    if !([c] <= q) && |q| > 0 {
      FirstFree(q[1..], c);
      var i := IndexOf(q, [c]);
      assert q[..1] == [q[0]];
      if i < 0 {
        assert q == [q[0]] + q[1..];
      } else {
        assert q[..i] == [q[0]] + q[1..][..i - 1];
      }
    }
  }

  lemma {:induction false} BeforeHit(s: string, pat: string)
    requires |pat| > 0 && IndexOf(s, pat) >= 0
    ensures IndexOf(s[..IndexOf(s, pat)], pat) == -1
  {
    if !(pat <= s) {
      BeforeHit(s[1..], pat);
      var i := IndexOf(s, pat);
      var a := s[..i];
      assert a[1..] == s[1..][..i - 1] && s == a + s[i..];
    }
  }

  lemma {:induction false} FoundAt(q: string, pat: string, k: nat)
    requires k <= |q| && pat <= q[k..]
    ensures IndexOf(q, pat) >= 0
  {
    if !(pat <= q) {
      assert k > 0 by { assert q[0..] == q; }
      assert q[1..][k - 1..] == q[k..];
      FoundAt(q[1..], pat, k - 1);
    }
  }

  lemma FoundInside(a: string, s: string, b: string, pat: string)
    requires IndexOf(s, pat) >= 0
    ensures IndexOf(a + s + b, pat) >= 0
  {
    var k := IndexOf(s, pat);
    IndexOfHit(s, pat);
    assert (a + s + b)[|a| + k..] == s[k..] + b;
    FoundAt(a + s + b, pat, |a| + k);
  }

  // ---------------------------------------------------------------- cutting

  lemma Regroup(a: string, b: string, c: string)
    ensures (a + b) + c == a + (b + c)
  {}

  lemma Tail(s: string, t: string, k: nat)
    requires k <= |t|
    ensures (s + t)[..|s| + k] == s + t[..k] && (s + t)[|s| + k..] == t[k..]
  {}

  lemma DropTwice(s: string, i: nat, j: nat)
    requires i + j <= |s|
    ensures s[i..][j..] == s[i + j..]
  {}

  lemma AroundIndex(s: string, i: nat, c: char)
    requires i <= |s| && [c] <= s[i..]
    ensures i < |s| && s == s[..i] + [c] + s[i + 1..]
  {
    assert [s[i]] == [c];
  }

  lemma Prefixed(q: string, k: nat, a: string, s: string, b: string)
    requires k <= |q| && q[k..] == a + s + b
    ensures q == q[..k] + a + s + b
  {
    assert q == q[..k] + q[k..];
    Regroup(q[..k], a, s);
    Regroup(q[..k], a + s, b);
  }

  lemma PrefixOfFirst(s: string, t: string, w: string, c: char)
    requires c !in w
    ensures w <= s + [c] + t <==> w <= s
  {
    var q := s + [c] + t;
    assert q[|s|] == c && q[..|s|] == s;
    forall j | 0 <= j < |w| && w <= q ensures w[j] == q[j] {}
    if w <= s {
      assert q == s + ([c] + t);
    }
  }

  lemma PrefixBehind(c: char, w: string, t: string)
    ensures [c] + w <= [c] + t <==> w <= t
  {
    assert ([c] + t)[1..] == t && ([c] + w)[1..] == w;
  }

  // ---------------------------------------------------------------- texts between ampersands

  function Join(segs: seq<string>): string
    requires |segs| > 0
  {
    if |segs| == 1 then segs[0] else segs[0] + "&" + Join(segs[1..])
  }

  /** The text between ampersands. */
  function Split(q: string): (segs: seq<string>)
    ensures |segs| > 0
    decreases |q|
  {
    var i := IndexOf(q, "&");
    if i < 0 then [q]
    else [q[..i]] + Split(q[i + 1..])
  }

  predicate Segmented(segs: seq<string>) {
    forall i :: 0 <= i < |segs| ==> '&' !in segs[i]
  }

  function AfterAmpersand(t: string): string {
    var j := IndexOf(t, "&");
    if j < 0 then "" else t[j + 1..]
  }

  lemma FirstAmpersand(s: string, t: string)
    requires '&' !in s
    ensures IndexOf(s + "&" + t, "&") == |s| && AfterAmpersand(s + "&" + t) == t
  {
    Skip(s, "&" + t, "&");
    assert s + ("&" + t) == s + "&" + t;
  }

  lemma JoinPrefixed(h: string, segs: seq<string>)
    requires |segs| > 0
    ensures Join([h + segs[0]] + segs[1..]) == h + Join(segs)
  {
    assert ([h + segs[0]] + segs[1..])[1..] == segs[1..];
    if |segs| > 1 {
      Regroup(h, segs[0], "&");
      Regroup(h, segs[0] + "&", Join(segs[1..]));
    }
  }

  lemma JoinCons(s: string, rest: seq<string>)
    requires |rest| > 0
    ensures Join([s] + rest) == s + "&" + Join(rest)
    ensures '&' !in s && Segmented(rest) ==> Segmented([s] + rest)
  {
    assert ([s] + rest)[1..] == rest;
  }

  lemma {:induction false} SplitJoin(segs: seq<string>)
    requires |segs| > 0 && Segmented(segs)
    ensures Split(Join(segs)) == segs
  {
    if |segs| == 1 {
      NoHit(segs[0], "&");
    } else {
      SplitJoin(segs[1..]);
      FirstAmpersand(segs[0], Join(segs[1..]));
      assert Join(segs)[..|segs[0]|] == segs[0];
      assert Join(segs)[|segs[0]| + 1..] == Join(segs[1..]);
    }
  }

  lemma {:induction false} JoinSplit(q: string)
    ensures Join(Split(q)) == q && Segmented(Split(q))
    decreases |q|
  {
    var i := IndexOf(q, "&");
    FirstFree(q, '&');
    if i >= 0 {
      JoinSplit(q[i + 1..]);
      IndexOfHit(q, "&");
      AroundIndex(q, i, '&');
      JoinCons(q[..i], Split(q[i + 1..]));
    }
  }

  /** A segment is a part of the text, at its start or behind an ampersand. */
  lemma {:induction false} SplitPart(q: string, s: string) returns (a: string, b: string)
    requires s in Split(q)
    ensures q == a + s + b && (a == "" || a[|a| - 1] == '&')
    decreases |q|
  {
    var i := IndexOf(q, "&");
    if i < 0 {
      a, b := "", "";
    } else if s == q[..i] {
      a, b := "", q[i..];
    } else {
      a, b := SplitPart(q[i + 1..], s);
      Prefixed(q, i + 1, a, s, b);
      IndexOfHit(q, "&");
      AroundIndex(q, i, '&');
      a := q[..i + 1] + a;
    }
  }
}
