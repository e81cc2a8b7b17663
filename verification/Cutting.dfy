/** What cutting a pattern short does to its meaning, in plain mode. */
module Cutting {
  import opened Regex
  import opened Wildcards
  import opened Matching

  predicate AllIn(m: string, cs: string) {
    forall i :: 0 <= i < |m| ==> m[i] in cs
  }

  /** A star followed by nothing but stars and question marks: whatever matches, matches when extended. */
  predicate OpenEnd(m: string) {
    exists i :: 0 <= i < |m| && m[i] == '*' && AllIn(m[i + 1..], "*?")
  }

  // ------------------------------------------------------------- the shortest match

  /** The pattern without its stars, which it matches. */
  function Shortest(m: string): string {
    if m == "" then "" else (if m[0] == '*' then "" else [m[0]]) + Shortest(m[1..])
  }

  lemma {:induction false} ShortestMatches(m: string)
    ensures Glob(m, Shortest(m), false)
  {
    if m != "" {
      ShortestMatches(m[1..]);
      if m[0] == '*' {
        assert Shortest(m) == Shortest(m[1..]);
      } else {
        assert Shortest(m)[1..] == Shortest(m[1..]);
      }
    }
  }

  lemma {:induction false} NothingShorter(m: string, n: string)
    requires Glob(m, n, false)
    ensures |n| >= |Shortest(m)|
    decreases |m|, |n|
  {
    if m != "" {
      if m[0] == '*' && !Glob(m[1..], n, false) {
        NothingShorter(m, n[1..]);
      } else if m[0] == '*' {
        NothingShorter(m[1..], n);
      } else {
        NothingShorter(m[1..], n[1..]);
      }
    }
  }

  lemma {:induction false} ShortestConcat(a: string, b: string)
    ensures Shortest(a + b) == Shortest(a) + Shortest(b)
  {
    if a == "" {
      assert a + b == b;
    } else {
      assert (a + b)[1..] == a[1..] + b;
      ShortestConcat(a[1..], b);
    }
  }

  lemma {:induction false} ShortestEmpty(m: string)
    ensures Shortest(m) == "" <==> AllIn(m, "*")
  {
    if m != "" {
      ShortestEmpty(m[1..]);
      assert AllIn(m, "*") <==> m[0] == '*' && AllIn(m[1..], "*") by {
        if AllIn(m, "*") {
          assert m[0] in "*";
          forall i | 0 <= i < |m[1..]| ensures m[1..][i] in "*" { assert m[1..][i] == m[i + 1]; }
        }
        if m[0] == '*' && AllIn(m[1..], "*") {
          forall i | 0 <= i < |m| ensures m[i] in "*" { if i > 0 { assert m[i] == m[1..][i - 1]; } }
        }
      }
    }
  }

  // ------------------------------------------------------------- stars at the end

  /** Behind a pattern, stars match whatever follows. */
  lemma {:induction false} StarsTake(stars: string, n: string)
    requires AllIn(stars, "*") && stars != ""
    ensures Glob(stars, n, false)
    decreases |stars|, |n|
  {
    assert stars[0] in "*";
    if n != "" {
      StarsTake(stars, n[1..]);
    } else if |stars| > 1 {
      forall i | 0 <= i < |stars[1..]| ensures stars[1..][i] in "*" { assert stars[1..][i] == stars[i + 1]; }
      StarsTake(stars[1..], n);
    } else {
      assert stars[1..] == "";
    }
  }

  /** Patterns one after the other match texts one after the other ... */
  lemma {:induction false} GlobConcat(a: string, b: string, x: string, y: string)
    requires Glob(a, x, false) && Glob(b, y, false)
    ensures Glob(a + b, x + y, false)
    decreases |a|, |x|
  {
    if a == "" {
      assert a + b == b && x + y == y;
    } else {
      assert (a + b)[1..] == a[1..] + b && (a + b)[0] == a[0];
      if x != "" { assert (x + y)[1..] == x[1..] + y && (x + y)[0] == x[0]; }
      if a[0] == '*' && Glob(a[1..], x, false) {
        GlobConcat(a[1..], b, x, y);
      } else if a[0] == '*' {
        GlobConcat(a, b, x[1..], y);
      } else {
        GlobConcat(a[1..], b, x[1..], y);
      }
    }
  }

  /** ... and nothing else. */
  lemma {:induction false} GlobSplit(a: string, b: string, n: string) returns (k: nat)
    requires Glob(a + b, n, false)
    ensures k <= |n| && Glob(a, n[..k], false) && Glob(b, n[k..], false)
    decreases |a|, |n|
  {
    if a == "" {
      assert a + b == b;
      return 0;
    }
    assert (a + b)[1..] == a[1..] + b && (a + b)[0] == a[0];
    if a[0] == '*' && Glob(a[1..] + b, n, false) {
      k := GlobSplit(a[1..], b, n);
    } else if a[0] == '*' {
      k := GlobSplit(a, b, n[1..]);
      k := k + 1;
      assert n[..k][1..] == n[1..][..k - 1];
    } else {
      k := GlobSplit(a[1..], b, n[1..]);
      k := k + 1;
      assert n[..k][1..] == n[1..][..k - 1];
    }
  }

  // ------------------------------------------------------------- an open end takes any extension

  lemma AllInTail(m: string, cs: string)
    requires m != "" && AllIn(m, cs)
    ensures m[0] in cs && AllIn(m[1..], cs)
  {
    forall i | 0 <= i < |m[1..]| ensures m[1..][i] in cs { assert m[1..][i] == m[i + 1]; }
  }

  /** Stars can be nothing, and each question mark takes one character. */
  lemma {:induction false} LooseCount(m: string, n: string)
    requires AllIn(m, "*?") && |n| == |Shortest(m)|
    ensures Glob(m, n, false)
    decreases |m|
  {
    if m != "" {
      AllInTail(m, "*?");
      LooseCount(m[1..], if m[0] == '*' then n else n[1..]);
    }
  }

  lemma StarExtends(b: string, x: string, y: string)
    requires Glob(b + "*", x, false)
    ensures Glob(b + "*", x + y, false)
  {
    var j := GlobSplit(b, "*", x);
    StarsTake("*", x[j..] + y);
    GlobConcat(b, "*", x[..j], x[j..] + y);
    assert x[..j] + (x[j..] + y) == x + y;
  }

  /** Behind a star they ask only for length, ... */
  lemma LooseExtends(b: string, t: string, n: string, y: string)
    requires AllIn(t, "*?") && Glob(b + "*" + t, n, false)
    ensures Glob(b + "*" + t, n + y, false)
  {
    var k := GlobSplit(b + "*", t, n);
    NothingShorter(t, n[k..]);
    var z := n + y;
    var q := |z| - |Shortest(t)|;
    StarExtends(b, n[..k], z[k..q]);
    LooseCount(t, z[q..]);
    GlobConcat(b + "*", t, n[..k] + z[k..q], z[q..]);
    assert n[..k] + z[k..q] + z[q..] == z;
  }

  /** ... so that whatever matches, matches when extended. */
  lemma OpenExtends(m: string, n: string, y: string)
    requires OpenEnd(m) && Glob(m, n, false)
    ensures Glob(m, n + y, false)
  {
    var i :| 0 <= i < |m| && m[i] == '*' && AllIn(m[i + 1..], "*?");
    assert m == m[..i] + "*" + m[i + 1..];
    LooseExtends(m[..i], m[i + 1..], n, y);
  }

  // ------------------------------------------------------------- any other end does not

  lemma OpenSnoc(m: string)
    requires m != ""
    ensures m[|m| - 1] == '*' ==> OpenEnd(m)
    ensures m[|m| - 1] == '?' && OpenEnd(m[..|m| - 1]) ==> OpenEnd(m)
  {
    var last := |m| - 1;
    if m[last] == '*' {
      assert m[last + 1..] == "";
    } else if m[last] == '?' && OpenEnd(m[..last]) {
      var p := m[..last];
      var i :| 0 <= i < |p| && p[i] == '*' && AllIn(p[i + 1..], "*?");
      var q, pq := m[i + 1..], p[i + 1..];
      assert q == pq + "?";
      assert m[i] == '*';
    }
  }

  /** Such a pattern is question marks behind nothing, or behind a plain character. */
  lemma {:induction false} Ending(m: string) returns (a: string, r: nat)
    requires !OpenEnd(m)
    ensures m == a + Questions(r) && (a == "" || a[|a| - 1] !in "*?")
  {
    if m == "" {
      return "", 0;
    }
    OpenSnoc(m);
    if m[|m| - 1] == '?' {
      a, r := Ending(m[..|m| - 1]);
      QuestionsSnoc(r);
      r := r + 1;
      assert m == m[..|m| - 1] + "?";
    } else {
      return m, 0;
    }
  }

  lemma {:induction false} QuestionsSnoc(r: nat)
    ensures Questions(r + 1) == Questions(r) + "?"
  {
    if r > 0 { QuestionsSnoc(r - 1); }
  }

  /** The character at that place, counted from the end, is fixed. */
  lemma {:induction false} EndFixed(b: string, c: char, r: nat, n: string)
    requires c !in "*?" && Glob(b + [c] + Questions(r), n, false)
    ensures |n| > r && Fold(n[|n| - 1 - r]) == Fold(c)
    decreases |b|, |n|
  {
    var m := b + [c] + Questions(r);
    if b == "" {
      assert m[1..] == Questions(r);
      QuestionsCount(r, n[1..], false);
    } else {
      assert m[1..] == b[1..] + [c] + Questions(r) && m[0] == b[0];
      if m[0] == '*' && Glob(m[1..], n, false) {
        EndFixed(b[1..], c, r, n);
      } else if m[0] == '*' {
        EndFixed(b, c, r, n[1..]);
      } else {
        EndFixed(b[1..], c, r, n[1..]);
      }
    }
  }

  function Times(d: char, k: nat): (s: string)
    ensures |s| == k && forall i :: 0 <= i < k ==> s[i] == d
  {
    if k == 0 then "" else [d] + Times(d, k - 1)
  }

  /** Without an open end, a final star lets something new in. */
  lemma ClosedEndGrows(m: string, stars: string) returns (n: string)
    requires !OpenEnd(m) && AllIn(stars, "*") && stars != ""
    ensures Glob(m + stars, n, false) && !Glob(m, n, false)
  {
    var a, r := Ending(m);
    var d := if a != "" && Fold(a[|a| - 1]) == 'x' then 'y' else 'x';
    ShortestMatches(m);
    n := Shortest(m) + Times(d, r + 1);
    StarsTake(stars, Times(d, r + 1));
    GlobConcat(m, stars, Shortest(m), Times(d, r + 1));
    if Glob(m, n, false) {
      if a == "" {
        assert m == Questions(r);
        QuestionsCount(r, n, false);
      } else {
        assert m == a[..|a| - 1] + [a[|a| - 1]] + Questions(r);
        EndFixed(a[..|a| - 1], a[|a| - 1], r, n);
      }
    }
  }

  // ------------------------------------------------------------- when a cut changes the meaning

  /** A pattern cut after `k` means what the whole pattern means if and only if nothing was cut, or only
      stars were and what is kept has an open end. */
  lemma CutKeepsLanguageIff(k: string, rest: string)
    ensures SameLanguage(k, k + rest, false) <==> rest == "" || (AllIn(rest, "*") && OpenEnd(k))
  {
    if rest == "" {
      assert k + rest == k;
    } else if !AllIn(rest, "*") {
      ShortestEmpty(rest);
      ShortestConcat(k, rest);
      ShortestMatches(k);
      if Glob(k + rest, Shortest(k), false) { NothingShorter(k + rest, Shortest(k)); }
    } else if !OpenEnd(k) {
      var n := ClosedEndGrows(k, rest);
      assert Glob(k + rest, n, false) != Glob(k, n, false);
    } else {
      forall n ensures Glob(k, n, false) <==> Glob(k + rest, n, false) {
        if Glob(k, n, false) {
          StarsTake(rest, "");
          GlobConcat(k, rest, n, "");
          assert n + "" == n;
        }
        if Glob(k + rest, n, false) {
          var i := GlobSplit(k, rest, n);
          OpenExtends(k, n[..i], n[i..]);
          assert n[..i] + n[i..] == n;
        }
      }
    }
  }

  /** What is kept of a pattern is its beginning. */
  lemma {:induction false} KeptIsPrefix(m: string, per: bool, room: int)
    ensures Kept(m, per, room) <= m
    decreases |m|
  {
    if m != "" && Front(m, per).Some? {
      var (u, rest) := Front(m, per).value;
      FrontSplits(m, per);
      if |Text(u)| <= room {
        KeptIsPrefix(rest, per, room - |Text(u)|);
        assert m == m[..|m| - |rest|] + rest;
      }
    }
  }

  /** The plain translation means what the pattern means if and only if it fits, or only stars did not
      fit and what did has an open end. */
  lemma TranslationFaithfulIff(m: string, room: nat)
    ensures var k := Kept(m, false, room);
            && k <= m
            && (SameLanguage(k, m, false) <==> Cost(m, false) <= room || (AllIn(m[|k|..], "*") && OpenEnd(k)))
  {
    var k := Kept(m, false, room);
    KeptIsPrefix(m, false, room);
    KeptAll(m, false, room);
    assert m == k + m[|k|..];
    CutKeepsLanguageIff(k, m[|k|..]);
  }

  /** An instance of a lost meaning, for every length: a pattern of one letter that does not fit. */
  lemma CutPatternAccepts(n: nat)
    requires n > 1021
    ensures MatchesLine(Kept(As(n), false, 1021), As(1021), false) && !Glob(As(n), As(1021), false)
  {
    KeptAs(n, 1021);
    GlobAs(n, 1021);
    GlobAs(1021, 1021);
    WithoutNewline(As(1021), As(1021), false);
  }
}
