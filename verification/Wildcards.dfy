/** IRC wildcard patterns: their meaning, and squeezing runs of stars. */
module Wildcards {
  import opened Buffers
  import opened Regex

  /** Drops the characters of `run` at the front. */
  function AfterRun(m: string, run: string): (r: string)
    ensures |r| <= |m|
  {
    if m == "" || m[0] !in run then m else AfterRun(m[1..], run)
  }

  lemma {:induction false} AfterRunIs(m: string, run: string)
    ensures AfterRun(m, run) == m[|m| - |AfterRun(m, run)|..]
    ensures AfterRun(m, run) != "" ==> AfterRun(m, run)[0] !in run
  {
    if m != "" && m[0] in run { AfterRunIs(m[1..], run); }
  }

  predicate OneIs(n: string, cs: Chars) {
    n != "" && Accepts(cs, n[0])
  }

  /** The reference meaning: `*` any text, `?` one character; in per mode also `%` any text without
      blanks, `~` with the blanks and `~` after it one or more blanks, `\` makes the next character
      plain and alone at the end is nothing.  Letters match in either case. */
  predicate Glob(m: string, n: string, per: bool)
    decreases |m|, |n|
  {
    if m == "" then n == ""
    else if m[0] == '*' then Glob(m[1..], n, per) || (n != "" && Glob(m, n[1..], per))
    else if m[0] == '?' then n != "" && Glob(m[1..], n[1..], per)
    else if per && m[0] == '%' then Glob(m[1..], n, per) || (OneIs(n, NonBlank) && Glob(m, n[1..], per))
    else if per && m[0] == '~' then OneIs(n, Blank) && (Glob(AfterRun(m, "~ "), n[1..], per) || Glob(m, n[1..], per))
    else if per && m[0] == '\\' then
      if |m| == 1 then n == "" else OneIs(n, Lit(m[1])) && Glob(m[2..], n[1..], per)
    else OneIs(n, Lit(m[0])) && Glob(m[1..], n[1..], per)
  }

  // ------------------------------------------------------------- squeezing stars

  /** Runs of stars become one star; `star` says that the character before was a star. */
  function Squeeze(m: string, star: bool): string {
    if m == "" then ""
    else if m[0] == '*' then (if star then "" else "*") + Squeeze(m[1..], true)
    else [m[0]] + Squeeze(m[1..], false)
  }

  /** The same, but a character after a backslash is never a wildcard. */
  function SqueezeEsc(m: string, star: bool, esc: bool): string {
    if m == "" then ""
    else if !esc && m[0] == '*' then (if star then "" else "*") + SqueezeEsc(m[1..], true, esc)
    else if !esc && m[0] == '\\' then "\\" + SqueezeEsc(m[1..], star, true)
    else [m[0]] + SqueezeEsc(m[1..], false, false)
  }

  lemma {:induction false} SqueezeTwice(m: string, star: bool)
    ensures Squeeze(Squeeze(m, star), star) == Squeeze(m, star)
  {
    if m != "" {
      var t := m[0] == '*';
      SqueezeTwice(m[1..], t);
      var rest := Squeeze(m[1..], t);
      var r := Squeeze(m, star);
      if !(t && star) {
        assert r[0] == m[0] && r[1..] == rest;
      } else {
        assert r == rest;
      }
    }
  }

  lemma {:induction false} SqueezeEscTwice(m: string, star: bool, esc: bool)
    ensures SqueezeEsc(SqueezeEsc(m, star, esc), star, esc) == SqueezeEsc(m, star, esc)
  {
    if m != "" {
      var r := SqueezeEsc(m, star, esc);
      if !esc && m[0] == '*' {
        SqueezeEscTwice(m[1..], true, esc);
        if !star { assert r[0] == '*' && r[1..] == SqueezeEsc(m[1..], true, esc); }
        else { assert r == SqueezeEsc(m[1..], true, esc); }
      } else if !esc && m[0] == '\\' {
        SqueezeEscTwice(m[1..], star, true);
        assert r[0] == '\\' && r[1..] == SqueezeEsc(m[1..], star, true);
      } else {
        SqueezeEscTwice(m[1..], false, false);
        assert r[0] == m[0] && r[1..] == SqueezeEsc(m[1..], false, false);
      }
    }
  }

  /** No two stars stand side by side, and all other characters are kept, in order. */
  lemma {:induction false} SqueezeClean(m: string, star: bool)
    ensures var r := Squeeze(m, star);
            && (forall i :: 0 <= i < |r| - 1 ==> !(r[i] == '*' && r[i + 1] == '*'))
            && (star && r != "" ==> r[0] != '*')
            && Others(r) == Others(m)
  {
    if m != "" {
      var rest := Squeeze(m[1..], m[0] == '*');
      SqueezeClean(m[1..], m[0] == '*');
      if m[0] == '*' && star {
        assert Squeeze(m, star) == rest;
      } else {
        assert Squeeze(m, star)[1..] == rest;
      }
    }
  }

  /** A pattern without its stars. */
  function Others(m: string): string {
    if m == "" then "" else (if m[0] == '*' then "" else [m[0]]) + Others(m[1..])
  }

  /** With quoting: no unquoted star follows another, a backslash between them not counted. */
  predicate NoRuns(m: string, star: bool, esc: bool) {
    m == ""
    || if !esc && m[0] == '*' then !star && NoRuns(m[1..], true, false)
       else if !esc && m[0] == '\\' then NoRuns(m[1..], star, true)
       else NoRuns(m[1..], false, false)
  }

  /** A pattern without its unquoted stars. */
  function OthersEsc(m: string, esc: bool): string {
    if m == "" then ""
    else if !esc && m[0] == '*' then OthersEsc(m[1..], false)
    else [m[0]] + OthersEsc(m[1..], !esc && m[0] == '\\')
  }

  lemma {:induction false} SqueezeEscClean(m: string, star: bool, esc: bool)
    ensures NoRuns(SqueezeEsc(m, star, esc), star, esc) && OthersEsc(SqueezeEsc(m, star, esc), esc) == OthersEsc(m, esc)
  {
    if m != "" {
      var r := SqueezeEsc(m, star, esc);
      if !esc && m[0] == '*' {
        SqueezeEscClean(m[1..], true, false);
        assert !star ==> r[1..] == SqueezeEsc(m[1..], true, false);
        assert star ==> r == SqueezeEsc(m[1..], true, false);
      } else {
        SqueezeEscClean(m[1..], if !esc && m[0] == '\\' then star else false, !esc && m[0] == '\\');
        assert r[1..] == SqueezeEsc(m[1..], if !esc && m[0] == '\\' then star else false, !esc && m[0] == '\\');
      }
    }
  }

  // ------------------------------------------------------------- squeezing keeps the language

  /** A star matches what is left after any part of the text. */
  lemma {:induction false} StarSkips(m: string, n: string, per: bool)
    ensures Glob("*" + m, n, per) <==> exists k :: 0 <= k <= |n| && Glob(m, n[k..], per)
    decreases |n|
  {
    var sm := "*" + m;
    assert sm[1..] == m && n[0..] == n;
    if n != "" {
      StarSkips(m, n[1..], per);
      if Glob(sm, n[1..], per) {
        var k :| 0 <= k <= |n| - 1 && Glob(m, n[1..][k..], per);
        assert n[1..][k..] == n[k + 1..];
      }
      if k :| 0 < k <= |n| && Glob(m, n[k..], per) {
        assert n[1..][k - 1..] == n[k..];
      }
    }
  }

  /** Two patterns with the same language have it behind a star too. */
  lemma StarCong(a: string, b: string, n: string, per: bool)
    requires forall x :: Glob(a, x, per) <==> Glob(b, x, per)
    ensures Glob("*" + a, n, per) <==> Glob("*" + b, n, per)
  {
    StarSkips(a, n, per);
    StarSkips(b, n, per);
  }

  /** A second star adds nothing. */
  lemma {:induction false} DoubleStar(m: string, n: string, per: bool)
    ensures Glob("**" + m, n, per) <==> Glob("*" + m, n, per)
    decreases |n|
  {
    var one := "*" + m;
    var two := "**" + m;
    assert two[1..] == one && one[1..] == m;
    if n != "" {
      DoubleStar(m, n[1..], per);
    }
  }

  ghost predicate SameLanguage(a: string, b: string, per: bool) {
    forall n :: Glob(a, n, per) <==> Glob(b, n, per)
  }

  /** Putting the same plain character in front keeps two languages equal. */
  lemma FrontCong(c: char, a: string, b: string, per: bool)
    requires SameLanguage(a, b, per) && c != '*' && !(per && c in "%~\\")
    ensures SameLanguage([c] + a, [c] + b, per)
  {
    forall n ensures Glob([c] + a, n, per) <==> Glob([c] + b, n, per) {
      assert ([c] + a)[1..] == a && ([c] + b)[1..] == b;
    }
  }

  lemma StarFrontCong(a: string, b: string, per: bool)
    requires SameLanguage(a, b, per)
    ensures SameLanguage("*" + a, "*" + b, per)
  {
    forall n ensures Glob("*" + a, n, per) <==> Glob("*" + b, n, per) {
      StarCong(a, b, n, per);
    }
  }

  lemma {:induction false} PercentCong(a: string, b: string, n: string)
    requires SameLanguage(a, b, true)
    ensures Glob("%" + a, n, true) <==> Glob("%" + b, n, true)
    decreases |n|
  {
    assert ("%" + a)[1..] == a && ("%" + b)[1..] == b;
    if n != "" { PercentCong(a, b, n[1..]); }
  }

  lemma QuoteCong(c: char, a: string, b: string)
    requires SameLanguage(a, b, true)
    ensures SameLanguage(['\\', c] + a, ['\\', c] + b, true)
  {
    forall n ensures Glob(['\\', c] + a, n, true) <==> Glob(['\\', c] + b, n, true) {
      assert (['\\', c] + a)[2..] == a && (['\\', c] + b)[2..] == b;
    }
  }

  /** The text after a leading star run, with the star kept in front. */
  lemma StarBefore(m: string, s: string, per: bool)
    requires SameLanguage("*" + m, "*" + s, per)
    ensures SameLanguage("**" + m, "*" + s, per)
  {
    forall n ensures Glob("**" + m, n, per) <==> Glob("*" + s, n, per) {
      DoubleStar(m, n, per);
    }
  }

  /** `collapse` keeps the language: after a star, with that star in front. */
  lemma {:induction false} SqueezeKeeps(m: string, star: bool)
    ensures star ==> SameLanguage("*" + m, "*" + Squeeze(m, true), false)
    ensures !star ==> SameLanguage(m, Squeeze(m, false), false)
    decreases |m|, star
  {
    if m == "" {
    } else if m[0] == '*' {
      SqueezeKeeps(m[1..], true);
      assert m == "*" + m[1..];
      if star {
        StarBefore(m[1..], Squeeze(m[1..], true), false);
        assert "*" + m == "**" + m[1..];
        assert Squeeze(m, true) == Squeeze(m[1..], true);
      }
    } else {
      SqueezeKeeps(m[1..], false);
      FrontCong(m[0], m[1..], Squeeze(m[1..], false), false);
      assert m == [m[0]] + m[1..];
      if star { StarFrontCong(m, Squeeze(m, true), false); }
    }
  }

  lemma AfterTilde(a: string)
    ensures AfterRun("~" + a, "~ ") == AfterRun(a, "~ ")
  {
    assert ("~" + a)[1..] == a;
  }

  lemma TildeStep(a: string, n: string)
    ensures Glob("~" + a, n, true) <==>
            OneIs(n, Blank) && (Glob(AfterRun(a, "~ "), n[1..], true) || Glob("~" + a, n[1..], true))
  {
    AfterTilde(a);
  }

  lemma {:induction false} TildeCong(a: string, b: string, n: string)
    requires SameLanguage(AfterRun(a, "~ "), AfterRun(b, "~ "), true)
    ensures Glob("~" + a, n, true) <==> Glob("~" + b, n, true)
    decreases |n|
  {
    TildeStep(a, n);
    TildeStep(b, n);
    if n != "" { TildeCong(a, b, n[1..]); }
  }

  lemma SqueezePlain(m: string)
    requires m != "" && m[0] != '*' && m[0] != '\\'
    ensures SqueezeEsc(m, false, false) == [m[0]] + SqueezeEsc(m[1..], false, false)
  {
  }

  lemma AfterOne(c: char, m: string)
    ensures AfterRun([c] + m, "~ ") == if c == '~' || c == ' ' then AfterRun(m, "~ ") else [c] + m
  {
    assert ([c] + m)[1..] == m;
  }

  lemma SqueezeFirst(m: string)
    requires m != ""
    ensures SqueezeEsc(m, false, false) != "" && SqueezeEsc(m, false, false)[0] == m[0]
  {
  }

  /** Tildes and blanks are copied. */
  lemma {:induction false} SqueezeAfterRun(m: string)
    ensures AfterRun(SqueezeEsc(m, false, false), "~ ") == SqueezeEsc(AfterRun(m, "~ "), false, false)
  {
    if m == "" {
    } else if m[0] == '~' || m[0] == ' ' {
      SqueezeAfterRun(m[1..]);
      SqueezePlain(m);
      AfterOne(m[0], SqueezeEsc(m[1..], false, false));
    } else {
      SqueezeFirst(m);
    }
  }

  lemma QuotedPair(m: string, star: bool)
    requires |m| > 1 && m[0] == '\\'
    ensures SqueezeEsc(m, star, false) == ['\\', m[1]] + SqueezeEsc(m[2..], false, false)
  {
    assert m[1..][1..] == m[2..];
  }

  /** A pattern that does not start with a star, front first. */
  lemma PlainFrontKeeps(m: string, s: string)
    requires m != "" && m[0] !in "*\\" && SameLanguage(m[1..], s, true)
    requires SameLanguage(AfterRun(m[1..], "~ "), AfterRun(s, "~ "), true)
    ensures SameLanguage(m, [m[0]] + s, true)
  {
    assert m == [m[0]] + m[1..];
    if m[0] == '%' {
      forall n ensures Glob(m, n, true) <==> Glob([m[0]] + s, n, true) { PercentCong(m[1..], s, n); }
    } else if m[0] == '~' {
      forall n ensures Glob(m, n, true) <==> Glob([m[0]] + s, n, true) { TildeCong(m[1..], s, n); }
    } else {
      FrontCong(m[0], m[1..], s, true);
    }
  }

  lemma SqueezeStarAgain(m: string)
    requires m != "" && m[0] == '*'
    ensures SqueezeEsc(m, true, false) == SqueezeEsc(m[1..], true, false)
    ensures SqueezeEsc(m, false, false) == "*" + SqueezeEsc(m[1..], true, false)
    ensures m == "*" + m[1..] && "*" + m == "**" + m[1..]
  {
  }

  /** At a character that is not a star, the flag makes no difference. */
  lemma FlagForgotten(m: string, star: bool)
    requires m == "" || m[0] != '*'
    ensures SqueezeEsc(m, star, false) == SqueezeEsc(m, false, false)
  {
    if m != "" && m[0] == '\\' {
      if |m| > 1 { QuotedPair(m, star); QuotedPair(m, false); }
    }
  }

  /** `collapse_esc` keeps the language. */
  lemma {:induction false} SqueezeEscKeeps(m: string, star: bool)
    ensures star ==> SameLanguage("*" + m, "*" + SqueezeEsc(m, true, false), true)
    ensures !star ==> SameLanguage(m, SqueezeEsc(m, false, false), true)
    decreases |m|, star
  {
    if m == "" {
    } else if m[0] == '*' {
      SqueezeEscKeeps(m[1..], true);
      SqueezeStarAgain(m);
      if star { StarBefore(m[1..], SqueezeEsc(m[1..], true, false), true); }
    } else if star {
      SqueezeEscKeeps(m, false);
      FlagForgotten(m, true);
      StarFrontCong(m, SqueezeEsc(m, false, false), true);
    } else if m[0] != '\\' {
      SqueezeEscKeeps(m[1..], false);
      SqueezeEscKeeps(AfterRun(m[1..], "~ "), false);
      SqueezeAfterRun(m[1..]);
      SqueezePlain(m);
      PlainFrontKeeps(m, SqueezeEsc(m[1..], false, false));
    } else if |m| > 1 {
      QuotedPair(m, false);
      SqueezeEscKeeps(m[2..], false);
      QuoteCong(m[1], m[2..], SqueezeEsc(m[2..], false, false));
      assert m == ['\\', m[1]] + m[2..];
    } else {
      assert m == "\\" && SqueezeEsc(m, false, false) == m;
    }
  }

  // ------------------------------------------------------------- in place

  /** The C string held by a buffer: everything before the first NUL. */
  ghost predicate Holds(a: array<char>, s: string)
    reads a
  {
    |s| < a.Length && a[..|s|] == s && a[|s|] == '\0' && '\0' !in s
  }

  /** What is still to be read follows what has been written. */
  lemma SqueezeSplit(done: string, m: string, p: nat, star: bool)
    requires p < |m| && done + Squeeze(m[p..], star) == Squeeze(m, false)
    ensures var t := m[p] == '*';
            var next := if t && star then done else done + [m[p]];
            next + Squeeze(m[p + 1..], t) == Squeeze(m, false)
  {
    assert m[p..][1..] == m[p + 1..] && m[p..][0] == m[p];
  }

  /** The unread rest of the buffer is untouched: `q` is the place of the character last read. */
  ghost predicate Unread(now: seq<char>, m: string, q: nat) {
    q <= |m| < |now| && now[q..|m|] == m[q..] && now[|m|] == '\0'
  }

  lemma UnreadAt(now: seq<char>, m: string, q: nat)
    requires Unread(now, m, q)
    ensures now[q] == if q < |m| then m[q] else '\0'
  {
    if q < |m| { assert now[q..|m|][0] == now[q] && m[q..][0] == m[q]; }
  }

  lemma LaterTail(was: seq<char>, now: seq<char>, a: nat, b: nat)
    requires a <= b <= |was| == |now| && now[a..] == was[a..]
    ensures now[b..] == was[b..]
  {
    assert now[a..][b - a..] == now[b..] && was[a..][b - a..] == was[b..];
  }

  /** Writing before `po`, at most at the place last read, leaves the rest to be read. */
  lemma UnreadFurther(was: seq<char>, now: seq<char>, m: string, q: nat, po: nat)
    requires Unread(was, m, q) && q < |m| && |now| == |was| && po <= q + 1 && now[po..] == was[po..]
    ensures Unread(now, m, q + 1) && now[|m| + 1..] == was[|m| + 1..]
  {
    LaterTail(was, now, po, q + 1);
    LaterTail(was, now, po, |m| + 1);
    assert was[q + 1..|m|] == was[q..|m|][1..] == m[q..][1..] == m[q + 1..];
    assert now[q + 1..|m|] == now[q + 1..][..|m| - q - 1] == was[q + 1..][..|m| - q - 1] == was[q + 1..|m|];
    assert now[|m|] == now[q + 1..][|m| - q - 1] == was[q + 1..][|m| - q - 1];
  }

  /** What one character makes of the buffer. */
  method Copy(a: array<char>, po: nat, c: char, star: bool) returns (next: nat, star': bool)
    requires po < a.Length
    modifies a
    ensures po <= next <= po + 1 && a[next..] == old(a[next..])
    ensures a[..next] == if c == '*' && star then old(a[..po]) else old(a[..po]) + [c]
    ensures star' == (c == '*')
  {
    next := po;
    if c == '*' {
      if !star {
        next := Put(a, po, '*');
      }
      star' := true;
    } else {
      next := Put(a, po, c);
      star' := false;
    }
  }

  /** The first `po` places are done, and what is read next stands at `q`. */
  ghost predicate Midway(now: seq<char>, m: string, q: nat, po: nat, star: bool) {
    && q <= |m| && po <= q && Unread(now, m, q) && '\0' !in m && '\0' !in now[..po]
    && now[..po] + Squeeze(m[q..], star) == Squeeze(m, false)
  }

  /** One turn of the loop. */
  method CollapseOne(a: array<char>, ghost m: string, ghost q: nat, po: nat, star: bool, c: char) returns (po': nat, star': bool)
    requires Midway(a[..], m, q, po, star) && c == a[q] && c != '\0'
    modifies a
    ensures q < |m| && Midway(a[..], m, q + 1, po', star') && a[|m| + 1..] == old(a[|m| + 1..])
  {
    UnreadAt(a[..], m, q);
    SqueezeSplit(a[..po], m, q, star);
    ghost var was := a[..];
    po', star' := Copy(a, po, c, star);
    UnreadFurther(was, a[..], m, q, po');
    assert a[..][..po'] == a[..po'];
  }

  /** Collapses the string in the buffer. */
  method Collapse(pattern: array<char>, ghost m: string)
    requires Holds(pattern, m)
    modifies pattern
    ensures Holds(pattern, Squeeze(m, false))
    ensures pattern[|m| + 1..] == old(pattern[|m| + 1..])
  {
    var p: nat, po: nat := 1, 0;
    var star := false;
    var c := pattern[0];
    assert m[0..] == m && pattern[..][..0] == "" && Unread(pattern[..], m, 0);
    while c != '\0'
      invariant 0 < p && Midway(pattern[..], m, p - 1, po, star) && c == pattern[p - 1]
      invariant pattern[|m| + 1..] == old(pattern[|m| + 1..])
      decreases |m| + 1 - p
    {
      po, star := CollapseOne(pattern, m, p - 1, po, star, c);
      c := pattern[p];
      p := p + 1;
    }
    UnreadAt(pattern[..], m, p - 1);
    assert m[p - 1..] == "" && pattern[..][..po] == pattern[..po];
    pattern[po] := '\0';
  }

  lemma SqueezeEscSplit(done: string, m: string, p: nat, star: bool, esc: bool)
    requires p < |m| && done + SqueezeEsc(m[p..], star, esc) == SqueezeEsc(m, false, false)
    ensures var next := if !esc && m[p] == '*' && star then done else done + [m[p]];
            var star' := if !esc && m[p] == '*' then true else if !esc && m[p] == '\\' then star else false;
            next + SqueezeEsc(m[p + 1..], star', !esc && m[p] == '\\') == SqueezeEsc(m, false, false)
  {
    assert m[p..][1..] == m[p + 1..] && m[p..][0] == m[p];
  }

  /** What one character makes of the buffer and the two flags. */
  method CopyEsc(a: array<char>, po: nat, c: char, star: bool, esc: bool) returns (next: nat, star': bool, esc': bool)
    requires po < a.Length
    modifies a
    ensures po <= next <= po + 1 && a[next..] == old(a[next..])
    ensures a[..next] == if !esc && c == '*' && star then old(a[..po]) else old(a[..po]) + [c]
    ensures star' == if !esc && c == '*' then true else if !esc && c == '\\' then star else false
    ensures esc' == (!esc && c == '\\')
  {
    next, star', esc' := po, star, esc;
    if !esc && c == '*' {
      if !star {
        next := Put(a, po, '*');
      }
      star' := true;
    } else if !esc && c == '\\' {
      next := Put(a, po, '\\');
      esc' := true;
    } else {
      next := Put(a, po, c);
      star', esc' := false, false;
    }
  }

  ghost predicate MidwayEsc(now: seq<char>, m: string, q: nat, po: nat, star: bool, esc: bool) {
    && q <= |m| && po <= q && Unread(now, m, q) && '\0' !in m && '\0' !in now[..po]
    && now[..po] + SqueezeEsc(m[q..], star, esc) == SqueezeEsc(m, false, false)
  }

  method CollapseEscOne(a: array<char>, ghost m: string, ghost q: nat, po: nat, star: bool, esc: bool, c: char)
    returns (po': nat, star': bool, esc': bool)
    requires MidwayEsc(a[..], m, q, po, star, esc) && c == a[q] && c != '\0'
    modifies a
    ensures q < |m| && MidwayEsc(a[..], m, q + 1, po', star', esc') && a[|m| + 1..] == old(a[|m| + 1..])
  {
    UnreadAt(a[..], m, q);
    SqueezeEscSplit(a[..po], m, q, star, esc);
    ghost var was := a[..];
    po', star', esc' := CopyEsc(a, po, c, star, esc);
    UnreadFurther(was, a[..], m, q, po');
    assert a[..][..po'] == a[..po'];
  }

  /** Collapses the string in the buffer, leaving quoted stars alone. */
  method CollapseEsc(pattern: array<char>, ghost m: string)
    requires Holds(pattern, m)
    modifies pattern
    ensures Holds(pattern, SqueezeEsc(m, false, false))
    ensures pattern[|m| + 1..] == old(pattern[|m| + 1..])
  {
    var p: nat, po: nat := 1, 0;
    var star, esc := false, false;
    var c := pattern[0];
    assert m[0..] == m && pattern[..][..0] == "" && Unread(pattern[..], m, 0);
    while c != '\0'
      invariant 0 < p && MidwayEsc(pattern[..], m, p - 1, po, star, esc) && c == pattern[p - 1]
      invariant pattern[|m| + 1..] == old(pattern[|m| + 1..])
      decreases |m| + 1 - p
    {
      po, star, esc := CollapseEscOne(pattern, m, p - 1, po, star, esc, c);
      c := pattern[p];
      p := p + 1;
    }
    UnreadAt(pattern[..], m, p - 1);
    assert m[p - 1..] == "" && pattern[..][..po] == pattern[..po];
    pattern[po] := '\0';
  }
}
