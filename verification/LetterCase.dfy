/** Upper and lower case, and what each wildcard takes, told from character codes. */
module LetterCase {
  import opened Wrappers
  import opened Regex
  import opened Wildcards
  import opened Matching

  /** The same character, or the same letter in the other case. */
  predicate SameLetter(c: char, d: char) {
    || c == d
    || ('a' <= c <= 'z' && d as int == c as int - 32)
    || ('a' <= d <= 'z' && c as int == d as int - 32)
  }

  predicate SameLetters(a: string, b: string) {
    |a| == |b| && forall i :: 0 <= i < |a| ==> SameLetter(a[i], b[i])
  }

  lemma FoldsTogether(c: char, d: char)
    ensures Fold(c) == Fold(d) <==> SameLetter(c, d)
  {
  }

  lemma SameAccepts(cs: Chars, c: char, d: char)
    requires SameLetter(c, d)
    ensures Accepts(cs, c) == Accepts(cs, d)
  {
    if cs.Lit? {
      FoldsTogether(cs.c, c);
      FoldsTogether(cs.c, d);
      FoldsTogether(c, d);
    }
  }

  lemma LetterTails(a: string, b: string, k: nat)
    requires SameLetters(a, b) && k <= |a|
    ensures SameLetters(a[k..], b[k..]) && SameLetters(a[..k], b[..k])
  {
  }

  // ------------------------------------------------------------- the subject

  lemma {:induction false} SubjectGlob(m: string, n: string, o: string, per: bool)
    requires SameLetters(n, o)
    ensures Glob(m, n, per) == Glob(m, o, per)
    decreases |m|, |n|
  {
    if m != "" {
      if n != "" {
        LetterTails(n, o, 1);
        SubjectGlob(m, n[1..], o[1..], per);
        SubjectGlob(m[1..], n[1..], o[1..], per);
        if |m| > 1 { SubjectGlob(m[2..], n[1..], o[1..], per); SameAccepts(Lit(m[1]), n[0], o[0]); }
        SubjectGlob(AfterRun(m, "~ "), n[1..], o[1..], per);
        SameAccepts(Lit(m[0]), n[0], o[0]);
        SameAccepts(Blank, n[0], o[0]);
        SameAccepts(NonBlank, n[0], o[0]);
      }
      SubjectGlob(m[1..], n, o, per);
    }
  }

  lemma SubjectLine(m: string, n: string, o: string, per: bool)
    requires SameLetters(n, o) && MatchesLine(m, n, per)
    ensures MatchesLine(m, o, per)
  {
    var k :| 0 <= k <= |n| && LineEnd(n, k) && Glob(m, n[..k], per);
    LetterTails(n, o, k);
    SubjectGlob(m, n[..k], o[..k], per);
    assert k < |n| ==> SameLetter(n[k], o[k]);
    assert LineEnd(o, k);
  }

  lemma Turned(a: string, b: string)
    requires SameLetters(a, b)
    ensures SameLetters(b, a)
  {
    forall i | 0 <= i < |b| ensures SameLetter(b[i], a[i]) { assert SameLetter(a[i], b[i]); }
  }

  /** The case of the subject's letters does not matter, in either mode. */
  lemma SubjectCase(m: string, n: string, o: string)
    requires SameLetters(n, o)
    ensures Wild(m, n) == Wild(m, o) && WildPer(m, n) == WildPer(m, o)
  {
    Turned(n, o);
    forall per: bool ensures MatchesLine(Kept(m, per, 1021), n, per) == MatchesLine(Kept(m, per, 1021), o, per) {
      if MatchesLine(Kept(m, per, 1021), n, per) { SubjectLine(Kept(m, per, 1021), n, o, per); }
      if MatchesLine(Kept(m, per, 1021), o, per) { SubjectLine(Kept(m, per, 1021), o, n, per); }
    }
  }

  // ------------------------------------------------------------- the pattern

  lemma {:induction false} RunCase(m: string, o: string, run: string)
    requires SameLetters(m, o) && forall c :: c in run ==> c in "*%~ "
    ensures |AfterRun(m, run)| == |AfterRun(o, run)| && SameLetters(AfterRun(m, run), AfterRun(o, run))
  {
    if m != "" {
      assert SameLetter(m[0], o[0]);
      LetterTails(m, o, 1);
      RunCase(m[1..], o[1..], run);
    }
  }

  lemma {:induction false} PatternGlob(m: string, o: string, n: string, per: bool)
    requires SameLetters(m, o)
    ensures Glob(m, n, per) == Glob(o, n, per)
    decreases |m|, |n|
  {
    if m != "" {
      assert SameLetter(m[0], o[0]);
      LetterTails(m, o, 1);
      PatternGlob(m[1..], o[1..], n, per);
      if n != "" {
        PatternGlob(m, o, n[1..], per);
        PatternGlob(m[1..], o[1..], n[1..], per);
        LitCase(m[0], o[0], n);
        if |m| > 1 {
          assert SameLetter(m[1], o[1]);
          LetterTails(m, o, 2);
          PatternGlob(m[2..], o[2..], n[1..], per);
          LitCase(m[1], o[1], n);
        }
        RunCase(m, o, "~ ");
        PatternGlob(AfterRun(m, "~ "), AfterRun(o, "~ "), n[1..], per);
      }
    }
  }

  lemma LitCase(c: char, d: char, n: string)
    requires SameLetter(c, d)
    ensures OneIs(n, Lit(c)) == OneIs(n, Lit(d))
  {
    if n != "" {
      FoldsTogether(c, n[0]);
      FoldsTogether(d, n[0]);
      FoldsTogether(c, d);
    }
  }

  lemma FrontCase(m: string, o: string, per: bool)
    requires SameLetters(m, o) && m != ""
    ensures Front(m, per).Some? == Front(o, per).Some?
    ensures Front(m, per).Some? ==>
              var (u, rest) := Front(m, per).value; var (v, rest') := Front(o, per).value;
              |Text(u)| == |Text(v)| && SameLetters(rest, rest')
  {
    assert SameLetter(m[0], o[0]);
    assert |m| > 1 ==> SameLetter(m[1], o[1]);
    LetterTails(m, o, 1);
    if per && m[0] == '\\' {
      if |m| > 1 { LetterTails(m, o, 2); }
    } else if m[0] == '*' {
      RunCase(m[1..], o[1..], "*");
    } else if per && m[0] == '%' {
      RunCase(m[1..], o[1..], "%");
    } else if per && m[0] == '~' {
      RunCase(m[1..], o[1..], "~ ");
    }
  }

  lemma CaseConcat(a: string, b: string, c: string, d: string)
    requires SameLetters(a, b) && SameLetters(c, d)
    ensures SameLetters(a + c, b + d)
  {
  }

  lemma KeptFront(m: string, per: bool, room: int, u: Unit, rest: string)
    requires m != "" && Front(m, per) == Some((u, rest)) && |Text(u)| <= room
    ensures Kept(m, per, room) == m[..|m| - |rest|] + Kept(rest, per, room - |Text(u)|)
  {
  }

  lemma KeptNothing(m: string, per: bool, room: int)
    requires m != "" && Front(m, per).Some? && |Text(Front(m, per).value.0)| > room
    ensures Kept(m, per, room) == ""
  {
  }

  lemma {:induction false} KeptCase(m: string, o: string, per: bool, room: int)
    requires SameLetters(m, o)
    ensures SameLetters(Kept(m, per, room), Kept(o, per, room))
    decreases |m|
  {
    if m == "" {
    } else if Front(m, per).None? {
      FrontCase(m, o, per);
    } else {
      FrontCase(m, o, per);
      var (u, rest) := Front(m, per).value;
      var (v, rest') := Front(o, per).value;
      if |Text(u)| > room {
        KeptNothing(m, per, room);
        KeptNothing(o, per, room);
      } else {
        var left, k := room - |Text(u)|, |m| - |rest|;
        KeptCase(rest, rest', per, left);
        KeptFront(m, per, room, u, rest);
        KeptFront(o, per, room, v, rest');
        LetterTails(m, o, k);
        CaseConcat(m[..k], o[..k], Kept(rest, per, left), Kept(rest', per, left));
      }
    }
  }

  /** Nor does the case of the pattern's letters. */
  lemma PatternCase(m: string, o: string, n: string)
    requires SameLetters(m, o)
    ensures Wild(m, n) == Wild(o, n) && WildPer(m, n) == WildPer(o, n)
  {
    forall per: bool ensures MatchesLine(Kept(m, per, 1021), n, per) == MatchesLine(Kept(o, per, 1021), n, per) {
      KeptCase(m, o, per, 1021);
      forall k | 0 <= k <= |n| ensures Glob(Kept(m, per, 1021), n[..k], per) == Glob(Kept(o, per, 1021), n[..k], per) {
        PatternGlob(Kept(m, per, 1021), Kept(o, per, 1021), n[..k], per);
      }
    }
  }

  // ------------------------------------------------------------- one piece at a time

  lemma Fits(m: string, n: string, per: bool)
    requires Cost(m, per) <= 1021 && '\n' !in n
    ensures MatchesLine(Kept(m, per, 1021), n, per) <==> Glob(m, n, per)
  {
    KeptAll(m, per, 1021);
    WithoutNewline(m, n, per);
  }

  /** A plain character matches itself and the same letter in the other case, and nothing else. */
  lemma OneCharacter(c: char, d: char)
    requires c !in "*?"
    ensures d != '\n' ==> (Wild([c], [d]) <==> SameLetter(c, d))
    ensures d != '\n' && c !in "%~\\" ==> (WildPer([c], [d]) <==> SameLetter(c, d))
  {
    assert [c][1..] == "" && [d][1..] == "";
    assert Front([c], false) == Some((Plain(c), ""));
    FoldsTogether(c, d);
    if d != '\n' {
      Fits([c], [d], false);
      if c !in "%~\\" {
        assert Front([c], true) == Some((Plain(c), ""));
        Fits([c], [d], true);
      }
    }
  }

  /** A quoted character matches like a plain one, wildcard or not. */
  lemma QuotedCharacter(c: char, d: char)
    requires d != '\n'
    ensures WildPer(['\\', c], [d]) <==> SameLetter(c, d)
  {
    var m := ['\\', c];
    assert m[2..] == "" && [d][1..] == "";
    assert Front(m, true) == Some((Plain(c), ""));
    FoldsTogether(c, d);
    Fits(m, [d], true);
  }

  lemma {:induction false} PercentTakes(n: string)
    ensures Glob("%", n, true) <==> ' ' !in n
  {
    assert "%"[1..] == "";
    if n != "" {
      PercentTakes(n[1..]);
      assert n == [n[0]] + n[1..];
    }
  }

  lemma {:induction false} TildeTakes(n: string)
    ensures Glob("~", n, true) <==> n != "" && forall i :: 0 <= i < |n| ==> n[i] == ' '
  {
    assert AfterRun("~", "~ ") == "" by { assert "~"[1..] == ""; }
    if n != "" {
      TildeTakes(n[1..]);
      assert n == [n[0]] + n[1..];
      assert (forall i :: 0 <= i < |n| ==> n[i] == ' ') <==> n[0] == ' ' && forall i :: 0 <= i < |n[1..]| ==> n[1..][i] == ' ' by {
        if n[0] == ' ' && forall i :: 0 <= i < |n[1..]| ==> n[1..][i] == ' ' {
          forall i | 0 <= i < |n| ensures n[i] == ' ' { if i > 0 { assert n[i] == n[1..][i - 1]; } }
        }
        if forall i :: 0 <= i < |n| ==> n[i] == ' ' {
          forall i | 0 <= i < |n[1..]| ensures n[1..][i] == ' ' { assert n[1..][i] == n[i + 1]; }
        }
      }
    }
  }

  lemma {:induction false} StarTakes(n: string, per: bool)
    ensures Glob("*", n, per)
  {
    assert "*"[1..] == "";
    if n != "" { StarTakes(n[1..], per); }
  }

  /** What one wildcard matches: anything, one character, a text without blanks, one or more blanks. */
  lemma OneWildcard(n: string)
    requires n != "" && '\n' !in n
    ensures Wild("*", n) && WildPer("*", n)
    ensures (Wild("?", n) <==> |n| == 1) && (WildPer("?", n) <==> |n| == 1)
    ensures WildPer("%", n) <==> ' ' !in n
    ensures WildPer("~", n) <==> forall i :: 0 <= i < |n| ==> n[i] == ' '
  {
    forall m: string, per: bool | m in ["*", "?", "%", "~"] ensures Cost(m, per) <= 1021 {
      CostBound(m, per);
    }
    StarTakes(n, false);
    StarTakes(n, true);
    PercentTakes(n);
    TildeTakes(n);
    assert "?"[1..] == "";
    Fits("*", n, false);
    Fits("*", n, true);
    Fits("?", n, false);
    Fits("?", n, true);
    Fits("%", n, true);
    Fits("~", n, true);
  }

  /** What a pattern takes in the buffer: two places for a run of stars and one for a question mark; ... */
  lemma WildPlaces(m: string, per: bool)
    ensures Cost("*" + m, per) == 2 + Cost(AfterRun(m, "*"), per)
    ensures Cost("?" + m, per) == 1 + Cost(m, per)
  {
    var a, b := "*" + m, "?" + m;
    assert a[1..] == m && b[1..] == m;
    assert Front(a, per) == Some((Many, AfterRun(m, "*")));
    assert Front(b, per) == Some((Single, m));
  }

  /** ... one or two for a plain character, quoted or not; ... */
  lemma PlainPlaces(m: string, c: char)
    ensures c !in "*?" ==> Cost([c] + m, false) == (if c in "\\.^$|{}[]()+-?*" then 2 else 1) + Cost(m, false)
    ensures Cost(['\\', c] + m, true) == (if c in "\\.^$|{}[]()+-?*" then 2 else 1) + Cost(m, true)
  {
    var a, b := [c] + m, ['\\', c] + m;
    assert a[1..] == m && b[2..] == m;
    assert c !in "*?" ==> Front(a, false) == Some((Plain(c), m));
    assert Front(b, true) == Some((Plain(c), m));
  }

  /** ... and in per mode five for a run of `%`, four for a `~` with the blanks and tildes behind it. */
  lemma PerPlaces(m: string)
    ensures Cost("%" + m, true) == 5 + Cost(AfterRun(m, "%"), true)
    ensures Cost("~" + m, true) == 4 + Cost(AfterRun(m, "~ "), true)
  {
    var a, b := "%" + m, "~" + m;
    assert a[1..] == m && b[1..] == m;
    assert Front(a, true) == Some((NonBlanks, AfterRun(m, "%")));
    assert Front(b, true) == Some((Blanks, AfterRun(m, "~ ")));
  }
}
