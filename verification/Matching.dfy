/** Wildcard patterns are translated to a regular expression in a fixed buffer; what the
    translated pattern matches. */
module Matching {
  import opened Wrappers
  import opened Buffers
  import opened Regex
  import opened Wildcards

  /** One piece of a pattern, as the translator sees it. */
  datatype Unit = Many | Single | NonBlanks | Blanks | Plain(c: char)

  const META := "\\.^$|{}[]()+-?*"

  function Text(u: Unit): (t: string)
    ensures 1 <= |t| <= 5
  {
    match u
    case Many => ".*"
    case Single => "."
    case NonBlanks => "[^ ]*"
    case Blanks => "[ ]+"
    case Plain(c) => if c in META then ['\\', c] else [c]
  }

  /** The first piece and what follows it; None for a backslash at the end. */
  function Front(m: string, per: bool): (r: Option<(Unit, string)>)
    requires m != ""
    ensures r.Some? ==> |r.value.1| < |m|
  {
    if per && m[0] == '\\' then (if |m| == 1 then None else Some((Plain(m[1]), m[2..])))
    else if m[0] == '*' then Some((Many, AfterRun(m[1..], "*")))
    else if m[0] == '?' then Some((Single, m[1..]))
    else if per && m[0] == '%' then Some((NonBlanks, AfterRun(m[1..], "%")))
    else if per && m[0] == '~' then Some((Blanks, AfterRun(m[1..], "~ ")))
    else Some((Plain(m[0]), m[1..]))
  }

  /** The pieces, in order, as long as their texts fit into `room` characters. */
  function Units(m: string, per: bool, room: int): seq<Unit>
    decreases |m|
  {
    if m == "" then []
    else
      match Front(m, per)
      case None => []
      case Some((u, rest)) => if |Text(u)| > room then [] else [u] + Units(rest, per, room - |Text(u)|)
  }

  /** The part of the pattern those pieces stand for. */
  function Kept(m: string, per: bool, room: int): string
    decreases |m|
  {
    if m == "" then ""
    else
      match Front(m, per)
      case None => m
      case Some((u, rest)) =>
        if |Text(u)| > room then "" else m[..|m| - |rest|] + Kept(rest, per, room - |Text(u)|)
  }

  /** The room the whole translation takes. */
  function Cost(m: string, per: bool): nat
    decreases |m|
  {
    if m == "" then 0
    else
      match Front(m, per)
      case None => 0
      case Some((u, rest)) => |Text(u)| + Cost(rest, per)
  }

  function Body(us: seq<Unit>): string {
    if us == [] then "" else Text(us[0]) + Body(us[1..])
  }

  // ------------------------------------------------------------- what fits

  lemma RunSplits(m: string, run: string)
    requires m != ""
    ensures var rest := AfterRun(m[1..], run); m[|m| - |rest|..] == rest
  {
    AfterRunIs(m[1..], run);
    var k := |m| - 1 - |AfterRun(m[1..], run)|;
    assert m[1..][k..] == m[k + 1..];
  }

  lemma FrontSplits(m: string, per: bool)
    requires m != "" && Front(m, per).Some?
    ensures var rest := Front(m, per).value.1; m[|m| - |rest|..] == rest
  {
    if per && m[0] == '\\' {
    } else if m[0] == '*' {
      RunSplits(m, "*");
    } else if m[0] == '?' {
    } else if per && m[0] == '%' {
      RunSplits(m, "%");
    } else if per && m[0] == '~' {
      RunSplits(m, "~ ");
    }
  }

  /** The whole pattern is kept exactly when its translation fits. */
  lemma {:induction false} KeptAll(m: string, per: bool, room: int)
    requires room >= 0
    ensures Cost(m, per) <= room <==> Kept(m, per, room) == m
    ensures |Kept(m, per, room)| <= |m|
    decreases |m|
  {
    if m != "" && Front(m, per).Some? {
      var (u, rest) := Front(m, per).value;
      FrontSplits(m, per);
      var n := |m| - |rest|;
      if |Text(u)| <= room {
        KeptAll(rest, per, room - |Text(u)|);
        var k := Kept(rest, per, room - |Text(u)|);
        assert Kept(m, per, room) == m[..n] + k;
        assert m == m[..n] + rest;
        if Kept(m, per, room) == m { assert k == m[n..]; }
      }
    }
  }

  /** A plain pattern takes at most twice its length, any pattern five times. */
  lemma {:induction false} CostBound(m: string, per: bool)
    ensures Cost(m, per) <= (if per then 5 else 2) * |m|
    decreases |m|
  {
    if m != "" && Front(m, per).Some? {
      CostBound(Front(m, per).value.1, per);
    }
  }

  /** A host mask of at most 323 characters is never cut. */
  lemma HostMaskFits(m: string)
    requires |m| <= 323
    ensures Kept(m, false, 1024 - 3) == m
  {
    CostBound(m, false);
    KeptAll(m, false, 1024 - 3);
  }

  // ------------------------------------------------------------- the pieces mean what the pattern means

  predicate UnitsGlob(us: seq<Unit>, n: string)
    decreases |us|, |n|
  {
    if us == [] then n == ""
    else
      match us[0]
      case Many => UnitsGlob(us[1..], n) || (n != "" && UnitsGlob(us, n[1..]))
      case Single => n != "" && UnitsGlob(us[1..], n[1..])
      case NonBlanks => UnitsGlob(us[1..], n) || (OneIs(n, NonBlank) && UnitsGlob(us, n[1..]))
      case Blanks => OneIs(n, Blank) && (UnitsGlob(us[1..], n[1..]) || UnitsGlob(us, n[1..]))
      case Plain(c) => OneIs(n, Lit(c)) && UnitsGlob(us[1..], n[1..])
  }

  ghost predicate Means(p: string, us: seq<Unit>, per: bool) {
    forall n :: Glob(p, n, per) <==> UnitsGlob(us, n)
  }

  lemma {:induction false} ManyFront(k: string, us: seq<Unit>, n: string, per: bool)
    requires Means(k, us, per)
    ensures Glob("*" + k, n, per) <==> UnitsGlob([Many] + us, n)
    decreases |n|
  {
    assert ("*" + k)[1..] == k && ([Many] + us)[1..] == us;
    if n != "" { ManyFront(k, us, n[1..], per); }
  }

  lemma {:induction false} NonBlanksFront(k: string, us: seq<Unit>, n: string)
    requires Means(k, us, true)
    ensures Glob("%" + k, n, true) <==> UnitsGlob([NonBlanks] + us, n)
    decreases |n|
  {
    assert ("%" + k)[1..] == k && ([NonBlanks] + us)[1..] == us;
    if n != "" { NonBlanksFront(k, us, n[1..]); }
  }

  lemma {:induction false} BlanksFront(a: string, k: string, us: seq<Unit>, n: string)
    requires Means(k, us, true) && AfterRun(a, "~ ") == k
    ensures Glob("~" + a, n, true) <==> UnitsGlob([Blanks] + us, n)
    decreases |n|
  {
    TildeStep(a, n);
    assert ([Blanks] + us)[1..] == us;
    if n != "" { BlanksFront(a, k, us, n[1..]); }
  }

  lemma SingleFront(k: string, us: seq<Unit>, per: bool)
    requires Means(k, us, per)
    ensures Means("?" + k, [Single] + us, per)
  {
    assert ("?" + k)[1..] == k && ([Single] + us)[1..] == us;
  }

  lemma PlainFront(c: char, k: string, us: seq<Unit>, per: bool)
    requires Means(k, us, per) && c !in "*?" && !(per && c in "%~\\")
    ensures Means([c] + k, [Plain(c)] + us, per)
  {
    assert ([c] + k)[1..] == k && ([Plain(c)] + us)[1..] == us;
  }

  lemma QuotedFront(c: char, k: string, us: seq<Unit>)
    requires Means(k, us, true)
    ensures Means(['\\', c] + k, [Plain(c)] + us, true)
  {
    assert (['\\', c] + k)[2..] == k && ([Plain(c)] + us)[1..] == us;
  }

  /** The run dropped by AfterRun. */
  function RunOf(m: string, run: string): string {
    m[..|m| - |AfterRun(m, run)|]
  }

  lemma RunStep(m: string, run: string)
    requires m != "" && m[0] in run
    ensures RunOf(m, run) == [m[0]] + RunOf(m[1..], run)
  {
  }

  lemma {:induction false} StarRun(m: string, k: string, per: bool)
    ensures SameLanguage("*" + (RunOf(m, "*") + k), "*" + k, per)
  {
    if m == "" || m[0] != '*' {
      assert RunOf(m, "*") + k == k;
    } else {
      StarRun(m[1..], k, per);
      RunStep(m, "*");
      StarBefore(RunOf(m[1..], "*") + k, k, per);
      assert "*" + (RunOf(m, "*") + k) == "**" + (RunOf(m[1..], "*") + k);
    }
  }

  lemma {:induction false} DoublePercent(a: string, n: string)
    ensures Glob("%%" + a, n, true) <==> Glob("%" + a, n, true)
    decreases |n|
  {
    assert ("%%" + a)[1..] == "%" + a && ("%" + a)[1..] == a;
    if n != "" { DoublePercent(a, n[1..]); }
  }

  lemma {:induction false} PercentRun(m: string, k: string, n: string)
    ensures Glob("%" + (RunOf(m, "%") + k), n, true) <==> Glob("%" + k, n, true)
  {
    if m == "" || m[0] != '%' {
      assert RunOf(m, "%") + k == k;
    } else {
      PercentRun(m[1..], k, n);
      RunStep(m, "%");
      DoublePercent(RunOf(m[1..], "%") + k, n);
      assert "%" + (RunOf(m, "%") + k) == "%%" + (RunOf(m[1..], "%") + k);
    }
  }

  lemma {:induction false} TildeRun(m: string, k: string)
    requires k == "" || k[0] !in "~ "
    ensures AfterRun(RunOf(m, "~ ") + k, "~ ") == k
  {
    if m == "" || m[0] !in "~ " {
      assert RunOf(m, "~ ") + k == k;
    } else {
      TildeRun(m[1..], k);
      RunStep(m, "~ ");
      assert (RunOf(m, "~ ") + k)[1..] == RunOf(m[1..], "~ ") + k;
    }
  }

  /** What is kept starts as the pattern does. */
  lemma KeptFirst(m: string, per: bool, room: int)
    ensures Kept(m, per, room) == "" || (m != "" && Kept(m, per, room)[0] == m[0])
  {
  }

  /** A run and the wildcard in front of it. */
  lemma RunInFront(m: string, run: string, k: string)
    requires m != ""
    ensures m[..|m| - |AfterRun(m[1..], run)|] + k == [m[0]] + (RunOf(m[1..], run) + k)
  {
  }

  lemma ManyKept(m: string, k: string, us: seq<Unit>, per: bool)
    requires m != "" && m[0] == '*' && Means(k, us, per)
    ensures Means(m[..|m| - |AfterRun(m[1..], "*")|] + k, [Many] + us, per)
  {
    RunInFront(m, "*", k);
    StarRun(m[1..], k, per);
    forall n ensures Glob("*" + k, n, per) <==> UnitsGlob([Many] + us, n) { ManyFront(k, us, n, per); }
  }

  lemma NonBlanksKept(m: string, k: string, us: seq<Unit>)
    requires m != "" && m[0] == '%' && Means(k, us, true)
    ensures Means(m[..|m| - |AfterRun(m[1..], "%")|] + k, [NonBlanks] + us, true)
  {
    RunInFront(m, "%", k);
    var p := "%" + (RunOf(m[1..], "%") + k);
    forall n ensures Glob(p, n, true) <==> UnitsGlob([NonBlanks] + us, n) {
      PercentRun(m[1..], k, n);
      NonBlanksFront(k, us, n);
    }
  }

  lemma BlanksKept(m: string, k: string, us: seq<Unit>)
    requires m != "" && m[0] == '~' && Means(k, us, true) && (k == "" || k[0] !in "~ ")
    ensures Means(m[..|m| - |AfterRun(m[1..], "~ ")|] + k, [Blanks] + us, true)
  {
    RunInFront(m, "~ ", k);
    TildeRun(m[1..], k);
    var a := RunOf(m[1..], "~ ") + k;
    forall n ensures Glob("~" + a, n, true) <==> UnitsGlob([Blanks] + us, n) { BlanksFront(a, k, us, n); }
  }

  lemma FrontKept(m: string, per: bool, k: string, us: seq<Unit>)
    requires m != "" && Front(m, per).Some? && Means(k, us, per)
    requires k == "" || (Front(m, per).value.1 != "" && k[0] == Front(m, per).value.1[0])
    ensures Means(m[..|m| - |Front(m, per).value.1|] + k, [Front(m, per).value.0] + us, per)
  {
    if per && m[0] == '\\' {
      assert m[..2] == ['\\', m[1]];
      QuotedFront(m[1], k, us);
    } else if m[0] == '*' {
      ManyKept(m, k, us, per);
    } else if m[0] == '?' {
      assert m[..1] == "?";
      SingleFront(k, us, per);
    } else if per && m[0] == '%' {
      NonBlanksKept(m, k, us);
    } else if per && m[0] == '~' {
      AfterRunIs(m[1..], "~ ");
      BlanksKept(m, k, us);
    } else {
      assert m[..1] == [m[0]];
      PlainFront(m[0], k, us, per);
    }
  }

  /** The pieces that fit mean what the kept part of the pattern means. */
  lemma {:induction false} KeptMeans(m: string, per: bool, room: int)
    ensures Means(Kept(m, per, room), Units(m, per, room), per)
    decreases |m|
  {
    if m == "" {
    } else if Front(m, per).None? {
    } else {
      var (u, rest) := Front(m, per).value;
      if |Text(u)| <= room {
        KeptMeans(rest, per, room - |Text(u)|);
        KeptFirst(rest, per, room - |Text(u)|);
        FrontKept(m, per, Kept(rest, per, room - |Text(u)|), Units(rest, per, room - |Text(u)|));
      }
    }
  }

  // ------------------------------------------------------------- the expression reads back as the pieces

  function ItemOf(u: Unit): Item {
    match u
    case Many => Star(Any)
    case Single => One(Any)
    case NonBlanks => Star(NonBlank)
    case Blanks => Plus(Blank)
    case Plain(c) => One(Lit(c))
  }

  function Items(us: seq<Unit>): (r: seq<Item>)
    ensures |r| == |us| + 1
  {
    if us == [] then [Eol] else [ItemOf(us[0])] + Items(us[1..])
  }

  predicate QuantifierFirst(p: string) {
    p != "" && p[0] in "*+?"
  }

  lemma BracketReads(u: Unit, rest: string)
    requires u.NonBlanks? || u.Blanks?
    ensures Parse(Text(u) + rest) == Prepend(ItemOf(u), Parse(rest))
  {
    var p := Text(u) + rest;
    if u.NonBlanks? {
      assert p[1] == '^' && !("[ ]" <= p) && "[^ ]" <= p;
      assert p[4] == '*' && p[5..] == rest;
    } else {
      assert "[ ]" <= p;
      assert p[3] == '+' && p[4..] == rest;
    }
  }

  lemma CharReads(c: char, rest: string)
    requires !QuantifierFirst(rest)
    ensures Parse(Text(Plain(c)) + rest) == Prepend(One(Lit(c)), Parse(rest))
  {
    var p := Text(Plain(c)) + rest;
    if c in META {
      assert p[2..] == rest && c !in "dDwWsSbBntr";
    } else {
      assert p[1..] == rest;
    }
  }

  /** One piece's text is read as its item, whatever follows. */
  lemma TextReads(u: Unit, rest: string)
    requires !QuantifierFirst(rest)
    ensures Parse(Text(u) + rest) == Prepend(ItemOf(u), Parse(rest))
  {
    var p := Text(u) + rest;
    match u
    case Many => assert p[1] == '*' && p[2..] == rest;
    case Single => assert p[1..] == rest;
    case Plain(c) => CharReads(c, rest);
    case _ => BracketReads(u, rest);
  }

  lemma TextFirst(u: Unit, rest: string)
    ensures !QuantifierFirst(Text(u) + rest)
  {
  }

  lemma {:induction false} BodyReads(us: seq<Unit>)
    ensures Parse(Body(us) + "$") == Some(Items(us)) && !QuantifierFirst(Body(us) + "$")
  {
    if us == [] {
      assert Body(us) + "$" == "$";
      assert "$"[1..] == "" && Parse("") == Some([]) && ReadAtom("$") == Some((Zero(Eol), 1));
      assert [Eol] + [] == [Eol];
    } else {
      BodyReads(us[1..]);
      assert Body(us) + "$" == Text(us[0]) + (Body(us[1..]) + "$");
      TextReads(us[0], Body(us[1..]) + "$");
      TextFirst(us[0], Body(us[1..]) + "$");
    }
  }

  /** The translation of a list of pieces reads back as those pieces, anchored at both ends. */
  lemma TranslationReads(us: seq<Unit>)
    ensures Parse("^" + Body(us) + "$") == Some([Bol] + Items(us))
  {
    var p := "^" + Body(us) + "$";
    assert p[1..] == Body(us) + "$";
    BodyReads(us);
  }

  // ------------------------------------------------------------- what the expression matches

  lemma ItemsStep(us: seq<Unit>, s: string, i: nat)
    requires us != [] && i <= |s|
    ensures MatchAt(Items(us), 1, s, i) == MatchAt(Items(us[1..]), 0, s, i)
  {
    MatchSuffix(Items(us), 1, s, i);
    assert Items(us)[1..] == Items(us[1..]);
  }

  lemma {:induction false} Sound(us: seq<Unit>, s: string, i: nat) returns (k: nat)
    requires i <= |s| && MatchAt(Items(us), 0, s, i)
    ensures i <= k <= |s| && LineEnd(s, k) && UnitsGlob(us, s[i..k])
    decreases |us|, |s| - i
  {
    if us == [] {
      return i;
    }
    ItemsStep(us, s, i);
    if i < |s| { ItemsStep(us, s, i + 1); }
    if (us[0].Many? || us[0].NonBlanks?) && MatchAt(Items(us[1..]), 0, s, i) {
      k := Sound(us[1..], s, i);
    } else if us[0].Many? || us[0].NonBlanks? || (us[0].Blanks? && !MatchAt(Items(us[1..]), 0, s, i + 1)) {
      k := Sound(us, s, i + 1);
      assert s[i..k][1..] == s[i + 1..k];
    } else {
      k := Sound(us[1..], s, i + 1);
      assert s[i..k][1..] == s[i + 1..k];
    }
  }

  lemma {:induction false} Complete(us: seq<Unit>, s: string, i: nat, k: nat)
    requires i <= k <= |s| && LineEnd(s, k) && UnitsGlob(us, s[i..k])
    ensures MatchAt(Items(us), 0, s, i)
    decreases |us|, |s| - i
  {
    if us != [] {
      ItemsStep(us, s, i);
      if i < k {
        ItemsStep(us, s, i + 1);
        assert s[i..k][1..] == s[i + 1..k];
      }
      if (us[0].Many? || us[0].NonBlanks?) && UnitsGlob(us[1..], s[i..k]) {
        Complete(us[1..], s, i, k);
      } else if us[0].Many? || us[0].NonBlanks? || (us[0].Blanks? && !UnitsGlob(us[1..], s[i + 1..k])) {
        Complete(us, s, i + 1, k);
      } else {
        Complete(us[1..], s, i + 1, k);
      }
    }
  }

  /** The pattern matches the subject up to its end or up to a newline. */
  ghost predicate MatchesLine(p: string, n: string, per: bool) {
    exists k :: 0 <= k <= |n| && LineEnd(n, k) && Glob(p, n[..k], per)
  }

  /** The expression built from the pieces matches exactly what the kept pattern matches. */
  lemma TranslationMeans(m: string, per: bool, room: int, n: string)
    ensures MatchAt([Bol] + Items(Units(m, per, room)), 0, n, 0) <==> MatchesLine(Kept(m, per, room), n, per)
  {
    var us := Units(m, per, room);
    var items := [Bol] + Items(us);
    KeptMeans(m, per, room);
    MatchSuffix(items, 1, n, 0);
    assert items[1..] == Items(us);
    if MatchAt(items, 0, n, 0) {
      var k := Sound(us, n, 0);
      assert n[0..k] == n[..k];
    }
    if k :| 0 <= k <= |n| && LineEnd(n, k) && Glob(Kept(m, per, room), n[..k], per) {
      assert n[0..k] == n[..k];
      Complete(us, n, 0, k);
    }
  }

  /** For a subject without newlines that is the pattern's meaning. */
  lemma WithoutNewline(p: string, n: string, per: bool)
    requires '\n' !in n
    ensures MatchesLine(p, n, per) <==> Glob(p, n, per)
  {
    assert n[..|n|] == n;
    assert LineEnd(n, |n|);
  }

  /** A pattern for exactly the texts of length k. */
  function Questions(k: nat): (r: string)
    ensures |r| == k
  {
    if k == 0 then "" else "?" + Questions(k - 1)
  }

  lemma {:induction false} QuestionsCount(k: nat, n: string, per: bool)
    ensures Glob(Questions(k), n, per) <==> |n| == k
  {
    if k > 0 {
      assert Questions(k)[1..] == Questions(k - 1);
      if n != "" { QuestionsCount(k - 1, n[1..], per); }
    }
  }

  /** In either mode, the answer for a subject is every pattern's meaning if and only if the subject
      has no newline: the end anchor also holds before one. */
  lemma MeaningIffOneLine(n: string, per: bool)
    ensures (forall p :: MatchesLine(p, n, per) <==> Glob(p, n, per)) <==> '\n' !in n
  {
    if '\n' !in n {
      forall p ensures MatchesLine(p, n, per) <==> Glob(p, n, per) { WithoutNewline(p, n, per); }
    } else {
      var k :| 0 <= k < |n| && n[k] == '\n';
      QuestionsCount(k, n[..k], per);
      QuestionsCount(k, n, per);
      assert LineEnd(n, k);
      assert MatchesLine(Questions(k), n, per) && !Glob(Questions(k), n, per);
    }
  }

  /** An instance. */
  lemma NewlineEndsEarly()
    ensures MatchesLine("a", "a\nb", false) && !Glob("a", "a\nb", false)
  {
    var n := "a\nb";
    assert n[..1] == "a" && LineEnd(n, 1);
    assert "a"[1..] == "";
    assert Glob("a", n[..1], false);
    assert n[1..] == "\nb";
  }

  /** For one pattern: a subject with newlines is accepted as it means, or because one of its first lines is. */
  lemma FirstLines(p: string, n: string, per: bool)
    ensures MatchesLine(p, n, per) <==> Glob(p, n, per) || exists k :: 0 <= k < |n| && n[k] == '\n' && Glob(p, n[..k], per)
  {
    assert n[..|n|] == n;
    if MatchesLine(p, n, per) {
      var k :| 0 <= k <= |n| && LineEnd(n, k) && Glob(p, n[..k], per);
    }
    if Glob(p, n, per) { assert LineEnd(n, |n|) && Glob(p, n[..|n|], per); }
    if k :| 0 <= k < |n| && n[k] == '\n' && Glob(p, n[..k], per) { assert LineEnd(n, k); }
  }

  // ------------------------------------------------------------- the code

  method SkipRun(m: string, i: nat, run: string) returns (j: nat)
    requires i <= |m|
    ensures i <= j <= |m| && m[j..] == AfterRun(m[i..], run)
  {
    j := i;
    while j < |m| && m[j] in run
      invariant i <= j <= |m| && AfterRun(m[j..], run) == AfterRun(m[i..], run)
    {
      assert m[j..][1..] == m[j + 1..];
      j := j + 1;
    }
  }

  function Rest(m: string, per: bool, room: int): string {
    Body(Units(m, per, room))
  }

  lemma RestSplits(m: string, per: bool, room: int, u: Unit, rest: string)
    requires m != "" && Front(m, per) == Some((u, rest)) && |Text(u)| <= room
    ensures Rest(m, per, room) == Text(u) + Rest(rest, per, room - |Text(u)|)
  {
    var us := Units(rest, per, room - |Text(u)|);
    assert ([u] + us)[1..] == us;
  }

  /** One turn of the translator: the piece at the front goes out, and the rest is due. */
  lemma TurnOf(m: string, per: bool, room: int, done: string, u: Unit, rest: string, due: string)
    requires m != "" && Front(m, per) == Some((u, rest)) && |Text(u)| <= room
    requires done + Rest(m, per, room) == due
    ensures done + Text(u) + Rest(rest, per, room - |Text(u)|) == due
  {
    RestSplits(m, per, room, u, rest);
    var t, r := Text(u), Rest(rest, per, room - |Text(u)|);
    assert done + t + r == done + (t + r);
  }

  lemma Stops(m: string, per: bool, room: int)
    requires m == "" || Front(m, per).None? || |Text(Front(m, per).value.0)| > room
    ensures Rest(m, per, room) == ""
  {
  }

  /** Where the next piece ends. */
  method NextPiece(m: string, i: nat, per: bool) returns (u: Unit, j: nat)
    requires i < |m| && Front(m[i..], per).Some?
    ensures i < j <= |m| && Front(m[i..], per).value == (u, m[j..])
  {
    var t := m[i..];
    assert t[1..] == m[i + 1..];
    if per && m[i] == '\\' {
      assert t[2..] == m[i + 2..];
      return Plain(m[i + 1]), i + 2;
    } else if m[i] == '*' {
      j := SkipRun(m, i + 1, "*");
      return Many, j;
    } else if m[i] == '?' {
      return Single, i + 1;
    } else if per && m[i] == '%' {
      j := SkipRun(m, i + 1, "%");
      return NonBlanks, j;
    } else if per && m[i] == '~' {
      j := SkipRun(m, i + 1, "~ ");
      return Blanks, j;
    } else {
      return Plain(m[i]), i + 1;
    }
  }

  ghost predicate Due(out: string, m: string, per: bool, room: int, due: string) {
    out + Rest(m, per, room) == due
  }

  /** One turn: writes the piece at `i`, or leaves all as it is when that piece is a backslash at
      the end or does not fit. */
  method Turn(m: string, i: nat, per: bool, out: array<char>, p: nat, end: nat, ghost due: string)
    returns (more: bool, j: nat, q: nat)
    requires i < |m| && p < end < out.Length && Due(out[..p], m[i..], per, end - p, due)
    modifies out
    ensures more ==> i < j <= |m| && p < q <= end && Due(out[..q], m[j..], per, end - q, due)
    ensures !more ==> j == i && q == p && out[..] == old(out[..]) && Rest(m[i..], per, end - p) == ""
  {
    if per && m[i] == '\\' && i + 1 == |m| {
      return false, i, p;
    }
    var u;
    u, j := NextPiece(m, i, per);
    if p + |Text(u)| > end {
      Stops(m[i..], per, end - p);
      return false, i, p;
    }
    TurnOf(m[i..], per, end - p, out[..p], u, m[j..], due);
    q := Emit(out, p, Text(u));
    return true, j, q;
  }

  /** The translator's loop: writes pieces after the start anchor until one does not fit. */
  method EmitPieces(m: string, out: array<char>, per: bool) returns (p: nat)
    requires out.Length >= 4
    modifies out
    ensures 1 <= p <= out.Length - 2 && out[..p] == old(out[..1]) + Rest(m, per, out.Length - 3)
  {
    p := 1;
    var end := out.Length - 2;
    var i: nat := 0;
    ghost var due := out[..1] + Rest(m, per, out.Length - 3);
    assert m[0..] == m;
    while i < |m| && p < end
      invariant i <= |m| && 1 <= p <= end && Due(out[..p], m[i..], per, end - p, due)
      decreases |m| - i
    {
      var more;
      more, i, p := Turn(m, i, per, out, p, end, due);
      if !more {
        return;
      }
    }
    Stops(m[i..], per, end - p);
  }

  /** Translates into the buffer.  The result is the length written, never -1 for a pattern
      that does not fit: that one is silently cut after the last piece that fits. */
  method IrcToEre(m: string, out: array<char>, per: bool) returns (r: int)
    requires '\0' !in m
    modifies out
    ensures out.Length < 4 ==> r == -1
    ensures out.Length >= 4 ==> 0 <= r < out.Length && out[r] == '\0' && out[..r] == "^" + Rest(m, per, out.Length - 3) + "$"
  {
    if out.Length < 4 {
      return -1;
    }
    out[0] := '^';
    assert out[..1] == "^";
    var p := EmitPieces(m, out, per);
    p := Emit(out, p, "$");
    out[p] := '\0';
    return p;
  }

  /** Matching by the expression compiled from the buffer. */
  method CompileAndMatch(m: string, n: string, per: bool) returns (r: int)
    requires '\0' !in m
    ensures r == if MatchesLine(Kept(m, per, 1021), n, per) then 1 else 0
  {
    var ere := new char[1024];
    var len := IrcToEre(m, ere, per);
    if len < 0 {
      return 0;
    }
    ghost var us := Units(m, per, 1021);
    TranslationReads(us);
    TranslationMeans(m, per, 1021, n);
    var items := Parse(ere[..len]);
    if items.None? {
      return 0;
    }
    var found := Search(items.value, n);
    return if found then 1 else 0;
  }

  /** What the plain matcher accepts. */
  ghost predicate Wild(m: string, n: string) {
    m != "" && n != "" && MatchesLine(Kept(m, false, 1021), n, false)
  }

  method WildMatch(m: string, n: string) returns (r: int)
    requires '\0' !in m
    ensures r == if Wild(m, n) then 1 else 0
  {
    if m == "" || n == "" {
      return 0;
    }
    r := CompileAndMatch(m, n, false);
  }

  /** What the per matcher accepts. */
  ghost predicate WildPer(m: string, n: string) {
    n != "" && MatchesLine(Kept(m, true, 1021), n, true)
  }

  method WildMatchPer(m: string, n: string) returns (r: int)
    requires '\0' !in m
    ensures r == if WildPer(m, n) then 1 else 0
  {
    if n == "" {
      return 0;
    }
    r := CompileAndMatch(m, n, true);
  }

  // ------------------------------------------------------------- a pattern that is cut

  function As(n: nat): string {
    if n == 0 then "" else "a" + As(n - 1)
  }

  lemma {:induction false} KeptAs(n: nat, room: nat)
    ensures Kept(As(n), false, room) == As(if n <= room then n else room)
  {
    if n > 0 {
      var m := As(n);
      assert m[1..] == As(n - 1) && m[0] == 'a' && Front(m, false) == Some((Plain('a'), As(n - 1)));
      if room > 0 {
        KeptAs(n - 1, room - 1);
        assert |m| - |As(n - 1)| == 1 && m[..1] == "a";
      }
    }
  }

  lemma {:induction false} GlobAs(n: nat, k: nat)
    ensures Glob(As(n), As(k), false) <==> n == k
    ensures |As(n)| == n && '\n' !in As(k)
  {
    if n > 0 {
      assert As(n)[1..] == As(n - 1);
      if k > 0 { assert As(k)[1..] == As(k - 1); }
      GlobAs(n - 1, if k > 0 then k - 1 else 0);
    } else if k > 0 {
      GlobAs(0, k - 1);
    }
  }

  /** Plain mode: for a pattern whose translation fits and a subject without newlines the answer is
      the pattern's meaning; every pattern of up to 510 characters fits. */
  method WildMatchIsGlob(m: string, n: string) returns (r: int)
    requires '\0' !in m && '\n' !in n && Cost(m, false) <= 1021
    ensures r == 1 <==> m != "" && n != "" && Glob(m, n, false)
  {
    KeptAll(m, false, 1021);
    WithoutNewline(m, n, false);
    r := WildMatch(m, n);
  }

  /** Per mode: likewise, with the empty pattern matching no subject that is compared at all. */
  method WildMatchPerIsGlob(m: string, n: string) returns (r: int)
    requires '\0' !in m && '\n' !in n && Cost(m, true) <= 1021
    ensures r == 1 <==> n != "" && Glob(m, n, true)
  {
    KeptAll(m, true, 1021);
    WithoutNewline(m, n, true);
    r := WildMatchPer(m, n);
  }
}
