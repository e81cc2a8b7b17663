/** Patterns that fit the translator's buffer, and subjects of several lines: when the matchers answer
    what the pattern means. */
module LineEnds {
  import opened Wrappers
  import opened Regex
  import opened Wildcards
  import opened Matching
  import opened Cutting
  import opened Pieces

  /** The character that stands r places before a newline at k is not the one r places before the end,
      and a star, that character and r question marks fit. */
  ghost predicate Pinned(n: string, k: nat, r: nat) {
    && r < k < |n|
    && n[k - 1 - r] !in "*?" && Fold(n[k - 1 - r]) != Fold(n[|n| - 1 - r])
    && 2 + |Text(Plain(n[k - 1 - r]))| + r <= 1021
  }

  /** Some pattern that fits tells the subject from its beginning up to the newline at k. */
  ghost predicate Tells(n: string, k: nat) {
    && 1 <= k < |n| && n[k] == '\n'
    && (k <= 1021 || exists r :: Pinned(n, k, r))
  }

  // ------------------------------------------------------------- a pattern that tells

  lemma {:induction false} QuestionsCost(k: nat, per: bool)
    ensures Cost(Questions(k), per) == k
  {
    if k > 0 {
      assert Questions(k)[1..] == Questions(k - 1);
      QuestionsCost(k - 1, per);
    }
  }

  lemma PinCost(c: char, r: nat)
    requires c !in "*?"
    ensures Cost("*" + [c] + Questions(r), false) == 2 + |Text(Plain(c))| + r
  {
    var t := [c] + Questions(r);
    var p := "*" + [c] + Questions(r);
    assert p[1..] == t && AfterRun(t, "*") == t;
    assert t[1..] == Questions(r) && Front(t, false) == Some((Plain(c), Questions(r)));
    QuestionsCost(r, false);
    assert Front(p, false) == Some((Many, t));
  }

  lemma OneChar(c: char)
    requires c !in "*?"
    ensures Glob([c], [c], false)
  {
    assert [c][1..] == "";
  }

  lemma PinMatches(x: string, c: char, y: string)
    requires c !in "*?"
    ensures Glob("*" + [c] + Questions(|y|), x + [c] + y, false)
  {
    StarsTake("*", x);
    OneChar(c);
    GlobConcat("*", [c], x, [c]);
    QuestionsCount(|y|, y, false);
    GlobConcat("*" + [c], Questions(|y|), x + [c], y);
  }

  /** A fitting pattern that matches up to a newline is accepted. */
  lemma Accepted(p: string, n: string, k: nat, per: bool)
    requires Cost(p, per) <= 1021 && k < |n| && n[k] == '\n' && Glob(p, n[..k], per)
    ensures MatchesLine(Kept(p, per, 1021), n, per)
  {
    KeptAll(p, per, 1021);
    assert LineEnd(n, k);
  }

  lemma CountTells(n: string, k: nat, per: bool)
    requires k < |n| && n[k] == '\n' && k <= 1021
    ensures Cost(Questions(k), per) <= 1021 && MatchesLine(Kept(Questions(k), per, 1021), n, per) && !Glob(Questions(k), n, per)
  {
    QuestionsCost(k, per);
    QuestionsCount(k, n[..k], per);
    QuestionsCount(k, n, per);
    Accepted(Questions(k), n, k, per);
  }

  lemma PinTells(n: string, k: nat, r: nat)
    requires Pinned(n, k, r) && n[k] == '\n'
    ensures var p := "*" + [n[k - 1 - r]] + Questions(r);
            Cost(p, false) <= 1021 && MatchesLine(Kept(p, false, 1021), n, false) && !Glob(p, n, false)
  {
    var c, i := n[k - 1 - r], k - 1 - r;
    var p := "*" + [c] + Questions(r);
    PinCost(c, r);
    PinMatches(n[..i], c, n[i + 1..k]);
    assert n[..k] == n[..i] + [c] + n[i + 1..k];
    Accepted(p, n, k, false);
    if Glob(p, n, false) { EndFixed("*", c, r, n); }
  }

  lemma Teller(n: string, k: nat) returns (p: string)
    requires Tells(n, k)
    ensures Cost(p, false) <= 1021 && Wild(p, n) && !Glob(p, n, false)
  {
    if k <= 1021 {
      CountTells(n, k, false);
      p := Questions(k);
    } else {
      var r :| Pinned(n, k, r);
      PinTells(n, k, r);
      p := "*" + [n[k - 1 - r]] + Questions(r);
    }
  }

  // ------------------------------------------------------------- no pattern tells

  /** The pieces of plain patterns. */
  predicate PlainMode(us: seq<Unit>) {
    forall u :: u in us ==> u.Many? || u.Single? || (u.Plain? && u.c !in "*?")
  }

  lemma {:induction false} UnitsPlain(m: string, room: int)
    ensures PlainMode(Units(m, false, room))
    decreases |m|
  {
    if m != "" {
      var (u, rest) := Front(m, false).value;
      UnitsPlain(rest, room - |Text(u)|);
    }
  }

  /** Without a star, piece by piece. */
  lemma {:induction false} Fixed(us: seq<Unit>, n: string)
    requires PlainMode(us) && Many !in us
    ensures UnitsGlob(us, n) <==> |n| == |us| && forall j :: 0 <= j < |us| && us[j].Plain? ==> Fold(us[j].c) == Fold(n[j])
  {
    if us != [] {
      assert us[0] in us && us == [us[0]] + us[1..];
      if n != "" {
        Fixed(us[1..], n[1..]);
        assert n == [n[0]] + n[1..];
      }
    }
  }

  lemma {:induction false} RoomOf(us: seq<Unit>, j: nat)
    requires j < |us|
    ensures Room(us) >= j + |Text(us[j])| + (|us| - 1 - j)
  {
    if j > 0 {
      RoomOf(us[1..], j - 1);
    } else if |us| > 1 {
      RoomOf(us[1..], 0);
    }
  }

  lemma {:induction false} RoomConcat(a: seq<Unit>, b: seq<Unit>)
    ensures Room(a + b) == Room(a) + Room(b)
  {
    if a == [] {
      assert a + b == b;
    } else {
      assert (a + b)[1..] == a[1..] + b;
      RoomConcat(a[1..], b);
    }
  }

  lemma {:induction false} LastMany(us: seq<Unit>) returns (i: nat)
    requires Many in us
    ensures i < |us| && us[i] == Many && Many !in us[i + 1..]
  {
    if Many in us[1..] {
      i := LastMany(us[1..]);
      i := i + 1;
    } else {
      i := 0;
    }
  }

  lemma EndAgreesAt(b: seq<Unit>, j: nat, n: string, k: nat)
    requires PlainMode(b) && j < |b| <= k < |n| && Room(b) <= 1019 && b[j].Plain?
    requires Fold(b[j].c) == Fold(n[k - |b| + j]) && !Pinned(n, k, |b| - 1 - j)
    ensures Fold(b[j].c) == Fold(n[|n| - |b| + j])
  {
    RoomOf(b, j);
    assert b[j] in b;
    SameText(b[j].c, n[k - |b| + j]);
  }

  /** What stands behind the last star matches the end of the subject as it does that of its first line. */
  lemma EndAgrees(b: seq<Unit>, n: string, k: nat)
    requires PlainMode(b) && Many !in b && |b| <= k < |n| && Room(b) <= 1019
    requires UnitsGlob(b, n[k - |b|..k]) && forall r :: !Pinned(n, k, r)
    ensures UnitsGlob(b, n[|n| - |b|..])
  {
    var y, z := n[k - |b|..k], n[|n| - |b|..];
    Fixed(b, y);
    Fixed(b, z);
    forall j | 0 <= j < |b| && b[j].Plain? ensures Fold(b[j].c) == Fold(z[j]) {
      assert y[j] == n[k - |b| + j] && z[j] == n[|n| - |b| + j];
      EndAgreesAt(b, j, n, k);
    }
  }

  lemma SameText(c: char, d: char)
    requires Fold(c) == Fold(d)
    ensures |Text(Plain(c))| == |Text(Plain(d))| && (c in "*?" <==> d in "*?")
  {
  }

  /** With a star in front, more may stand in between. */
  lemma Stretched(a: seq<Unit>, b: seq<Unit>, x: string, y: string, z: string)
    requires UnitsGlob(a + [Many], x) && UnitsGlob(b, z)
    ensures UnitsGlob(a + [Many] + b, x + y + z)
  {
    ManyExtends(a, x, y);
    UnitsConcat(a + [Many], b, x + y, z);
  }

  lemma FirstLine(n: string, k: nat, i: nat)
    requires i <= k <= |n|
    ensures n[..k][i..] == n[i..k] && n[..k][..i] == n[..i]
  {
  }

  lemma Joined(n: string, i: nat, j: nat)
    requires i <= j <= |n|
    ensures n[..i] + n[i..j] + n[j..] == n
  {
  }

  lemma StarStretches(a: seq<Unit>, b: seq<Unit>, n: string, k: nat)
    requires PlainMode(b) && Many !in b && k < |n| && Room(b) <= 1019
    requires UnitsGlob(a + [Many] + b, n[..k]) && forall r :: !Pinned(n, k, r)
    ensures UnitsGlob(a + [Many] + b, n)
  {
    var i := UnitsSplit(a + [Many], b, n[..k]);
    FirstLine(n, k, i);
    Fixed(b, n[i..k]);
    EndAgrees(b, n, k);
    var j := |n| - |b|;
    Stretched(a, b, n[..i], n[i..j], n[j..]);
    Joined(n, i, j);
  }

  /** Pieces that fit and match up to a newline which none tells match everything. */
  lemma NoneTells(us: seq<Unit>, n: string, k: nat)
    requires us != [] && PlainMode(us) && Room(us) <= 1021
    requires k < |n| && n[k] == '\n' && !Tells(n, k) && UnitsGlob(us, n[..k])
    ensures UnitsGlob(us, n)
  {
    if Many in us {
      var i := LastMany(us);
      var b := us[i + 1..];
      assert us == us[..i] + [Many] + b;
      RoomConcat(us[..i] + [Many], b);
      RoomOf(us[..i] + [Many], i);
      assert forall u :: u in b ==> u in us;
      StarStretches(us[..i], b, n, k);
    } else {
      Fixed(us, n[..k]);
      RoomOf(us, 0);
    }
  }

  lemma NotTold(p: string, n: string, k: nat)
    requires p != "" && Cost(p, false) <= 1021 && k < |n| && n[k] == '\n' && !Tells(n, k) && Glob(p, n[..k], false)
    ensures Glob(p, n, false)
  {
    var us := Whole(p, false);
    WholeMeans(p, false);
    UnitsPlain(p, Cost(p, false));
    assert us != [];
    NoneTells(us, n, k);
  }

  // ------------------------------------------------------------- which subjects are matched as patterns mean

  /** Plain mode, over the patterns whose translation fits: the answer for a subject is every pattern's
      meaning if and only if no newline in it can be told by such a pattern. */
  lemma AnswersMeanIff(n: string)
    ensures (forall p :: Cost(p, false) <= 1021 ==> (Wild(p, n) <==> p != "" && n != "" && Glob(p, n, false)))
            <==> !exists k :: Tells(n, k)
  {
    if k :| Tells(n, k) {
      var p := Teller(n, k);
    } else {
      forall p | Cost(p, false) <= 1021 ensures Wild(p, n) <==> p != "" && n != "" && Glob(p, n, false) {
        KeptAll(p, false, 1021);
        FirstLines(p, n, false);
        if k :| p != "" && 0 <= k < |n| && n[k] == '\n' && Glob(p, n[..k], false) { NotTold(p, n, k); }
      }
    }
  }

  lemma {:induction false} AllAs(j: nat)
    ensures |As(j)| == j && forall i :: 0 <= i < j ==> As(j)[i] == 'a'
  {
    if j > 0 { AllAs(j - 1); }
  }

  lemma AlikeNotPinned(j: nat, r: nat)
    requires r < j
    ensures !Pinned(As(j) + "\n" + As(j), j, r)
  {
    AllAs(j);
    var n := As(j) + "\n" + As(j);
    assert n[j - 1 - r] == As(j)[j - 1 - r];
    assert n[|n| - 1 - r] == As(j)[j - 1 - r];
  }

  /** An instance: two long lines that end alike are told apart by no pattern that fits. */
  lemma LongLinesAlike(j: nat)
    requires j > 1021
    ensures forall k :: !Tells(As(j) + "\n" + As(j), k)
  {
    var n := As(j) + "\n" + As(j);
    AllAs(j);
    forall k: nat ensures !Tells(n, k) {
      if k < |n| && n[k] == '\n' {
        assert k == j;
        forall r: nat ensures !Pinned(n, k, r) {
          if r < k { AlikeNotPinned(j, r); }
        }
      }
    }
  }

  /** Per mode likewise, for a subject that has its first newline, if any, within the buffer's reach. */
  lemma AnswersMeanPerIff(n: string)
    requires '\n' in n ==> '\n' in n[..if |n| < 1022 then |n| else 1022]
    ensures (forall p :: Cost(p, true) <= 1021 ==> (WildPer(p, n) <==> n != "" && Glob(p, n, true))) <==> '\n' !in n
  {
    if '\n' in n {
      var k :| 0 <= k < |n| && k <= 1021 && n[k] == '\n';
      CountTells(n, k, true);
      assert WildPer(Questions(k), n) && !Glob(Questions(k), n, true);
    } else {
      forall p | Cost(p, true) <= 1021 ensures WildPer(p, n) <==> n != "" && Glob(p, n, true) {
        KeptAll(p, true, 1021);
        WithoutNewline(p, n, true);
      }
    }
  }
}
