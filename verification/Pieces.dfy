/** Patterns as lists of pieces, in either mode: what cutting one short does to its meaning. */
module Pieces {
  import opened Regex
  import opened Wildcards
  import opened Matching

  /** All the pieces of a pattern, however much room they take. */
  function Whole(m: string, per: bool): seq<Unit> {
    Units(m, per, Cost(m, per))
  }

  /** The room a list of pieces takes. */
  function Room(us: seq<Unit>): nat {
    if us == [] then 0 else |Text(us[0])| + Room(us[1..])
  }

  lemma {:induction false} UnitsRoom(m: string, per: bool, room: nat)
    ensures Room(Units(m, per, room)) <= room
    ensures Cost(m, per) <= room ==> Room(Units(m, per, room)) == Cost(m, per)
    decreases |m|
  {
    if m != "" && Front(m, per).Some? && |Text(Front(m, per).value.0)| <= room {
      var (u, rest) := Front(m, per).value;
      UnitsRoom(rest, per, room - |Text(u)|);
      RoomCons(u, Units(rest, per, room - |Text(u)|));
      assert Units(m, per, room) == [u] + Units(rest, per, room - |Text(u)|);
    }
  }

  lemma RoomCons(u: Unit, us: seq<Unit>)
    ensures Room([u] + us) == |Text(u)| + Room(us)
  {
    assert ([u] + us)[1..] == us;
  }

  lemma WholeMeans(m: string, per: bool)
    ensures Means(m, Whole(m, per), per) && Room(Whole(m, per)) == Cost(m, per)
  {
    KeptAll(m, per, Cost(m, per));
    KeptMeans(m, per, Cost(m, per));
    UnitsRoom(m, per, Cost(m, per));
  }

  /** The pieces that fit come first. */
  lemma {:induction false} UnitsPrefix(m: string, per: bool, room: int, more: int)
    requires room <= more || Cost(m, per) <= more
    ensures Units(m, per, room) <= Units(m, per, more)
    decreases |m|
  {
    if m != "" && Front(m, per).Some? {
      var (u, rest) := Front(m, per).value;
      if |Text(u)| <= room {
        UnitsPrefix(rest, per, room - |Text(u)|, more - |Text(u)|);
      }
    }
  }

  // ------------------------------------------------------------- lists one after the other

  /** Lists of pieces one after the other match texts one after the other ... */
  lemma {:induction false} UnitsConcat(a: seq<Unit>, b: seq<Unit>, x: string, y: string)
    requires UnitsGlob(a, x) && UnitsGlob(b, y)
    ensures UnitsGlob(a + b, x + y)
    decreases |a|, |x|
  {
    if a == [] {
      assert a + b == b && x + y == y;
    } else {
      assert (a + b)[1..] == a[1..] + b && (a + b)[0] == a[0];
      if x != "" { assert (x + y)[1..] == x[1..] + y && (x + y)[0] == x[0]; }
      if (a[0].Many? || a[0].NonBlanks?) && UnitsGlob(a[1..], x) {
        UnitsConcat(a[1..], b, x, y);
      } else if a[0].Many? || a[0].NonBlanks? || (a[0].Blanks? && !UnitsGlob(a[1..], x[1..])) {
        UnitsConcat(a, b, x[1..], y);
      } else {
        UnitsConcat(a[1..], b, x[1..], y);
      }
    }
  }

  /** ... and nothing else. */
  lemma {:induction false} UnitsSplit(a: seq<Unit>, b: seq<Unit>, n: string) returns (k: nat)
    requires UnitsGlob(a + b, n)
    ensures k <= |n| && UnitsGlob(a, n[..k]) && UnitsGlob(b, n[k..])
    decreases |a|, |n|
  {
    if a == [] {
      assert a + b == b;
      return 0;
    }
    assert (a + b)[1..] == a[1..] + b && (a + b)[0] == a[0];
    if (a[0].Many? || a[0].NonBlanks?) && UnitsGlob(a[1..] + b, n) {
      k := UnitsSplit(a[1..], b, n);
    } else if a[0].Many? || a[0].NonBlanks? || (a[0].Blanks? && !UnitsGlob(a[1..] + b, n[1..])) {
      k := UnitsSplit(a, b, n[1..]);
      k := k + 1;
      assert n[..k][1..] == n[1..][..k - 1];
    } else {
      k := UnitsSplit(a[1..], b, n[1..]);
      k := k + 1;
      assert n[..k][1..] == n[1..][..k - 1];
    }
  }

  lemma {:induction false} ManyTakes(n: string)
    ensures UnitsGlob([Many], n)
  {
    assert [Many][1..] == [];
    if n != "" { ManyTakes(n[1..]); }
  }

  // ------------------------------------------------------------- the shortest match

  predicate NeedsOne(u: Unit) {
    u.Single? || u.Blanks? || u.Plain?
  }

  function Least(us: seq<Unit>): string {
    if us == [] then ""
    else
      (match us[0]
       case Plain(c) => [c]
       case Single => "a"
       case Blanks => " "
       case _ => "")
      + Least(us[1..])
  }

  lemma {:induction false} LeastMatches(us: seq<Unit>)
    ensures UnitsGlob(us, Least(us))
  {
    if us != [] {
      LeastMatches(us[1..]);
      if NeedsOne(us[0]) {
        assert Least(us)[1..] == Least(us[1..]);
      } else {
        assert Least(us) == Least(us[1..]);
      }
    }
  }

  lemma {:induction false} NothingLess(us: seq<Unit>, n: string)
    requires UnitsGlob(us, n)
    ensures |n| >= |Least(us)|
    decreases |us|, |n|
  {
    if us != [] {
      if UnitsGlob(us[1..], n) && !NeedsOne(us[0]) {
        NothingLess(us[1..], n);
      } else if UnitsGlob(us[1..], n[1..]) && NeedsOne(us[0]) {
        NothingLess(us[1..], n[1..]);
      } else {
        NothingLess(us, n[1..]);
      }
    }
  }

  lemma {:induction false} LeastEmpty(us: seq<Unit>)
    ensures Least(us) == "" <==> forall u :: u in us ==> !NeedsOne(u)
  {
    if us != [] {
      LeastEmpty(us[1..]);
      assert us == [us[0]] + us[1..];
      if NeedsOne(us[0]) {
        assert us[0] in us && |Least(us)| >= 1;
      }
    }
  }

  lemma {:induction false} LeastConcat(a: seq<Unit>, b: seq<Unit>)
    ensures Least(a + b) == Least(a) + Least(b)
  {
    if a == [] {
      assert a + b == b;
    } else {
      assert (a + b)[1..] == a[1..] + b;
      LeastConcat(a[1..], b);
    }
  }

  // ------------------------------------------------------------- an open end takes any extension

  predicate Loose(us: seq<Unit>) {
    forall u :: u in us ==> u.Many? || u.NonBlanks? || u.Single?
  }

  /** Any text, followed by nothing but pieces that ask at most for length. */
  predicate Open(us: seq<Unit>) {
    exists i :: 0 <= i < |us| && us[i] == Many && Loose(us[i + 1..])
  }

  lemma {:induction false} LooseMatches(us: seq<Unit>, n: string)
    requires Loose(us) && |n| == |Least(us)|
    ensures UnitsGlob(us, n)
  {
    if us != [] {
      assert us[0] in us;
      assert Loose(us[1..]) by { assert forall u :: u in us[1..] ==> u in us; }
      LooseMatches(us[1..], if us[0].Single? then n[1..] else n);
    }
  }

  lemma ManyExtends(a: seq<Unit>, x: string, y: string)
    requires UnitsGlob(a + [Many], x)
    ensures UnitsGlob(a + [Many], x + y)
  {
    var j := UnitsSplit(a, [Many], x);
    ManyTakes(x[j..] + y);
    UnitsConcat(a, [Many], x[..j], x[j..] + y);
    assert x[..j] + (x[j..] + y) == x + y;
  }

  lemma LooseExtends(a: seq<Unit>, t: seq<Unit>, n: string, y: string)
    requires Loose(t) && UnitsGlob(a + [Many] + t, n)
    ensures UnitsGlob(a + [Many] + t, n + y)
  {
    var k := UnitsSplit(a + [Many], t, n);
    NothingLess(t, n[k..]);
    var z := n + y;
    var q := |z| - |Least(t)|;
    ManyExtends(a, n[..k], z[k..q]);
    LooseMatches(t, z[q..]);
    UnitsConcat(a + [Many], t, n[..k] + z[k..q], z[q..]);
    assert n[..k] + z[k..q] + z[q..] == z;
  }

  lemma OpenExtends(us: seq<Unit>, n: string, y: string)
    requires Open(us) && UnitsGlob(us, n)
    ensures UnitsGlob(us, n + y)
  {
    var i :| 0 <= i < |us| && us[i] == Many && Loose(us[i + 1..]);
    assert us == us[..i] + [Many] + us[i + 1..];
    LooseExtends(us[..i], us[i + 1..], n, y);
  }

  // ------------------------------------------------------------- without any text, few changes between blanks and words

  /** How often a text goes from blanks to something else or back. */
  function Changes(n: string): nat {
    if |n| < 2 then 0 else (if (n[0] == ' ') != (n[1] == ' ') then 1 else 0) + Changes(n[1..])
  }

  lemma {:induction false} FewChanges(us: seq<Unit>, n: string)
    requires UnitsGlob(us, n) && Many !in us && n != ""
    ensures Changes(n) < |us|
    decreases |us|, |n|
  {
    assert us[0] in us && Many !in us[1..];
    if us[0].NonBlanks? && UnitsGlob(us[1..], n) {
      FewChanges(us[1..], n);
    } else if |n| > 1 {
      if (us[0].NonBlanks? && n[1] != ' ') || (us[0].Blanks? && !UnitsGlob(us[1..], n[1..])) {
        FewChanges(us, n[1..]);
      } else {
        FewChanges(us[1..], n[1..]);
      }
    }
  }

  /** Words of one letter. */
  function Words(k: nat): (s: string)
    ensures |s| == 2 * k
  {
    if k == 0 then "" else " a" + Words(k - 1)
  }

  lemma {:induction false} WordsChange(x: string, k: nat)
    ensures Changes(x + Words(k)) >= k
    decreases k, |x|
  {
    if x != "" {
      assert (x + Words(k))[1..] == x[1..] + Words(k);
      WordsChange(x[1..], k);
    } else if k > 0 {
      var n := x + Words(k);
      assert n == " a" + Words(k - 1) && n[1..] == "a" + Words(k - 1);
      WordsChange("a", k - 1);
    }
  }

  /** A list with a piece for any text, and none that needs a character, matches everything. */
  lemma AnyMatches(us: seq<Unit>, n: string)
    requires Many in us && forall u :: u in us ==> !NeedsOne(u)
    ensures UnitsGlob(us, n)
  {
    var i :| 0 <= i < |us| && us[i] == Many;
    LeastMatches(us);
    LeastEmpty(us);
    LeastEmpty(us[..i]);
    LeastEmpty(us[i + 1..]);
    LeastMatches(us[..i]);
    LeastMatches(us[i + 1..]);
    ManyTakes(n);
    UnitsConcat(us[..i], [Many], "", n);
    UnitsConcat(us[..i] + [Many], us[i + 1..], "" + n, "");
    assert us == us[..i] + [Many] + us[i + 1..] && "" + n + "" == n;
  }

  // ------------------------------------------------------------- what a cut does

  /** A dropped piece that needs a character: the shortest match of what is kept is lost. */
  lemma NeedyCut(us: seq<Unit>, rest: seq<Unit>)
    requires exists u :: u in rest && NeedsOne(u)
    ensures UnitsGlob(us, Least(us)) && !UnitsGlob(us + rest, Least(us))
  {
    LeastMatches(us);
    LeastEmpty(rest);
    LeastConcat(us, rest);
    if UnitsGlob(us + rest, Least(us)) { NothingLess(us + rest, Least(us)); }
  }

  /** A dropped piece for any text, where none was kept: texts of many words are lost. */
  lemma WordyCut(us: seq<Unit>, rest: seq<Unit>) returns (n: string)
    requires Many !in us && Many in rest && forall u :: u in rest ==> !NeedsOne(u)
    ensures UnitsGlob(us + rest, n) && !UnitsGlob(us, n)
  {
    n := Least(us) + Words(|us| + 1);
    LeastMatches(us);
    AnyMatches(rest, Words(|us| + 1));
    UnitsConcat(us, rest, Least(us), Words(|us| + 1));
    WordsChange(Least(us), |us| + 1);
    if UnitsGlob(us, n) { FewChanges(us, n); }
  }

  /** Nothing dropped but pieces that can be nothing, behind an open end. */
  lemma IdleCut(us: seq<Unit>, rest: seq<Unit>, n: string)
    requires Open(us) && forall u :: u in rest ==> !NeedsOne(u)
    ensures UnitsGlob(us, n) <==> UnitsGlob(us + rest, n)
  {
    if UnitsGlob(us, n) {
      LeastEmpty(rest);
      LeastMatches(rest);
      UnitsConcat(us, rest, n, "");
      assert n + "" == n;
    }
    if UnitsGlob(us + rest, n) {
      var k := UnitsSplit(us, rest, n);
      OpenExtends(us, n[..k], n[k..]);
      assert n[..k] + n[k..] == n;
    }
  }

  lemma CutByPieces(k: string, m: string, us: seq<Unit>, rest: seq<Unit>, per: bool)
    requires Means(k, us, per) && Means(m, us + rest, per)
    ensures (exists u :: u in rest && NeedsOne(u)) ==> !SameLanguage(k, m, per)
    ensures Many in rest && Many !in us ==> !SameLanguage(k, m, per)
    ensures (forall u :: u in rest ==> !NeedsOne(u)) && Open(us) ==> SameLanguage(k, m, per)
  {
    if exists u :: u in rest && NeedsOne(u) {
      NeedyCut(us, rest);
      assert Glob(k, Least(us), per) && !Glob(m, Least(us), per);
    } else if Many in rest && Many !in us {
      var n := WordyCut(us, rest);
      assert Glob(m, n, per) && !Glob(k, n, per);
    } else if Open(us) {
      forall n ensures Glob(k, n, per) <==> Glob(m, n, per) { IdleCut(us, rest, n); }
    }
  }

  /** The pieces that did not fit. */
  function Dropped(m: string, per: bool, room: nat): (rest: seq<Unit>)
    ensures Whole(m, per) == Units(m, per, room) + rest
  {
    UnitsPrefix(m, per, room, Cost(m, per));
    Whole(m, per)[|Units(m, per, room)|..]
  }

  lemma NothingDropped(m: string, per: bool, room: nat)
    ensures Dropped(m, per, room) == [] <==> Cost(m, per) <= room
  {
    var us, rest := Units(m, per, room), Dropped(m, per, room);
    WholeMeans(m, per);
    UnitsRoom(m, per, room);
    if Cost(m, per) <= room {
      UnitsPrefix(m, per, Cost(m, per), room);
      assert |us + rest| <= |us|;
    } else {
      assert Room(us + rest) != Room(us);
      assert us + [] == us;
    }
  }

  /** In either mode, a cut pattern loses its meaning if a piece that did not fit needs a character, or
      is a star and none was kept; it keeps it if none of them needs a character and what is kept has
      an open end. */
  lemma CutMeaning(m: string, per: bool, room: nat)
    ensures var k, us, rest := Kept(m, per, room), Units(m, per, room), Dropped(m, per, room);
            && (rest == [] ==> SameLanguage(k, m, per))
            && ((exists u :: u in rest && NeedsOne(u)) ==> !SameLanguage(k, m, per))
            && (Many in rest && Many !in us ==> !SameLanguage(k, m, per))
            && ((forall u :: u in rest ==> !NeedsOne(u)) && Open(us) ==> SameLanguage(k, m, per))
  {
    WholeMeans(m, per);
    KeptMeans(m, per, room);
    NothingDropped(m, per, room);
    KeptAll(m, per, room);
    CutByPieces(Kept(m, per, room), m, Units(m, per, room), Dropped(m, per, room), per);
  }
}
