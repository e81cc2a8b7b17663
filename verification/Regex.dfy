/** The part of the regular-expression engine (libop) that anchored patterns without groups use:
    reading a pattern, what it means, and the simulation with a set of live states. */
module Regex {
  import opened Wrappers

  /** A set of characters: all, one character (in either case), a blank, or everything but blanks. */
  datatype Chars = Any | Lit(c: char) | Blank | NonBlank

  datatype Item = Bol | Eol | One(cs: Chars) | Star(cs: Chars) | Plus(cs: Chars) | Opt(cs: Chars)

  /** tolower on bytes. */
  function Fold(c: char): char {
    if 'A' <= c <= 'Z' then (c as int + 32) as char else c
  }

  predicate Accepts(cs: Chars, c: char) {
    match cs
    case Any => true
    case Lit(d) => Fold(d) == Fold(c)
    case Blank => c == ' '
    case NonBlank => c != ' '
  }

  // ------------------------------------------------------------- reading a pattern

  datatype Atom = Zero(item: Item) | Consuming(cs: Chars)

  /** The atom at the front and the characters it takes.  None: an escape class, a group, an
      alternation, a counted repetition, another bracket, or a quantifier out of place. */
  function ReadAtom(p: string): (r: Option<(Atom, nat)>)
    requires p != ""
    ensures r.Some? ==> 0 < r.value.1 <= |p|
  {
    var c := p[0];
    if c == '\\' && |p| > 1 then
      if p[1] in "dDwWsSbBntr" then None else Some((Consuming(Lit(p[1])), 2))
    else if c == '.' then Some((Consuming(Any), 1))
    else if c == '^' then Some((Zero(Bol), 1))
    else if c == '$' then Some((Zero(Eol), 1))
    else if c == '[' then
      if "[ ]" <= p then Some((Consuming(Blank), 3))
      else if "[^ ]" <= p then Some((Consuming(NonBlank), 4))
      else None
    else if c in "*+?{()|" then None
    else Some((Consuming(Lit(c)), 1))
  }

  function Prepend(item: Item, rest: Option<seq<Item>>): Option<seq<Item>> {
    if rest.Some? then Some([item] + rest.value) else None
  }

  function Parse(p: string): Option<seq<Item>>
    decreases |p|
  {
    if p == "" then Some([])
    else
      match ReadAtom(p)
      case None => None
      case Some((Zero(item), k)) => Prepend(item, Parse(p[k..]))
      case Some((Consuming(cs), k)) =>
        if k < |p| && p[k] == '*' then Prepend(Star(cs), Parse(p[k + 1..]))
        else if k < |p| && p[k] == '+' then Prepend(Plus(cs), Parse(p[k + 1..]))
        else if k < |p| && p[k] == '?' then Prepend(Opt(cs), Parse(p[k + 1..]))
        else Prepend(One(cs), Parse(p[k..]))
  }

  // ------------------------------------------------------------- what a pattern means

  predicate LineStart(s: string, i: nat)
    requires i <= |s|
  {
    i == 0 || s[i - 1] == '\n'
  }

  /** The end anchor holds at the end of the text and before any newline. */
  predicate LineEnd(s: string, i: nat)
    requires i <= |s|
  {
    i == |s| || s[i] == '\n'
  }

  predicate Takes(cs: Chars, s: string, i: nat)
    requires i <= |s|
  {
    i < |s| && Accepts(cs, s[i])
  }

  /** The items from `j` on match a stretch of `s` that starts at `i`. */
  predicate MatchAt(items: seq<Item>, j: nat, s: string, i: nat)
    requires j <= |items| && i <= |s|
    decreases |items| - j, |s| - i
  {
    if j == |items| then true
    else
      match items[j]
      case Bol => LineStart(s, i) && MatchAt(items, j + 1, s, i)
      case Eol => LineEnd(s, i) && MatchAt(items, j + 1, s, i)
      case One(cs) => Takes(cs, s, i) && MatchAt(items, j + 1, s, i + 1)
      case Star(cs) => MatchAt(items, j + 1, s, i) || (Takes(cs, s, i) && MatchAt(items, j, s, i + 1))
      case Plus(cs) => Takes(cs, s, i) && (MatchAt(items, j + 1, s, i + 1) || MatchAt(items, j, s, i + 1))
      case Opt(cs) => MatchAt(items, j + 1, s, i) || (Takes(cs, s, i) && MatchAt(items, j + 1, s, i + 1))
  }

  /** Only the items from `j` on matter. */
  lemma {:induction false} MatchSuffix(items: seq<Item>, j: nat, s: string, i: nat)
    requires 0 < j <= |items| && i <= |s|
    ensures MatchAt(items, j, s, i) == MatchAt(items[1..], j - 1, s, i)
    decreases |items| - j, |s| - i
  {
    if j < |items| {
      MatchSuffix(items, j + 1, s, i);
      if i < |s| {
        MatchSuffix(items, j + 1, s, i + 1);
        MatchSuffix(items, j, s, i + 1);
      }
    }
  }

  // ------------------------------------------------------------- the simulation

  /** The states that wait for a character (or have matched) once the zero-width steps from the
      front of item `j` are taken at place `i`. */
  function Close(items: seq<Item>, j: nat, s: string, i: nat): (r: set<nat>)
    requires j <= |items| && i <= |s|
    ensures forall q :: q in r ==> j <= q <= |items|
    decreases |items| - j
  {
    if j == |items| then {j}
    else
      match items[j]
      case Bol => if LineStart(s, i) then Close(items, j + 1, s, i) else {}
      case Eol => if LineEnd(s, i) then Close(items, j + 1, s, i) else {}
      case One(_) => {j}
      case Plus(_) => {j}
      case Star(_) => {j} + Close(items, j + 1, s, i)
      case Opt(_) => {j} + Close(items, j + 1, s, i)
  }

  predicate Waits(items: seq<Item>, q: nat) {
    q < |items| && !items[q].Bol? && !items[q].Eol?
  }

  /** Where state `q` goes after its character, which ends before place `i`. */
  function Follow(items: seq<Item>, q: nat, s: string, i: nat): (r: set<nat>)
    requires Waits(items, q) && i <= |s|
    ensures forall x :: x in r ==> x <= |items|
  {
    if items[q].Star? || items[q].Plus? then {q} + Close(items, q + 1, s, i) else Close(items, q + 1, s, i)
  }

  /** What a live state still promises. */
  predicate Live(items: seq<Item>, q: nat, s: string, i: nat)
    requires i <= |s|
  {
    q == |items| ||
    (Waits(items, q) && Takes(items[q].cs, s, i) &&
     (MatchAt(items, q + 1, s, i + 1) || ((items[q].Star? || items[q].Plus?) && MatchAt(items, q, s, i + 1))))
  }

  ghost predicate AnyLive(items: seq<Item>, states: set<nat>, s: string, i: nat)
    requires i <= |s|
  {
    exists q :: q in states && Live(items, q, s, i)
  }

  lemma AnyLiveUnion(items: seq<Item>, a: set<nat>, b: set<nat>, s: string, i: nat)
    requires i <= |s|
    ensures AnyLive(items, a + b, s, i) <==> AnyLive(items, a, s, i) || AnyLive(items, b, s, i)
  {
  }

  lemma {:induction false} CloseMeans(items: seq<Item>, j: nat, s: string, i: nat)
    requires j <= |items| && i <= |s|
    ensures MatchAt(items, j, s, i) <==> AnyLive(items, Close(items, j, s, i), s, i)
    decreases |items| - j
  {
    if j == |items| {
      assert j in Close(items, j, s, i) && Live(items, j, s, i);
    } else {
      CloseMeans(items, j + 1, s, i);
      var here: set<nat> := {j};
      assert AnyLive(items, here, s, i) <==> Live(items, j, s, i) by {
        if Live(items, j, s, i) { assert j in here; }
      }
      AnyLiveUnion(items, here, Close(items, j + 1, s, i), s, i);
    }
  }

  lemma FollowMeans(items: seq<Item>, q: nat, s: string, i: nat)
    requires Waits(items, q) && i < |s| && Accepts(items[q].cs, s[i])
    ensures Live(items, q, s, i) <==> AnyLive(items, Follow(items, q, s, i + 1), s, i + 1)
  {
    CloseMeans(items, q + 1, s, i + 1);
    var here: set<nat> := {q};
    AnyLiveUnion(items, here, Close(items, q + 1, s, i + 1), s, i + 1);
    if Live(items, q, s, i + 1) { assert q in here; }
  }

  /** All live states before `n` that accept the character at `i` have been followed. */
  ghost predicate Stepped(items: seq<Item>, cur: set<nat>, next: set<nat>, n: nat, s: string, i: nat)
    requires i < |s|
  {
    AnyLive(items, next, s, i + 1) <==> exists q :: q in cur && q < n && q < |items| && Live(items, q, s, i)
  }

  lemma StepOne(items: seq<Item>, cur: set<nat>, next: set<nat>, n: nat, s: string, i: nat)
    requires i < |s| && n < |items| && Stepped(items, cur, next, n, s, i)
    requires n in cur ==> Waits(items, n)
    ensures Stepped(items, cur,
                    if n in cur && Accepts(items[n].cs, s[i]) then next + Follow(items, n, s, i + 1) else next,
                    n + 1, s, i)
  {
    if n in cur && Accepts(items[n].cs, s[i]) {
      FollowMeans(items, n, s, i);
      AnyLiveUnion(items, next, Follow(items, n, s, i + 1), s, i + 1);
    }
    assert (exists q :: q in cur && q < n + 1 && q < |items| && Live(items, q, s, i)) <==>
           (exists q :: q in cur && q < n && q < |items| && Live(items, q, s, i)) || (n in cur && Live(items, n, s, i));
  }

  ghost predicate AllWait(items: seq<Item>, states: set<nat>) {
    forall q :: q in states ==> q == |items| || Waits(items, q)
  }

  lemma {:induction false} CloseWaits(items: seq<Item>, j: nat, s: string, i: nat)
    requires j <= |items| && i <= |s|
    ensures AllWait(items, Close(items, j, s, i))
    decreases |items| - j
  {
    if j < |items| { CloseWaits(items, j + 1, s, i); }
  }

  /** One character: every state that accepts it is followed. */
  method Step(items: seq<Item>, cur: set<nat>, s: string, i: nat) returns (next: set<nat>)
    requires i < |s| && AllWait(items, cur) && |items| !in cur
    ensures AllWait(items, next)
    ensures AnyLive(items, next, s, i + 1) <==> AnyLive(items, cur, s, i)
  {
    next := {};
    var n: nat := 0;
    while n < |items|
      invariant n <= |items| && AllWait(items, next) && Stepped(items, cur, next, n, s, i)
    {
      StepOne(items, cur, next, n, s, i);
      if n in cur && Accepts(items[n].cs, s[i]) {
        CloseWaits(items, n + 1, s, i + 1);
        next := next + Follow(items, n, s, i + 1);
      }
      n := n + 1;
    }
    assert forall q :: q in cur ==> q < |items|;
  }

  /** The simulation of a pattern that starts with the start anchor answers whether the pattern
      matches at the start of the text. */
  method Search(items: seq<Item>, s: string) returns (found: bool)
    requires items != [] && items[0].Bol?
    ensures found == MatchAt(items, 0, s, 0)
  {
    var cur := Close(items, 0, s, 0);
    CloseWaits(items, 0, s, 0);
    CloseMeans(items, 0, s, 0);
    var i: nat := 0;
    while true
      invariant i <= |s| && AllWait(items, cur)
      invariant MatchAt(items, 0, s, 0) <==> AnyLive(items, cur, s, i)
      decreases |s| - i
    {
      if |items| in cur {
        assert Live(items, |items|, s, i);
        return true;
      }
      if i == |s| {
        return false;
      }
      cur := Step(items, cur, s, i);
      i := i + 1;
    }
  }
}
