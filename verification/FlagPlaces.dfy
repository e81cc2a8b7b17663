/** What a flag text means, told place by place: which part a letter stands in, under which sign, and
    whether it is reached at all. */
module FlagPlaces {
  import opened Wrappers
  import opened FlagText

  predicate Separates(c: char) { c == '|' || c == '&' }

  /** How many separators a text has. */
  function Seps(s: string): nat {
    if s == "" then 0 else Seps(s[..|s| - 1]) + if Separates(s[|s| - 1]) then 1 else 0
  }

  /** What the flags in part number `p` are: 0 global, 1 channel, 2 bot.  Behind the first part channel and
      bot flags take turns. */
  function PartMode(kinds: Kinds, p: nat): nat {
    if kinds.glob then (if p == 0 then 0 else if p % 2 == 1 then 1 else 2)
    else if kinds.bot then (if p % 2 == 1 then 1 else 2)
    else (if p % 2 == 1 then 2 else 1)
  }

  /** Place i is reached: reading stops at the second separator when only global flags are wanted. */
  ghost predicate Reached(s: string, kinds: Kinds, i: nat) {
    i < |s| && (kinds.chan || kinds.bot || Seps(s[..i]) < 2)
  }

  /** The last sign before place i, within its part, is a minus. */
  ghost predicate UnderMinus(s: string, i: nat) {
    exists j :: 0 <= j < i <= |s| && s[j] == '-' && forall l :: j < l < i ==> s[l] != '+' && !Separates(s[l])
  }

  datatype Field = Global | UdefGlobal | Bot | Chan | UdefChan

  function Get(r: Rec, f: Field): set<nat> {
    match f
    case Global => r.global
    case UdefGlobal => r.udefGlobal
    case Bot => r.bot
    case Chan => r.chan
    case UdefChan => r.udefChan
  }

  /** The character stands for bit k of that field, in flags of that mode. */
  predicate StandsFor(c: char, mode: nat, f: Field, k: nat) {
    match f
    case Global => mode == 0 && k < 26 && c as int == 97 + k
    case UdefGlobal => mode == 0 && ((k < 26 && c as int == 65 + k) || (k < 10 && c as int == 48 + k))
    case Chan => mode == 1 && k < 26 && c as int == 97 + k
    case UdefChan => mode == 1 && ((k < 26 && c as int == 65 + k) || (k < 10 && c as int == 48 + k))
    case Bot => mode == 2 && ((k < 21 && c as int == 97 + k) || (21 <= k < 31 && c as int == 48 + (k - 21)))
  }

  /** At place i, reached under that sign, stands the character for bit k of that field. */
  ghost predicate Asks(s: string, kinds: Kinds, minus: bool, f: Field, k: nat, i: nat) {
    Reached(s, kinds, i) && UnderMinus(s, i) == minus && StandsFor(s[i], PartMode(kinds, Seps(s[..i])), f, k)
  }

  /** The bits that a record can have. */
  predicate Known(f: Field, k: nat) {
    match f
    case Global => k < 26 && k !in {8, 18}
    case Chan => k in {0, 3, 4, 5, 6, 10, 11, 12, 13, 14, 16, 17, 18, 21, 22, 24, 25}
    case Bot => k < 31 && k !in {5, 10, 12, 14, 16, 19}
    case _ => k < 26
  }

  /** The first separator joins by AND. */
  ghost predicate JoinedByAnd(s: string) {
    exists i :: 0 <= i < |s| && s[i] == '&' && forall j :: 0 <= j < i ==> !Separates(s[j])
  }

  // ------------------------------------------------------------- one more character

  lemma SepsSnoc(s: string, c: char)
    ensures Seps(s + [c]) == Seps(s) + if Separates(c) then 1 else 0
  {
    assert (s + [c])[..|s|] == s;
  }

  lemma MinusSnoc(s: string, c: char)
    ensures UnderMinus(s + [c], |s| + 1) <==> c == '-' || (UnderMinus(s, |s|) && c != '+' && !Separates(c))
  {
    var t := s + [c];
    if UnderMinus(t, |s| + 1) {
      var j :| 0 <= j < |s| + 1 && t[j] == '-' && forall l :: j < l < |s| + 1 ==> t[l] != '+' && !Separates(t[l]);
      if j < |s| {
        assert t[|s|] == c;
        assert s[j] == '-' && forall l :: j < l < |s| ==> s[l] == t[l];
      }
    }
    if c == '-' { assert t[|s|] == '-'; }
    if UnderMinus(s, |s|) && c != '+' && !Separates(c) {
      var j :| 0 <= j < |s| && s[j] == '-' && forall l :: j < l < |s| ==> s[l] != '+' && !Separates(s[l]);
      assert t[j] == '-' && forall l :: j < l < |s| + 1 ==> t[l] != '+' && !Separates(t[l]);
    }
  }

  lemma MinusPrefix(s: string, t: string, i: nat)
    requires i <= |s| && s <= t
    ensures UnderMinus(t, i) <==> UnderMinus(s, i)
  {
    if UnderMinus(t, i) {
      var j :| 0 <= j < i && t[j] == '-' && forall l :: j < l < i ==> t[l] != '+' && !Separates(t[l]);
      assert s[j] == '-' && forall l :: j < l < i ==> s[l] == t[l];
    }
    if UnderMinus(s, i) {
      var j :| 0 <= j < i && s[j] == '-' && forall l :: j < l < i ==> s[l] != '+' && !Separates(s[l]);
      assert t[j] == '-' && forall l :: j < l < i ==> s[l] == t[l];
    }
  }

  lemma AsksPrefix(s: string, c: char, kinds: Kinds, minus: bool, f: Field, k: nat, i: nat)
    requires i < |s|
    ensures Asks(s + [c], kinds, minus, f, k, i) <==> Asks(s, kinds, minus, f, k, i)
  {
    assert (s + [c])[..i] == s[..i];
    MinusPrefix(s, s + [c], i);
  }

  lemma AsksLast(s: string, c: char, kinds: Kinds, minus: bool, f: Field, k: nat)
    ensures Asks(s + [c], kinds, minus, f, k, |s|) <==>
              (kinds.chan || kinds.bot || Seps(s) < 2) && UnderMinus(s, |s|) == minus && StandsFor(c, PartMode(kinds, Seps(s)), f, k)
  {
    assert (s + [c])[..|s|] == s;
    MinusPrefix(s, s + [c], |s|);
  }

  ghost predicate AsksSomewhere(s: string, kinds: Kinds, minus: bool, f: Field, k: nat) {
    exists i :: Asks(s, kinds, minus, f, k, i)
  }

  lemma AsksSnoc(s: string, c: char, kinds: Kinds, minus: bool, f: Field, k: nat)
    ensures AsksSomewhere(s + [c], kinds, minus, f, k) <==>
              AsksSomewhere(s, kinds, minus, f, k) || Asks(s + [c], kinds, minus, f, k, |s|)
  {
    if i :| Asks(s + [c], kinds, minus, f, k, i) && i != |s| { AsksPrefix(s, c, kinds, minus, f, k, i); }
    if i :| Asks(s, kinds, minus, f, k, i) { AsksPrefix(s, c, kinds, minus, f, k, i); }
  }

  lemma AddedFlag(r: Rec, mode: nat, c: char, f: Field, k: nat)
    ensures k in Get(AddFlag(r, mode, c), f) <==> k in Get(r, f) || StandsFor(c, mode, f, k)
  {
  }

  // ------------------------------------------------------------- the reader, place by place

  /** Where the reader stands behind a text. */
  ghost predicate StandsAt(st: Reader, s: string, kinds: Kinds, hasMinus: bool) {
    && (st.stopped <==> !kinds.chan && !kinds.bot && Seps(s) >= 2)
    && (!st.stopped ==> st.mode == PartMode(kinds, Seps(s)) && st.toMinus == (hasMinus && UnderMinus(s, |s|)))
  }

  ghost predicate Wanted(kinds: Kinds) {
    kinds.glob || kinds.bot || kinds.chan
  }

  lemma {:induction false} Standing(s: string, kinds: Kinds, hasMinus: bool)
    requires Wanted(kinds)
    ensures StandsAt(Feed(StartRead(kinds), s, kinds, hasMinus), s, kinds, hasMinus)
  {
    if s != "" {
      var p, c := s[..|s| - 1], s[|s| - 1];
      Standing(p, kinds, hasMinus);
      assert s == p + [c];
      SepsSnoc(p, c);
      MinusSnoc(p, c);
    }
  }

  /** Under which sign a record is served: the minus record under a minus, the plus record otherwise, or
      always when there is no minus record. */
  ghost predicate Serves(s: string, kinds: Kinds, hasMinus: bool, minus: bool, f: Field, k: nat) {
    if hasMinus then AsksSomewhere(s, kinds, minus, f, k)
    else !minus && (AsksSomewhere(s, kinds, false, f, k) || AsksSomewhere(s, kinds, true, f, k))
  }

  lemma ServesSnoc(p: string, c: char, kinds: Kinds, hasMinus: bool, minus: bool, f: Field, k: nat)
    ensures Serves(p + [c], kinds, hasMinus, minus, f, k) <==>
              Serves(p, kinds, hasMinus, minus, f, k)
              || ((kinds.chan || kinds.bot || Seps(p) < 2) && (hasMinus && UnderMinus(p, |p|)) == minus
                  && StandsFor(c, PartMode(kinds, Seps(p)), f, k))
  {
    AsksSnoc(p, c, kinds, minus, f, k);
    AsksSnoc(p, c, kinds, false, f, k);
    AsksSnoc(p, c, kinds, true, f, k);
    AsksLast(p, c, kinds, minus, f, k);
    AsksLast(p, c, kinds, false, f, k);
    AsksLast(p, c, kinds, true, f, k);
  }

  lemma {:induction false} FedBits(s: string, kinds: Kinds, hasMinus: bool, f: Field, k: nat)
    requires Wanted(kinds)
    ensures var st := Feed(StartRead(kinds), s, kinds, hasMinus);
            && (k in Get(st.plus, f) <==> Serves(s, kinds, hasMinus, false, f, k))
            && (k in Get(st.minus, f) <==> Serves(s, kinds, hasMinus, true, f, k))
  {
    if s != "" {
      var p, c := s[..|s| - 1], s[|s| - 1];
      FedBits(p, kinds, hasMinus, f, k);
      Standing(p, kinds, hasMinus);
      assert s == p + [c];
      var st := Feed(StartRead(kinds), p, kinds, hasMinus);
      ServesSnoc(p, c, kinds, hasMinus, false, f, k);
      ServesSnoc(p, c, kinds, hasMinus, true, f, k);
      AddedFlag(st.plus, st.mode, c, f, k);
      AddedFlag(st.minus, st.mode, c, f, k);
    }
  }

  // ------------------------------------------------------------- how the parts are joined

  lemma {:induction false} NoSeps(s: string)
    ensures Seps(s) == 0 <==> forall j :: 0 <= j < |s| ==> !Separates(s[j])
  {
    if s != "" {
      NoSeps(s[..|s| - 1]);
      assert s == s[..|s| - 1] + [s[|s| - 1]];
    }
  }

  lemma JoinedSnoc(p: string, c: char)
    ensures JoinedByAnd(p + [c]) <==> JoinedByAnd(p) || (Seps(p) == 0 && c == '&')
  {
    var s := p + [c];
    NoSeps(p);
    if JoinedByAnd(s) {
      var i :| 0 <= i < |s| && s[i] == '&' && forall j :: 0 <= j < i ==> !Separates(s[j]);
      assert forall j :: 0 <= j < i ==> s[j] == p[j];
      if i < |p| { assert p[i] == '&'; }
    }
    if JoinedByAnd(p) {
      var i :| 0 <= i < |p| && p[i] == '&' && forall j :: 0 <= j < i ==> !Separates(p[j]);
      assert s[i] == '&' && forall j :: 0 <= j < i ==> s[j] == p[j];
    }
    if Seps(p) == 0 && c == '&' {
      assert s[|p|] == '&' && forall j :: 0 <= j < |p| ==> s[j] == p[j];
    }
  }

  lemma {:induction false} FedKinds(s: string, kinds: Kinds, hasMinus: bool)
    requires Wanted(kinds)
    ensures var st := Feed(StartRead(kinds), s, kinds, hasMinus);
            && st.plus.kinds == (if kinds.glob && JoinedByAnd(s) then NONE.(both := true) else NONE.(either := true))
            && st.minus.kinds == NONE
  {
    if s != "" {
      var p, c := s[..|s| - 1], s[|s| - 1];
      FedKinds(p, kinds, hasMinus);
      Standing(p, kinds, hasMinus);
      assert s == p + [c];
      JoinedSnoc(p, c);
      JoinedOnce(p);
    }
  }

  lemma JoinedOnce(p: string)
    ensures JoinedByAnd(p) ==> Seps(p) > 0
  {
    NoSeps(p);
  }

  // ------------------------------------------------------------- the bits a record can have

  lemma Powers()
    ensures Pow2(0) == 1 && Pow2(1) == 2 && Pow2(2) == 4 && Pow2(3) == 8 && Pow2(4) == 16 && Pow2(5) == 32 && Pow2(6) == 64 && Pow2(7) == 128
    ensures Pow2(8) == 256 && Pow2(9) == 512 && Pow2(10) == 1024 && Pow2(11) == 2048 && Pow2(12) == 4096 && Pow2(13) == 8192 && Pow2(14) == 16384 && Pow2(15) == 32768
    ensures Pow2(16) == 65536 && Pow2(17) == 131072 && Pow2(18) == 262144 && Pow2(19) == 524288 && Pow2(20) == 1048576 && Pow2(21) == 2097152 && Pow2(22) == 4194304 && Pow2(23) == 8388608
    ensures Pow2(24) == 16777216 && Pow2(25) == 33554432 && Pow2(26) == 67108864 && Pow2(27) == 134217728 && Pow2(28) == 268435456 && Pow2(29) == 536870912 && Pow2(30) == 1073741824 && Pow2(31) == 2147483648
  {
    assert Pow2(0) == 1; assert Pow2(1) == 2; assert Pow2(2) == 4; assert Pow2(3) == 8; assert Pow2(4) == 16; assert Pow2(5) == 32; assert Pow2(6) == 64; assert Pow2(7) == 128;
    assert Pow2(8) == 256; assert Pow2(9) == 512; assert Pow2(10) == 1024; assert Pow2(11) == 2048; assert Pow2(12) == 4096; assert Pow2(13) == 8192; assert Pow2(14) == 16384; assert Pow2(15) == 32768;
    assert Pow2(16) == 65536; assert Pow2(17) == 131072; assert Pow2(18) == 262144; assert Pow2(19) == 524288; assert Pow2(20) == 1048576; assert Pow2(21) == 2097152; assert Pow2(22) == 4194304; assert Pow2(23) == 8388608;
    assert Pow2(24) == 16777216; assert Pow2(25) == 33554432; assert Pow2(26) == 67108864; assert Pow2(27) == 134217728; assert Pow2(28) == 268435456; assert Pow2(29) == 536870912; assert Pow2(30) == 1073741824; assert Pow2(31) == 2147483648;
  }

  lemma UserBits(k: nat)
    ensures k in USER_VALID <==> Known(Global, k)
  {
    Powers();
    if k == 0 {} else if k == 1 {} else if k == 2 {} else if k == 3 {} else if k == 4 {} else if k == 5 {} else if k == 6 {} else if k == 7 {}
    else if k == 8 {} else if k == 9 {} else if k == 10 {} else if k == 11 {} else if k == 12 {} else if k == 13 {} else if k == 14 {} else if k == 15 {}
    else if k == 16 {} else if k == 17 {} else if k == 18 {} else if k == 19 {} else if k == 20 {} else if k == 21 {} else if k == 22 {} else if k == 23 {}
    else if k == 24 {} else if k == 25 {} else if k == 26 {} else if k == 27 {} else if k == 28 {} else if k == 29 {} else if k == 30 {} else if k == 31 {}
    else {}
  }

  lemma ChanBits(k: nat)
    ensures k in CHAN_VALID <==> Known(Chan, k)
  {
    Powers();
    if k == 0 {} else if k == 1 {} else if k == 2 {} else if k == 3 {} else if k == 4 {} else if k == 5 {} else if k == 6 {} else if k == 7 {}
    else if k == 8 {} else if k == 9 {} else if k == 10 {} else if k == 11 {} else if k == 12 {} else if k == 13 {} else if k == 14 {} else if k == 15 {}
    else if k == 16 {} else if k == 17 {} else if k == 18 {} else if k == 19 {} else if k == 20 {} else if k == 21 {} else if k == 22 {} else if k == 23 {}
    else if k == 24 {} else if k == 25 {} else if k == 26 {} else if k == 27 {} else if k == 28 {} else if k == 29 {} else if k == 30 {} else if k == 31 {}
    else {}
  }

  lemma BotBits(k: nat)
    ensures k in BOT_VALID <==> Known(Bot, k)
  {
    Powers();
    if k == 0 {} else if k == 1 {} else if k == 2 {} else if k == 3 {} else if k == 4 {} else if k == 5 {} else if k == 6 {} else if k == 7 {}
    else if k == 8 {} else if k == 9 {} else if k == 10 {} else if k == 11 {} else if k == 12 {} else if k == 13 {} else if k == 14 {} else if k == 15 {}
    else if k == 16 {} else if k == 17 {} else if k == 18 {} else if k == 19 {} else if k == 20 {} else if k == 21 {} else if k == 22 {} else if k == 23 {}
    else if k == 24 {} else if k == 25 {} else if k == 26 {} else if k == 27 {} else if k == 28 {} else if k == 29 {} else if k == 30 {} else if k == 31 {}
    else {}
  }

  lemma UdefBits(k: nat)
    ensures k in UDEF_VALID <==> Known(UdefGlobal, k)
  {
    Powers();
    if k == 0 {} else if k == 1 {} else if k == 2 {} else if k == 3 {} else if k == 4 {} else if k == 5 {} else if k == 6 {} else if k == 7 {}
    else if k == 8 {} else if k == 9 {} else if k == 10 {} else if k == 11 {} else if k == 12 {} else if k == 13 {} else if k == 14 {} else if k == 15 {}
    else if k == 16 {} else if k == 17 {} else if k == 18 {} else if k == 19 {} else if k == 20 {} else if k == 21 {} else if k == 22 {} else if k == 23 {}
    else if k == 24 {} else if k == 25 {} else if k == 26 {} else if k == 27 {} else if k == 28 {} else if k == 29 {} else if k == 30 {} else if k == 31 {}
    else {}
  }

  lemma MaskedBits(r: Rec, f: Field, k: nat)
    ensures k in Get(Masked(r), f) <==> k in Get(r, f) && Known(f, k)
  {
    UserBits(k);
    ChanBits(k);
    BotBits(k);
    UdefBits(k);
  }

  // ------------------------------------------------------------- the result

  /** The plus record read from a text: every known bit that some character asked for, not under a minus
      unless there is no minus record, and nothing else; and how the first separator joins the parts. */
  ghost predicate PlusFrom(s: string, kinds: Kinds, hasMinus: bool, plus: Rec) {
    && (forall f, k :: k in Get(plus, f) <==> Known(f, k) && Serves(s, kinds, hasMinus, false, f, k))
    && (var joined := kinds.glob && JoinedByAnd(s);
        plus.kinds == Kinds(kinds.glob, kinds.bot, kinds.chan, kinds.both || joined, kinds.either || !joined))
  }

  /** The minus record: every known bit asked for under a minus. */
  ghost predicate MinusFrom(s: string, kinds: Kinds, hasMinus: bool, minus: Rec) {
    && (forall f, k :: k in Get(minus, f) <==> Known(f, k) && Serves(s, kinds, hasMinus, true, f, k))
    && minus.kinds == kinds
  }

  /** The reader does exactly this. */
  lemma ReadPlaces(s: string, kinds: Kinds, hasMinus: bool)
    requires Wanted(kinds)
    ensures PlusFrom(s, kinds, hasMinus, ReadStr(s, kinds, hasMinus).0)
    ensures MinusFrom(s, kinds, hasMinus, ReadStr(s, kinds, hasMinus).1)
  {
    var st := Feed(StartRead(kinds), s, kinds, hasMinus);
    var (plus, minus) := ReadStr(s, kinds, hasMinus);
    FedKinds(s, kinds, hasMinus);
    forall f, k
      ensures k in Get(plus, f) <==> Known(f, k) && Serves(s, kinds, hasMinus, false, f, k)
      ensures k in Get(minus, f) <==> Known(f, k) && Serves(s, kinds, hasMinus, true, f, k)
    {
      FedBits(s, kinds, hasMinus, f, k);
      MaskedBits(st.plus, f, k);
      MaskedBits(st.minus, f, k);
    }
  }

  // ------------------------------------------------------------- what is printed

  /** Every printed letter stands for a bit of the word ... */
  lemma {:induction false} LettersOf(base: char, bits: set<nat>, first: nat, k: nat, n: nat, c: char)
    requires base in {'a', 'A', '0'} && first <= k <= n <= first + 26
    ensures c in Letters(base, bits, first, k, n)
            <==> c as int - base as int + first in bits && k <= c as int - base as int + first < n
    decreases n - k
  {
    if k < n {
      LettersOf(base, bits, first, k + 1, n, c);
      var l := Letter(base, k - first);
      assert c == l <==> c as int - base as int + first == k;
    }
  }

  /** ... and they stand in ascending order, each once. */
  lemma {:induction false} LettersAscend(base: char, bits: set<nat>, first: nat, k: nat, n: nat, i: nat, j: nat)
    requires base in {'a', 'A', '0'} && first <= k <= n <= first + 26 && i < j < |Letters(base, bits, first, k, n)|
    ensures Letters(base, bits, first, k, n)[i] < Letters(base, bits, first, k, n)[j]
    decreases n - k
  {
    var rest := Letters(base, bits, first, k + 1, n);
    if k !in bits {
      LettersAscend(base, bits, first, k + 1, n, i, j);
    } else if i > 0 {
      LettersAscend(base, bits, first, k + 1, n, i - 1, j - 1);
    } else {
      assert rest[j - 1] in rest;
      LettersOf(base, bits, first, k + 1, n, rest[j - 1]);
    }
  }

  /** The letters of the flags of one mode: user-defined ones in upper case, for bots as digits. */
  function Plain(r: Rec, mode: nat): string {
    if mode == 0 then Letters('a', r.global, 0, 0, 26) + Letters('A', r.udefGlobal, 0, 0, 26)
    else if mode == 1 then Letters('a', r.chan, 0, 0, 26) + Letters('A', r.udefChan, 0, 0, 26)
    else Letters('a', r.bot, 0, 0, 21) + Letters('0', r.bot, 21, 21, 31)
  }

  /** One part: the letters alone, or, with a minus record, both under their signs; a dash stands for no flags. */
  function Signed(plus: string, minus: Option<string>): string {
    match minus
    case None => if plus == "" then "-" else plus
    case Some(m) =>
      if plus == "" then (if m == "" then "-" else "--" + m)
      else if m == "" then "+" + plus
      else "+" + plus + ("-" + m)
  }

  function MinusPlain(minus: Option<Rec>, mode: nat): Option<string> {
    if minus.Some? then Some(Plain(minus.value, mode)) else None
  }

  lemma PlainIs(r: Rec, mode: nat)
    requires Valid(r) && mode <= 2
    ensures RawText(WordOf(r, mode)) == Plain(r, mode)
    ensures Any(WordOf(r, mode)) <==> Plain(r, mode) != ""
    ensures Text(WordOf(r, mode)) == if Plain(r, mode) == "" then "-" else Plain(r, mode)
  {
    ValidFits(r, mode);
    RawEmpty(WordOf(r, mode));
  }

  lemma SignedIs(p: string, m: string)
    ensures "" + OrDash(p) + "" == Signed(p, None)
    ensures (if p != "" then "+" else "") + OrDash(p) + (if m != "" then "-" + OrDash(m) else "") == Signed(p, Some(m))
  {
    assert "" + "-" == "-";
    if p == "" && m != "" { assert "-" + ("-" + m) == "--" + m; }
  }

  lemma OneSided(plus: Rec, mode: nat)
    requires Valid(plus) && mode <= 2
    ensures Part(plus, None, mode) == Signed(Plain(plus, mode), None)
  {
    PlainIs(plus, mode);
    SignedIs(Plain(plus, mode), "");
  }

  lemma TwoSided(plus: Rec, minus: Rec, mode: nat)
    requires Valid(plus) && Valid(minus) && mode <= 2
    ensures Part(plus, Some(minus), mode) == Signed(Plain(plus, mode), Some(Plain(minus, mode)))
  {
    PlainIs(plus, mode);
    PlainIs(minus, mode);
    SignedIs(Plain(plus, mode), Plain(minus, mode));
  }

  lemma PartIs(plus: Rec, minus: Option<Rec>, mode: nat)
    requires Valid(plus) && Valid(MinusOf(minus)) && mode <= 2
    ensures Part(plus, minus, mode) == Signed(Plain(plus, mode), MinusPlain(minus, mode))
  {
    if minus.Some? {
      TwoSided(plus, minus.value, mode);
    } else {
      OneSided(plus, mode);
    }
  }

  /** The printed text: global flags or else bot flags, then channel flags behind `&` or `|`. */
  lemma BuiltText(plus: Rec, minus: Option<Rec>)
    requires Valid(plus) && Valid(MinusOf(minus))
    ensures var k := plus.kinds;
            var front := Signed(Plain(plus, if k.glob then 0 else 2), MinusPlain(minus, if k.glob then 0 else 2));
            var chan := Signed(Plain(plus, 1), MinusPlain(minus, 1));
            BuildStr(plus, minus) == if k.glob || k.bot then (if k.chan then front + ((if k.both then "&" else "|") + chan) else front)
                                     else if k.chan then chan else "-"
  {
    var k := plus.kinds;
    var mode := if k.glob then 0 else 2;
    PartIs(plus, minus, mode);
    PartIs(plus, minus, 1);
    PartNotEmpty(plus, minus, mode);
    PartNotEmpty(plus, minus, 1);
    var a, b := Part(plus, minus, mode), Part(plus, minus, 1);
    assert a + "" == a && "" + ("" + b) == b && "" + "" == "";
  }
}
