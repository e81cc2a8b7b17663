/** Flag records and their text: printing a record and reading it back. */
module FlagText {
  import opened Wrappers
  import opened Buffers

  // ------------------------------------------------------------- flag words

  function Pow2(k: nat): (p: nat)
    ensures p > 0
  {
    if k == 0 then 1 else 2 * Pow2(k - 1)
  }

  /** The bits of a non-negative int, as the set of their places. */
  function Bits(n: nat): set<nat> {
    set k: nat | k < 32 && n / Pow2(k) % 2 == 1
  }

  const USER_VALID := Bits(0x03fbfeff)
  const CHAN_VALID := Bits(0x03677c79)
  const BOT_VALID := Bits(0x7ff6abdf)
  const UDEF_VALID := Bits(0x03ffffff)

  predicate Below(bits: set<nat>, n: nat) {
    forall k :: k in bits ==> k < n
  }

  lemma {:induction false} Pow2Grows(j: nat, k: nat)
    requires j <= k
    ensures Pow2(j) <= Pow2(k)
  {
    if j < k { Pow2Grows(j, k - 1); }
  }

  lemma NoQuotient(n: nat, p: nat)
    requires n < p
    ensures n / p == 0
  {
  }

  lemma BitsBelow(n: nat, m: nat)
    requires n < Pow2(m)
    ensures Below(Bits(n), m)
  {
    forall k | k in Bits(n) ensures k < m {
      if k >= m {
        Pow2Grows(m, k);
        NoQuotient(n, Pow2(k));
      }
    }
  }

  lemma {:induction false} Pow2Of26()
    ensures Pow2(26) == 0x400_0000 && Pow2(31) == 0x8000_0000
  {
    assert Pow2(8) == 256;
    assert Pow2(16) == 65536;
    assert Pow2(24) == 0x100_0000;
  }

  lemma ValidBelow()
    ensures Below(USER_VALID, 26) && Below(CHAN_VALID, 26) && Below(UDEF_VALID, 26) && Below(BOT_VALID, 31)
  {
    Pow2Of26();
    BitsBelow(0x03fbfeff, 26);
    BitsBelow(0x03677c79, 26);
    BitsBelow(0x03ffffff, 26);
    BitsBelow(0x7ff6abdf, 31);
  }

  // ------------------------------------------------------------- records

  /** The `match` word: which flags are meant, and whether global and channel flags are joined by
      AND (`both`) or OR (`either`). */
  datatype Kinds = Kinds(glob: bool, bot: bool, chan: bool, both: bool, either: bool)

  const NONE := Kinds(false, false, false, false, false)

  function Union(a: Kinds, b: Kinds): Kinds {
    Kinds(a.glob || b.glob, a.bot || b.bot, a.chan || b.chan, a.both || b.both, a.either || b.either)
  }

  datatype Rec = Rec(kinds: Kinds, global: set<nat>, udefGlobal: set<nat>, bot: set<nat>, chan: set<nat>, udefChan: set<nat>)

  const EMPTY := Rec(NONE, {}, {}, {}, {}, {})

  predicate Valid(r: Rec) {
    r.global <= USER_VALID && r.chan <= CHAN_VALID && r.bot <= BOT_VALID && r.udefGlobal <= UDEF_VALID && r.udefChan <= UDEF_VALID
  }

  function Masked(r: Rec): Rec {
    Rec(r.kinds, r.global * USER_VALID, r.udefGlobal * UDEF_VALID, r.bot * BOT_VALID, r.chan * CHAN_VALID, r.udefChan * UDEF_VALID)
  }

  // ------------------------------------------------------------- printing

  function Letter(base: char, k: nat): char
    requires k < 32 && base in {'a', 'A', '0'}
  {
    (base as int + k) as char
  }

  /** The letters of the bits from `k` up to `n`, the first letter standing for `first`. */
  function Letters(base: char, bits: set<nat>, first: nat, k: nat, n: nat): string
    requires base in {'a', 'A', '0'} && first <= k && n <= first + 26
    decreases n - k
  {
    if k >= n then "" else (if k in bits then [Letter(base, k - first)] else "") + Letters(base, bits, first, k + 1, n)
  }

  function OrDash(s: string): string {
    if s == "" then "-" else s
  }

  /** The flags of one mode: 0 global, 1 channel, 2 bot (without user-defined ones). */
  datatype Word = Word(mode: nat, bits: set<nat>, udef: set<nat>)

  function FlagStr(bits: set<nat>, udef: set<nat>): string {
    OrDash(Letters('a', bits, 0, 0, 26) + Letters('A', udef, 0, 0, 26))
  }

  function BotStr(bits: set<nat>): string {
    OrDash(Letters('a', bits, 0, 0, 21) + Letters('0', bits, 21, 21, 31))
  }

  function WordOf(r: Rec, mode: nat): Word {
    if mode == 0 then Word(0, r.global, r.udefGlobal)
    else if mode == 1 then Word(1, r.chan, r.udefChan)
    else Word(2, r.bot, {})
  }

  function Text(w: Word): string {
    if w.mode == 2 then BotStr(w.bits) else FlagStr(w.bits, w.udef)
  }

  predicate Any(w: Word) {
    w.bits != {} || (w.mode != 2 && w.udef != {})
  }

  /** One part of the text: the plus flags, then the minus flags when there are any. */
  function Part(plus: Rec, minus: Option<Rec>, mode: nat): string {
    (if minus.Some? && Any(WordOf(plus, mode)) then "+" else "") + Text(WordOf(plus, mode))
    + (if minus.Some? && Any(WordOf(minus.value, mode)) then "-" + Text(WordOf(minus.value, mode)) else "")
  }

  function FirstPart(plus: Rec, minus: Option<Rec>): string {
    if plus.kinds.glob then Part(plus, minus, 0) else if plus.kinds.bot then Part(plus, minus, 2) else ""
  }

  function Separator(plus: Rec): string {
    if !plus.kinds.glob && !plus.kinds.bot then "" else if plus.kinds.both then "&" else "|"
  }

  function Parts(plus: Rec, minus: Option<Rec>): string {
    FirstPart(plus, minus) + if plus.kinds.chan then Separator(plus) + Part(plus, minus, 1) else ""
  }

  /** The text of a record pair. */
  function BuildStr(plus: Rec, minus: Option<Rec>): string {
    OrDash(Parts(plus, minus))
  }

  // ------------------------------------------------------------- reading

  /** `mode` 0, 1, 2: global, channel, bot flags come next; `toMinus` says which record they go to. */
  datatype Reader = Reader(plus: Rec, minus: Rec, toMinus: bool, mode: nat, stopped: bool)

  function AddFlag(r: Rec, mode: nat, c: char): Rec {
    if 'a' <= c <= 'z' then
      var k := c as int - 'a' as int;
      if mode == 0 then r.(global := r.global + {k})
      else if mode == 1 then r.(chan := r.chan + {k})
      else if mode == 2 && c <= 'u' then r.(bot := r.bot + {k})
      else r
    else if 'A' <= c <= 'Z' then
      var k := c as int - 'A' as int;
      if mode == 0 then r.(udefGlobal := r.udefGlobal + {k})
      else if mode == 1 then r.(udefChan := r.udefChan + {k})
      else r
    else if '0' <= c <= '9' then
      var k := c as int - '0' as int;
      if mode == 0 then r.(udefGlobal := r.udefGlobal + {k})
      else if mode == 1 then r.(udefChan := r.udefChan + {k})
      else if mode == 2 then r.(bot := r.bot + {21 + k})
      else r
    else r
  }

  function NextMode(mode: nat): nat {
    if mode + 1 == 3 then 1 else mode + 1
  }

  function StepRead(st: Reader, c: char, kinds: Kinds, hasMinus: bool): Reader {
    if st.stopped then st
    else if c == '+' then st.(toMinus := false)
    else if c == '-' then st.(toMinus := hasMinus)
    else if c == '|' || c == '&' then
      var plus := if st.mode != 0 then st.plus else st.plus.(kinds := if c == '|' then NONE.(either := true) else NONE.(both := true));
      if st.mode + 1 == 2 && !kinds.chan && !kinds.bot then Reader(plus, st.minus, false, 2, true)
      else Reader(plus, st.minus, false, NextMode(st.mode), false)
    else if st.toMinus then st.(minus := AddFlag(st.minus, st.mode, c))
    else st.(plus := AddFlag(st.plus, st.mode, c))
  }

  function Feed(st: Reader, s: string, kinds: Kinds, hasMinus: bool): Reader {
    if s == "" then st else StepRead(Feed(st, s[..|s| - 1], kinds, hasMinus), s[|s| - 1], kinds, hasMinus)
  }

  function StartMode(kinds: Kinds): nat {
    if kinds.glob then 0 else if kinds.bot then 2 else 1
  }

  function StartRead(kinds: Kinds): Reader {
    Reader(EMPTY.(kinds := NONE.(either := true)), EMPTY, false, StartMode(kinds), false)
  }

  /** Both records after a text was read for the given kinds. */
  function ReadStr(s: string, kinds: Kinds, hasMinus: bool): (Rec, Rec) {
    var st := Feed(StartRead(kinds), s, kinds, hasMinus);
    var plus, minus := Masked(st.plus), Masked(st.minus);
    var k := Union(plus.kinds, kinds);
    (plus.(kinds := if hasMinus && !k.both && !k.either then k.(either := true) else k),
     minus.(kinds := Union(minus.kinds, kinds)))
  }

  lemma {:induction false} FeedConcat(st: Reader, a: string, b: string, kinds: Kinds, hasMinus: bool)
    ensures Feed(st, a + b, kinds, hasMinus) == Feed(Feed(st, a, kinds, hasMinus), b, kinds, hasMinus)
  {
    if b == "" {
      assert a + b == a;
    } else {
      FeedConcat(st, a, b[..|b| - 1], kinds, hasMinus);
      assert (a + b)[..|a + b| - 1] == a + b[..|b| - 1];
    }
  }

  lemma FeedOne(st: Reader, c: char, kinds: Kinds, hasMinus: bool)
    ensures Feed(st, [c], kinds, hasMinus) == StepRead(st, c, kinds, hasMinus)
  {
    assert [c][..0] == "";
  }

  // ------------------------------------------------------------- letters read back

  predicate FlagChar(c: char) {
    'a' <= c <= 'z' || 'A' <= c <= 'Z' || '0' <= c <= '9'
  }

  function AddAll(r: Rec, mode: nat, s: string): Rec
    decreases |s|
  {
    if s == "" then r else AddAll(AddFlag(r, mode, s[0]), mode, s[1..])
  }

  predicate AllFlagChars(s: string) {
    forall i :: 0 <= i < |s| ==> FlagChar(s[i])
  }

  function Target(st: Reader): Rec {
    if st.toMinus then st.minus else st.plus
  }

  function WithTarget(st: Reader, r: Rec): Reader {
    if st.toMinus then st.(minus := r) else st.(plus := r)
  }

  /** Flag characters go to the current record. */
  lemma {:induction false} FeedFlags(st: Reader, s: string, kinds: Kinds, hasMinus: bool)
    requires AllFlagChars(s) && !st.stopped
    ensures Feed(st, s, kinds, hasMinus) == WithTarget(st, AddAll(Target(st), st.mode, s))
    decreases |s|
  {
    if s != "" {
      assert FlagChar(s[0]);
      assert s == [s[0]] + s[1..];
      FeedConcat(st, [s[0]], s[1..], kinds, hasMinus);
      FeedOne(st, s[0], kinds, hasMinus);
      FeedFlags(StepRead(st, s[0], kinds, hasMinus), s[1..], kinds, hasMinus);
    }
  }

  lemma {:induction false} AddConcat(r: Rec, mode: nat, a: string, b: string)
    ensures AddAll(r, mode, a + b) == AddAll(AddAll(r, mode, a), mode, b)
    decreases |a|
  {
    if a == "" {
      assert a + b == b;
    } else {
      assert (a + b)[1..] == a[1..] + b;
      AddConcat(AddFlag(r, mode, a[0]), mode, a[1..], b);
    }
  }

  function Range(bits: set<nat>, k: nat, n: nat): set<nat> {
    set b | b in bits && k <= b < n
  }

  /** What printed letters add to a record. */
  function Gain(r: Rec, mode: nat, base: char, bits: set<nat>): Rec {
    if mode == 0 && base == 'a' then r.(global := r.global + bits)
    else if mode == 0 && base == 'A' then r.(udefGlobal := r.udefGlobal + bits)
    else if mode == 1 && base == 'a' then r.(chan := r.chan + bits)
    else if mode == 1 && base == 'A' then r.(udefChan := r.udefChan + bits)
    else if mode == 2 && base != 'A' then r.(bot := r.bot + bits)
    else r
  }

  /** Letters that the reader understands in this mode. */
  predicate Readable(mode: nat, base: char, first: nat, n: nat) {
    || (mode < 2 && base in {'a', 'A'} && first == 0 && n <= 26)
    || (mode == 2 && base == 'a' && first == 0 && n <= 21)
    || (mode == 2 && base == '0' && first == 21 && n <= 31)
  }

  lemma OneLetter(r: Rec, mode: nat, base: char, first: nat, k: nat, n: nat)
    requires Readable(mode, base, first, n) && first <= k < n
    ensures FlagChar(Letter(base, k - first))
    ensures AddFlag(r, mode, Letter(base, k - first)) == Gain(r, mode, base, {k})
  {
  }

  lemma {:induction false} LettersBack(r: Rec, mode: nat, base: char, bits: set<nat>, first: nat, k: nat, n: nat)
    requires Readable(mode, base, first, n) && first <= k <= n
    ensures AllFlagChars(Letters(base, bits, first, k, n))
    ensures AddAll(r, mode, Letters(base, bits, first, k, n)) == Gain(r, mode, base, Range(bits, k, n))
    decreases n - k
  {
    if k == n {
      assert Range(bits, k, n) == {};
      assert Gain(r, mode, base, {}) == r;
    } else {
      OneLetter(r, mode, base, first, k, n);
      var rest := Letters(base, bits, first, k + 1, n);
      if k in bits {
        var r1 := Gain(r, mode, base, {k});
        LettersBack(r1, mode, base, bits, first, k + 1, n);
        var s := [Letter(base, k - first)] + rest;
        assert s[1..] == rest;
        RangeStep(bits, k, n);
        GainTwice(r, mode, base, {k}, Range(bits, k + 1, n));
      } else {
        LettersBack(r, mode, base, bits, first, k + 1, n);
        assert "" + rest == rest;
        RangeStep(bits, k, n);
      }
    }
  }

  lemma RangeStep(bits: set<nat>, k: nat, n: nat)
    requires k < n
    ensures Range(bits, k, n) == (if k in bits then {k} else {}) + Range(bits, k + 1, n)
    ensures k !in bits ==> Range(bits, k, n) == Range(bits, k + 1, n)
  {
  }

  lemma GainTwice(r: Rec, mode: nat, base: char, a: set<nat>, b: set<nat>)
    ensures Gain(Gain(r, mode, base, a), mode, base, b) == Gain(r, mode, base, a + b)
  {
    assert r.global + a + b == r.global + (a + b);
    assert r.udefGlobal + a + b == r.udefGlobal + (a + b);
    assert r.chan + a + b == r.chan + (a + b);
    assert r.udefChan + a + b == r.udefChan + (a + b);
    assert r.bot + a + b == r.bot + (a + b);
  }

  lemma RangeAll(bits: set<nat>, n: nat)
    requires Below(bits, n)
    ensures Range(bits, 0, n) == bits
  {
  }

  lemma {:induction false} LettersEmpty(base: char, bits: set<nat>, first: nat, k: nat, n: nat)
    requires base in {'a', 'A', '0'} && first <= k && n <= first + 26
    ensures Letters(base, bits, first, k, n) == "" <==> Range(bits, k, n) == {}
    decreases n - k
  {
    if k < n {
      LettersEmpty(base, bits, first, k + 1, n);
      if k in bits { assert k in Range(bits, k, n); }
      assert Range(bits, k + 1, n) <= Range(bits, k, n);
      assert k !in bits ==> Range(bits, k, n) == Range(bits, k + 1, n);
    }
  }

  // ------------------------------------------------------------- words and parts read back

  predicate Fits(w: Word) {
    if w.mode == 2 then Below(w.bits, 31) else w.mode < 2 && Below(w.bits, 26) && Below(w.udef, 26)
  }

  function Added(r: Rec, w: Word): Rec {
    if w.mode == 0 then r.(global := r.global + w.bits, udefGlobal := r.udefGlobal + w.udef)
    else if w.mode == 1 then r.(chan := r.chan + w.bits, udefChan := r.udefChan + w.udef)
    else r.(bot := r.bot + w.bits)
  }

  function RawText(w: Word): string {
    if w.mode == 2 then Letters('a', w.bits, 0, 0, 21) + Letters('0', w.bits, 21, 21, 31)
    else Letters('a', w.bits, 0, 0, 26) + Letters('A', w.udef, 0, 0, 26)
  }

  lemma SplitRange(bits: set<nat>)
    requires Below(bits, 31)
    ensures Range(bits, 0, 21) + Range(bits, 21, 31) == bits
  {
  }

  lemma RawBotBack(r: Rec, w: Word)
    requires Fits(w) && w.mode == 2
    ensures AllFlagChars(RawText(w)) && AddAll(r, 2, RawText(w)) == Added(r, w)
  {
    var low, high := Range(w.bits, 0, 21), Range(w.bits, 21, 31);
    var r1 := Gain(r, 2, 'a', low);
    LettersBack(r, 2, 'a', w.bits, 0, 0, 21);
    LettersBack(r1, 2, '0', w.bits, 21, 21, 31);
    AddConcat(r, 2, Letters('a', w.bits, 0, 0, 21), Letters('0', w.bits, 21, 21, 31));
    SplitRange(w.bits);
    assert r.bot + low + high == r.bot + w.bits;
  }

  lemma RawBack(r: Rec, w: Word)
    requires Fits(w)
    ensures AllFlagChars(RawText(w)) && AddAll(r, w.mode, RawText(w)) == Added(r, w)
  {
    if w.mode == 2 {
      RawBotBack(r, w);
    } else {
      RangeAll(w.bits, 26);
      RangeAll(w.udef, 26);
      var r1 := Gain(r, w.mode, 'a', w.bits);
      LettersBack(r, w.mode, 'a', w.bits, 0, 0, 26);
      LettersBack(r1, w.mode, 'A', w.udef, 0, 0, 26);
      AddConcat(r, w.mode, Letters('a', w.bits, 0, 0, 26), Letters('A', w.udef, 0, 0, 26));
    }
  }

  lemma RawEmpty(w: Word)
    requires Fits(w)
    ensures RawText(w) == "" <==> !Any(w)
  {
    if w.mode == 2 {
      LettersEmpty('a', w.bits, 0, 0, 21);
      LettersEmpty('0', w.bits, 21, 21, 31);
      SplitRange(w.bits);
    } else {
      LettersEmpty('a', w.bits, 0, 0, 26);
      LettersEmpty('A', w.udef, 0, 0, 26);
      RangeAll(w.bits, 26);
      RangeAll(w.udef, 26);
    }
  }

  /** A printed word is read back into the current record; an empty one, printed as a dash, only
      turns to the minus record. */
  lemma WordBack(st: Reader, w: Word, kinds: Kinds, hasMinus: bool)
    requires !st.stopped && st.mode == w.mode && Fits(w)
    ensures Feed(st, Text(w), kinds, hasMinus)
            == if Any(w) then WithTarget(st, Added(Target(st), w)) else st.(toMinus := hasMinus)
  {
    RawEmpty(w);
    if Any(w) {
      RawBack(Target(st), w);
      FeedFlags(st, RawText(w), kinds, hasMinus);
    } else {
      FeedOne(st, '-', kinds, hasMinus);
    }
  }

  /** Nothing to add to a record that has nothing. */
  lemma NothingAdded(r: Rec, w: Word)
    requires !Any(w)
    ensures w.mode <= 2 ==> Added(r, w) == r
  {
  }

  ghost predicate Settled(st: Reader, plus: Rec, minus: Rec, mode: nat) {
    st.plus == plus && st.minus == minus && st.mode == mode && !st.stopped
  }

  function PlusHalf(w: Word, hasMinus: bool): string {
    (if hasMinus && Any(w) then "+" else "") + Text(w)
  }

  function MinusHalf(w: Word): string {
    if Any(w) then "-" + Text(w) else ""
  }

  lemma PlusHalfBack(st: Reader, w: Word, kinds: Kinds, hasMinus: bool)
    requires !st.stopped && !st.toMinus && st.mode == w.mode && Fits(w)
    ensures Settled(Feed(st, PlusHalf(w, hasMinus), kinds, hasMinus), Added(st.plus, w), st.minus, st.mode)
  {
    if hasMinus && Any(w) {
      FeedConcat(st, "+", Text(w), kinds, hasMinus);
      FeedOne(st, '+', kinds, hasMinus);
    } else {
      assert "" + Text(w) == Text(w);
    }
    WordBack(st, w, kinds, hasMinus);
    if !Any(w) { NothingAdded(st.plus, w); }
  }

  lemma MinusHalfBack(st: Reader, w: Word, kinds: Kinds)
    requires !st.stopped && st.mode == w.mode && Fits(w)
    ensures Settled(Feed(st, MinusHalf(w), kinds, true), st.plus, Added(st.minus, w), st.mode)
  {
    if Any(w) {
      FeedConcat(st, "-", Text(w), kinds, true);
      FeedOne(st, '-', kinds, true);
      WordBack(st.(toMinus := true), w, kinds, true);
    } else {
      NothingAdded(st.minus, w);
    }
  }

  function MinusOf(minus: Option<Rec>): Rec {
    if minus.Some? then minus.value else EMPTY
  }

  lemma PartBack(st: Reader, plus: Rec, minus: Option<Rec>, mode: nat, kinds: Kinds)
    requires !st.stopped && !st.toMinus && st.mode == mode <= 2
    requires Fits(WordOf(plus, mode)) && Fits(WordOf(MinusOf(minus), mode))
    ensures Settled(Feed(st, Part(plus, minus, mode), kinds, minus.Some?),
                    Added(st.plus, WordOf(plus, mode)), Added(st.minus, WordOf(MinusOf(minus), mode)), mode)
  {
    var w, v := WordOf(plus, mode), WordOf(MinusOf(minus), mode);
    var half := PlusHalf(w, minus.Some?);
    PlusHalfBack(st, w, kinds, minus.Some?);
    if minus.Some? {
      assert Part(plus, minus, mode) == half + MinusHalf(v);
      FeedConcat(st, half, MinusHalf(v), kinds, true);
      MinusHalfBack(Feed(st, half, kinds, true), v, kinds);
    } else {
      assert Part(plus, minus, mode) == half;
      NothingAdded(st.minus, v);
    }
  }

  // ------------------------------------------------------------- the whole text

  /** Global, channel or bot flags alone, or channel flags after one of the others. */
  predicate Printable(k: Kinds) {
    !k.both && !k.either && (k.glob || k.bot || k.chan) && !(k.glob && k.bot)
  }

  predicate TwoParts(k: Kinds) {
    k.chan && (k.glob || k.bot)
  }

  function Asked(k: Kinds): Kinds {
    k.(both := false, either := false)
  }

  /** How the reader joins the parts: AND only between global and channel flags. */
  function Joint(k: Kinds): Kinds {
    if k.glob && k.chan && k.both then NONE.(both := true) else NONE.(either := true)
  }

  function Fed(r: Rec, kinds: Kinds, joint: Kinds): Rec {
    var first := Added(EMPTY.(kinds := joint), WordOf(r, StartMode(kinds)));
    if TwoParts(kinds) then Added(first, WordOf(r, 1)) else first
  }

  lemma ValidFits(r: Rec, mode: nat)
    requires Valid(r) && mode <= 2
    ensures Fits(WordOf(r, mode))
  {
    ValidBelow();
  }

  lemma PartNotEmpty(plus: Rec, minus: Option<Rec>, mode: nat)
    ensures Part(plus, minus, mode) != ""
  {
  }

  lemma OnePartText(plus: Rec, minus: Option<Rec>, kinds: Kinds)
    requires Printable(kinds) && Asked(plus.kinds) == kinds && !TwoParts(kinds)
    ensures BuildStr(plus, minus) == Part(plus, minus, StartMode(kinds))
  {
    PartNotEmpty(plus, minus, StartMode(kinds));
    var first := FirstPart(plus, minus);
    if kinds.chan {
      assert Separator(plus) == "" && "" + ("" + Part(plus, minus, 1)) == Part(plus, minus, 1);
    } else {
      assert first + "" == first;
    }
  }

  lemma OnePartFed(plus: Rec, minus: Option<Rec>, kinds: Kinds)
    requires Valid(plus) && Valid(MinusOf(minus)) && Printable(kinds) && Asked(plus.kinds) == kinds && !TwoParts(kinds)
    ensures var st := Feed(StartRead(kinds), BuildStr(plus, minus), kinds, minus.Some?);
            st.plus == Fed(plus, kinds, Joint(plus.kinds)) && st.minus == Fed(MinusOf(minus), kinds, NONE)
  {
    var mode := StartMode(kinds);
    ValidFits(plus, mode);
    ValidFits(MinusOf(minus), mode);
    PartBack(StartRead(kinds), plus, minus, mode, kinds);
    OnePartText(plus, minus, kinds);
  }

  lemma SeparatorFed(st: Reader, plus: Rec, kinds: Kinds, hasMinus: bool)
    requires Printable(kinds) && Asked(plus.kinds) == kinds && TwoParts(kinds)
    requires st.mode == StartMode(kinds) && !st.stopped && st.plus.kinds == NONE.(either := true)
    ensures Feed(st, Separator(plus), kinds, hasMinus)
            == Reader(st.plus.(kinds := Joint(plus.kinds)), st.minus, false, 1, false)
  {
    FeedOne(st, Separator(plus)[0], kinds, hasMinus);
    assert Separator(plus) == [Separator(plus)[0]];
  }

  lemma TwoPartsFed(plus: Rec, minus: Option<Rec>, kinds: Kinds)
    requires Valid(plus) && Valid(MinusOf(minus)) && Printable(kinds) && Asked(plus.kinds) == kinds && TwoParts(kinds)
    ensures var st := Feed(StartRead(kinds), BuildStr(plus, minus), kinds, minus.Some?);
            st.plus == Fed(plus, kinds, Joint(plus.kinds)) && st.minus == Fed(MinusOf(minus), kinds, NONE)
  {
    var st, first := StartRead(kinds), StartMode(kinds);
    var a, c, b := Part(plus, minus, first), Separator(plus), Part(plus, minus, 1);
    ValidFits(plus, first);
    ValidFits(MinusOf(minus), first);
    PartBack(st, plus, minus, first, kinds);
    var st1 := Feed(st, a, kinds, minus.Some?);
    SeparatorFed(st1, plus, kinds, minus.Some?);
    var st2 := Feed(st1, c, kinds, minus.Some?);
    ValidFits(plus, 1);
    ValidFits(MinusOf(minus), 1);
    PartBack(st2, plus, minus, 1, kinds);
    FeedConcat(st, a, c + b, kinds, minus.Some?);
    FeedConcat(st1, c, b, kinds, minus.Some?);
    assert BuildStr(plus, minus) == a + (c + b);
  }

  /** The fields that these kinds print. */
  function Selected(r: Rec, kinds: Kinds, joint: Kinds): Rec {
    Rec(Union(joint, kinds),
        if kinds.glob then r.global else {}, if kinds.glob then r.udefGlobal else {},
        if kinds.bot then r.bot else {},
        if kinds.chan then r.chan else {}, if kinds.chan then r.udefChan else {})
  }

  lemma FedSelected(r: Rec, kinds: Kinds, joint: Kinds)
    requires Valid(r) && Printable(kinds)
    ensures Masked(Fed(r, kinds, joint)).(kinds := Union(joint, kinds)) == Selected(r, kinds, joint)
  {
  }

  /** Printing and reading back restores every printed field of both records, and for global with
      channel flags also whether they were joined by AND; otherwise the reader settles for OR. */
  lemma RoundTrip(plus: Rec, minus: Option<Rec>, kinds: Kinds)
    requires Valid(plus) && Valid(MinusOf(minus)) && Printable(kinds) && Asked(plus.kinds) == kinds
    ensures ReadStr(BuildStr(plus, minus), kinds, minus.Some?)
            == (Selected(plus, kinds, Joint(plus.kinds)), Selected(MinusOf(minus), kinds, NONE))
  {
    if TwoParts(kinds) { TwoPartsFed(plus, minus, kinds); } else { OnePartFed(plus, minus, kinds); }
    FedSelected(plus, kinds, Joint(plus.kinds));
    FedSelected(MinusOf(minus), kinds, NONE);
  }

  // ------------------------------------------------------------- the printer's code

  lemma {:induction false} LettersLength(base: char, bits: set<nat>, first: nat, k: nat, n: nat)
    requires base in {'a', 'A', '0'} && first <= k <= n <= first + 26
    ensures |Letters(base, bits, first, k, n)| <= n - k
    decreases n - k
  {
    if k < n { LettersLength(base, bits, first, k + 1, n); }
  }

  lemma TextLength(w: Word)
    ensures 1 <= |Text(w)| <= 52
  {
    LettersLength('a', w.bits, 0, 0, 26);
    LettersLength('A', w.udef, 0, 0, 26);
    LettersLength('a', w.bits, 0, 0, 21);
    LettersLength('0', w.bits, 21, 21, 31);
  }

  lemma LetterDue(done: string, base: char, bits: set<nat>, first: nat, k: nat, n: nat, due: string)
    requires base in {'a', 'A', '0'} && first <= k < n <= first + 26
    requires done + Letters(base, bits, first, k, n) == due
    ensures (if k in bits then done + [Letter(base, k - first)] else done) + Letters(base, bits, first, k + 1, n) == due
  {
    var rest := Letters(base, bits, first, k + 1, n);
    if k in bits {
      assert done + [Letter(base, k - first)] + rest == done + ([Letter(base, k - first)] + rest);
    } else {
      assert "" + rest == rest;
    }
  }

  lemma NoneDue(base: char, bits: set<nat>, first: nat, k: nat, n: nat)
    requires base in {'a', 'A', '0'} && first <= k <= n <= first + 26
    requires k == n || forall b :: b in bits ==> b < k
    ensures Letters(base, bits, first, k, n) == ""
  {
    LettersEmpty(base, bits, first, k, n);
    assert Range(bits, k, n) == {};
  }

  /** Writes the letters of the bits below `n`; with `early`, stops as soon as no bit is left. */
  method PutLetters(out: array<char>, p: nat, base: char, bits: set<nat>, first: nat, n: nat, early: bool) returns (q: nat)
    requires base in {'a', 'A', '0'} && first <= n <= first + 26 && p + (n - first) <= out.Length
    modifies out
    ensures Wrote(old(out[..]), out[..], p, q, Letters(base, bits, first, first, n))
  {
    q := p;
    var k := first;
    var rest := set b | b in bits && b >= first;
    ghost var due := out[..p] + Letters(base, bits, first, first, n);
    while k < n && !(early && rest == {})
      invariant first <= k <= n && p <= q <= p + (k - first)
      invariant forall b :: b in rest <==> b in bits && b >= k
      invariant out[..q] + Letters(base, bits, first, k, n) == due
      decreases n - k
    {
      LetterDue(out[..q], base, bits, first, k, n, due);
      if k in rest {
        q := Put(out, q, Letter(base, k - first));
      }
      rest := rest - {k};
      k := k + 1;
    }
    NoneDue(base, bits, first, k, n);
    assert out[..][..q] == out[..q];
  }

  method PutChar(out: array<char>, p: nat, c: char) returns (q: nat)
    requires p < out.Length
    modifies out
    ensures Wrote(old(out[..]), out[..], p, q, [c])
  {
    q := Put(out, p, c);
    assert out[..][..q] == out[..q];
  }

  /** A dash stands for an empty text. */
  method PutDashIfEmpty(out: array<char>, p: nat, q: nat, ghost was: seq<char>, ghost t: string) returns (r: nat)
    requires p < out.Length && Wrote(was, out[..], p, q, t)
    modifies out
    ensures Wrote(was, out[..], p, r, OrDash(t))
  {
    r := q;
    if q == p {
      ghost var now := out[..];
      r := PutChar(out, p, '-');
      WroteThen(was, now, out[..], p, p, r, "", "-");
    }
  }

  method Flag2Str(out: array<char>, p: nat, bits: set<nat>, udef: set<nat>) returns (q: nat)
    requires p + 52 <= out.Length
    modifies out
    ensures Wrote(old(out[..]), out[..], p, q, FlagStr(bits, udef))
  {
    ghost var a, b := Letters('a', bits, 0, 0, 26), Letters('A', udef, 0, 0, 26);
    ghost var w0 := out[..];
    LettersLength('a', bits, 0, 0, 26);
    var q1 := PutLetters(out, p, 'a', bits, 0, 26, true);
    ghost var w1 := out[..];
    var q2 := PutLetters(out, q1, 'A', udef, 0, 26, true);
    WroteThen(w0, w1, out[..], p, q1, q2, a, b);
    q := PutDashIfEmpty(out, p, q2, w0, a + b);
  }

  method Bot2Str(out: array<char>, p: nat, bits: set<nat>) returns (q: nat)
    requires p + 52 <= out.Length
    modifies out
    ensures Wrote(old(out[..]), out[..], p, q, BotStr(bits))
  {
    ghost var a, b := Letters('a', bits, 0, 0, 21), Letters('0', bits, 21, 21, 31);
    ghost var w0 := out[..];
    LettersLength('a', bits, 0, 0, 21);
    var q1 := PutLetters(out, p, 'a', bits, 0, 21, false);
    ghost var w1 := out[..];
    var q2 := PutLetters(out, q1, '0', bits, 21, 31, false);
    WroteThen(w0, w1, out[..], p, q1, q2, a, b);
    q := PutDashIfEmpty(out, p, q2, w0, a + b);
  }

  /** The flags of one mode, behind a sign when asked for. */
  method PutWord(out: array<char>, p: nat, w: Word, sign: string) returns (q: nat)
    requires |sign| <= 1 && p + 53 <= out.Length
    modifies out
    ensures Wrote(old(out[..]), out[..], p, q, sign + Text(w)) && q <= p + 53
  {
    ghost var w0 := out[..];
    TextLength(w);
    var q1 := p;
    if sign != "" {
      q1 := PutChar(out, p, sign[0]);
      assert sign == [sign[0]];
    }
    ghost var w1 := out[..];
    if w.mode == 2 {
      q := Bot2Str(out, q1, w.bits);
    } else {
      q := Flag2Str(out, q1, w.bits, w.udef);
    }
    WroteThen(w0, w1, out[..], p, q1, q, sign, Text(w));
  }

  method PutPart(out: array<char>, p: nat, plus: Rec, minus: Option<Rec>, mode: nat) returns (q: nat)
    requires p + 106 <= out.Length
    modifies out
    ensures Wrote(old(out[..]), out[..], p, q, Part(plus, minus, mode)) && p < q <= p + 106
  {
    ghost var w0 := out[..];
    var w := WordOf(plus, mode);
    TextLength(w);
    var sign := if minus.Some? && Any(w) then "+" else "";
    q := PutWord(out, p, w, sign);
    ghost var first := sign + Text(w);
    assert first + "" == first;
    if minus.Some? && Any(WordOf(minus.value, mode)) {
      ghost var w1, q1 := out[..], q;
      q := PutWord(out, q, WordOf(minus.value, mode), "-");
      WroteThen(w0, w1, out[..], p, q1, q, first, "-" + Text(WordOf(minus.value, mode)));
    }
  }

  /** The channel flags and what stands before them. */
  method PutChanPart(out: array<char>, p: nat, plus: Rec, minus: Option<Rec>) returns (q: nat)
    requires p + 107 <= out.Length
    modifies out
    ensures Wrote(old(out[..]), out[..], p, q, Separator(plus) + Part(plus, minus, 1)) && p < q <= p + 107
  {
    ghost var w0 := out[..];
    var q1 := p;
    if plus.kinds.glob || plus.kinds.bot {
      q1 := PutChar(out, p, if plus.kinds.both then '&' else '|');
    }
    ghost var w1 := out[..];
    q := PutPart(out, q1, plus, minus, 1);
    WroteThen(w0, w1, out[..], p, q1, q, Separator(plus), Part(plus, minus, 1));
  }

  method PutParts(out: array<char>, plus: Rec, minus: Option<Rec>) returns (q: nat)
    requires out.Length >= 214
    modifies out
    ensures Wrote(old(out[..]), out[..], 0, q, Parts(plus, minus)) && q <= 213
    ensures q > 0 <==> plus.kinds.glob || plus.kinds.bot || plus.kinds.chan
  {
    ghost var w0 := out[..];
    q := 0;
    if plus.kinds.glob {
      q := PutPart(out, q, plus, minus, 0);
    } else if plus.kinds.bot {
      q := PutPart(out, q, plus, minus, 2);
    }
    ghost var first := FirstPart(plus, minus);
    assert Wrote(w0, out[..], 0, q, first);
    assert first + "" == first;
    if plus.kinds.chan {
      ghost var w1, q1 := out[..], q;
      q := PutChanPart(out, q, plus, minus);
      WroteThen(w0, w1, out[..], 0, q1, q, first, Separator(plus) + Part(plus, minus, 1));
    }
  }

  /** Prints a record pair; the answer is the length, or 0 when there was nothing to print and a
      dash stands alone. */
  method BuildFlags(out: array<char>, plus: Rec, minus: Option<Rec>) returns (len: nat)
    requires out.Length >= 214
    modifies out
    ensures var s := BuildStr(plus, minus);
            && |s| < out.Length && out[..|s|] == s && out[|s|] == '\0'
            && len == if plus.kinds.glob || plus.kinds.bot || plus.kinds.chan then |s| else 0
  {
    var q := PutParts(out, plus, minus);
    if q == 0 {
      out[0] := '-';
      out[1] := '\0';
      return 0;
    }
    assert out[..q] == out[..][..q] == BuildStr(plus, minus);
    out[q] := '\0';
    return q;
  }
}
