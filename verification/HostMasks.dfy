/** Comparing nick!ident@host masks, with CIDR notation in the host part. */
module HostMasks {
  import opened Wrappers
  import opened Regex
  import opened Matching
  import opened Blocks

  const UHOSTLEN := 324

  /** RFC 1459 upper case: `{|}~` count as lower case too. */
  function ToUpper(c: char): char {
    if 0x61 <= c as int <= 0x7E then (c as int - 0x20) as char else c
  }

  function Upper(s: string): (r: string)
    ensures |r| == |s| && forall i :: 0 <= i < |s| ==> r[i] == ToUpper(s[i])
  {
    if s == "" then "" else [ToUpper(s[0])] + Upper(s[1..])
  }

  /** What ends up in the buffer. */
  function Prepared(m: string): string {
    Upper(if |m| <= UHOSTLEN - 1 then m else m[..UHOSTLEN - 1])
  }

  /** strrchr: the last place of `c`, or -1. */
  function LastOf(s: string, c: char): (r: int)
    ensures -1 <= r < |s| && (r >= 0 ==> s[r] == c) && forall i :: r < i < |s| ==> s[i] != c
  {
    if s == "" then -1 else if s[|s| - 1] == c then |s| - 1 else LastOf(s[..|s| - 1], c)
  }

  // ------------------------------------------------------------- numbers

  predicate Digit(c: char) { '0' <= c <= '9' }

  predicate IsDigits(s: string) {
    s != "" && forall i :: 0 <= i < |s| ==> Digit(s[i])
  }

  function Value(d: string): nat
    requires forall i :: 0 <= i < |d| ==> Digit(d[i])
  {
    if d == "" then 0
    else
      assert Digit(d[|d| - 1]);
      10 * Value(d[..|d| - 1]) + (d[|d| - 1] as int - '0' as int)
  }

  function Leading(s: string): (r: string)
    ensures forall i :: 0 <= i < |r| ==> Digit(r[i])
  {
    if s == "" || !Digit(s[0]) then "" else [s[0]] + Leading(s[1..])
  }

  function SkipSpace(s: string): string {
    if s != "" && (s[0] == ' ' || 9 <= s[0] as int <= 13) then SkipSpace(s[1..]) else s
  }

  const LONG_MAX := 0x7FFF_FFFF_FFFF_FFFF

  /** strtol in base 10: blanks, a sign, digits; the value is limited to 64 bits. */
  function Strtol(s: string): int {
    var t := SkipSpace(s);
    var neg := t != "" && t[0] == '-';
    var u := if t != "" && (t[0] == '-' || t[0] == '+') then t[1..] else t;
    var v: int := Value(Leading(u));
    if neg then (if v > LONG_MAX + 1 then -LONG_MAX - 1 else -v) else if v > LONG_MAX then LONG_MAX else v
  }

  function Least(a: int, b: int): int { if b < a then b else a }

  /** The value cut to an int. */
  function Atoi(s: string): int {
    Wrap32(Strtol(s))
  }

  function Wrap32(v: int): int {
    (v + 0x8000_0000) % 0x1_0000_0000 - 0x8000_0000
  }

  lemma WrapSmall(v: int)
    requires 0 <= v < 0x8000_0000
    ensures Wrap32(v) == v
  {
  }

  lemma WrapBelowOne(v: int)
    requires 0 <= v
    ensures Wrap32(v) < 1 <==> v % 0x1_0000_0000 == 0 || v % 0x1_0000_0000 >= 0x8000_0000
  {
    var q, r := v / 0x1_0000_0000, v % 0x1_0000_0000;
    assert v == 0x1_0000_0000 * q + r;
    if r < 0x8000_0000 {
      assert (v + 0x8000_0000) / 0x1_0000_0000 == q;
    } else {
      assert (v + 0x8000_0000) / 0x1_0000_0000 == q + 1;
    }
  }

  lemma {:induction false} LeadingAll(d: string)
    requires forall i :: 0 <= i < |d| ==> Digit(d[i])
    ensures Leading(d) == d
  {
    if d != "" { LeadingAll(d[1..]); }
  }

  lemma StrtolOfDigits(d: string)
    requires IsDigits(d)
    ensures Strtol(d) == Least(Value(d), LONG_MAX)
  {
    LeadingAll(d);
    assert Digit(d[0]) && SkipSpace(d) == d;
  }

  /** A run of digits is limited to 64 bits and then cut to 32. */
  lemma AtoiOfDigits(d: string)
    requires IsDigits(d)
    ensures Atoi(d) == Wrap32(Least(Value(d), LONG_MAX))
    ensures Value(d) < 0x8000_0000 ==> Atoi(d) == Value(d)
  {
    StrtolOfDigits(d);
    if Value(d) < 0x8000_0000 { WrapSmall(Value(d)); }
  }

  /** When such a number comes out as zero or less: it is 0, or wraps to 0, or fills the sign bit, or
      is too large altogether. */
  lemma VanishesIff(d: string)
    requires IsDigits(d)
    ensures Atoi(d) < 1 <==>
            Value(d) > LONG_MAX || Value(d) % 0x1_0000_0000 == 0 || Value(d) % 0x1_0000_0000 >= 0x8000_0000
  {
    AtoiOfDigits(d);
    WrapBelowOne(Least(Value(d), LONG_MAX));
  }

  // ------------------------------------------------------------- addresses

  /** The two readers of address texts: dotted IPv4 and IPv6. */
  datatype Pton = Pton(v4: string -> Option<Addr>, v6: string -> Option<Addr>)

  ghost predicate Sane(pton: Pton) {
    forall s ::
      && (pton.v4(s).Some? ==> |pton.v4(s).value| == 4 && ':' !in s && '/' !in s)
      && (pton.v6(s).Some? ==> |pton.v6(s).value| == 16 && ':' in s && '/' !in s)
  }

  function Read(pton: Pton, six: bool, s: string): Option<Addr> {
    if six then pton.v6(s) else pton.v4(s)
  }

  function Width(six: bool): nat {
    if six then 128 else 32
  }

  lemma ReadLength(pton: Pton, six: bool, s: string)
    requires Sane(pton) && Read(pton, six, s).Some?
    ensures 8 * |Read(pton, six, s).value| == Width(six) && six == (':' in s) && '/' !in s
  {
  }

  /** The number of bits compared, 1 for an empty prefix, 0 for no match. */
  function CidrMatch(pton: Pton, m: string, n: string, count: int): (r: int)
    requires Sane(pton)
    ensures r >= 0
  {
    var six := ':' in m || ':' in n;
    if count > Width(six) then 0
    else if Read(pton, six, m).None? || Read(pton, six, n).None? then 0
    else if count < 1 then 1
    else if CompWithMask(Read(pton, six, n).value, Read(pton, six, m).value, count) then count
    else 0
  }

  /** The texts of two addresses of one family whose first `count` bits agree. */
  ghost predicate SamePrefix(pton: Pton, m: string, n: string, count: nat)
    requires Sane(pton)
  {
    var a, b := Read(pton, ':' in m, m), Read(pton, ':' in n, n);
    a.Some? && b.Some? && |a.value| == |b.value| && count <= 8 * |a.value| && Agree(a.value, b.value, count)
  }

  function Compared(count: int): nat {
    if count < 1 then 0 else count
  }

  /** Texts match exactly when both are addresses of one family whose first `count` bits agree; below
      1 no bit is compared. */
  lemma CidrMatchIff(pton: Pton, m: string, n: string, count: int)
    requires Sane(pton)
    ensures CidrMatch(pton, m, n, count) > 0 <==> SamePrefix(pton, m, n, Compared(count))
  {
    var six := ':' in m || ':' in n;
    var a, b := Read(pton, six, m), Read(pton, six, n);
    if a.Some? && b.Some? {
      ReadLength(pton, six, m);
      ReadLength(pton, six, n);
      if 1 <= count <= Width(six) {
        ComparesPrefix(b.value, a.value, count);
        if Agree(b.value, a.value, count) { AgreeSymmetric(b.value, a.value, count); }
        if Agree(a.value, b.value, count) { AgreeSymmetric(a.value, b.value, count); }
      }
    } else if SamePrefix(pton, m, n, Compared(count)) {
      ReadLength(pton, ':' in m, m);
      ReadLength(pton, ':' in n, n);
    }
  }

  lemma SamePrefixSymmetric(pton: Pton, m: string, n: string, count: nat)
    requires Sane(pton) && SamePrefix(pton, m, n, count)
    ensures SamePrefix(pton, n, m, count)
  {
    AgreeSymmetric(Read(pton, ':' in m, m).value, Read(pton, ':' in n, n).value, count);
  }

  lemma CidrMatchSymmetric(pton: Pton, m: string, n: string, count: int)
    requires Sane(pton)
    ensures CidrMatch(pton, m, n, count) > 0 <==> CidrMatch(pton, n, m, count) > 0
  {
    CidrMatchIff(pton, m, n, count);
    CidrMatchIff(pton, n, m, count);
    if SamePrefix(pton, m, n, Compared(count)) { SamePrefixSymmetric(pton, m, n, Compared(count)); }
    if SamePrefix(pton, n, m, Compared(count)) { SamePrefixSymmetric(pton, n, m, Compared(count)); }
  }

  // ------------------------------------------------------------- host parts

  function Slash(h: string): int { LastOf(h, '/') }

  /** The text behind the last slash is a number. */
  predicate HasPrefix(h: string) {
    Slash(h) >= 0 && IsDigits(h[Slash(h) + 1..])
  }

  function PrefixOf(h: string): int
    requires Slash(h) >= 0
  {
    Atoi(h[Slash(h) + 1..])
  }

  ghost function Score(b: bool): int { if b then 1 else 0 }

  /** The host comparison at the end of `addr_match`. */
  ghost function HostScore(pton: Pton, r: string, s: string, cmp: bool): int
    requires Sane(pton)
  {
    if !HasPrefix(r) then Score(Wild(r, s))
    else if cmp && HasPrefix(s) then
      if PrefixOf(r) > PrefixOf(s) then 0
      else CidrMatch(pton, r[..Slash(r)], s[..Slash(s)], PrefixOf(r))
    else CidrMatch(pton, r[..Slash(r)], s, PrefixOf(r))
  }

  function MaskPrefix(r: string, s: string): int {
    var prefix := if Slash(r) >= 0 then PrefixOf(r) else Width(':' in r);
    if Slash(s) >= 0 then Least(prefix, PrefixOf(s)) else prefix
  }

  function Before(h: string): string {
    if Slash(h) >= 0 then h[..Slash(h)] else h
  }

  /** The host comparison at the end of `mask_match`. */
  ghost function MaskScore(pton: Pton, r: string, s: string): int
    requires Sane(pton)
  {
    if !HasPrefix(r) && !HasPrefix(s) then Score(Wild(r, s) || Wild(s, r))
    else CidrMatch(pton, Before(r), Before(s), MaskPrefix(r, s))
  }

  // ------------------------------------------------------------- well-formed masks

  ghost predicate PlainAddress(pton: Pton, h: string) {
    Slash(h) < 0 && Read(pton, ':' in h, h).Some?
  }

  /** address/length with a length that the address has. */
  ghost predicate CidrMask(pton: Pton, h: string) {
    && HasPrefix(h)
    && Read(pton, ':' in Before(h), Before(h)).Some?
    && Value(h[Slash(h) + 1..]) <= Width(':' in Before(h))
  }

  ghost predicate Block(pton: Pton, h: string) { PlainAddress(pton, h) || CidrMask(pton, h) }

  ghost function Base(pton: Pton, h: string): Addr
    requires Block(pton, h)
  {
    Read(pton, ':' in Before(h), Before(h)).value
  }

  ghost function Length(pton: Pton, h: string): (n: nat)
    requires Sane(pton) && Block(pton, h)
    ensures n <= 8 * |Base(pton, h)|
  {
    ReadLength(pton, ':' in Before(h), Before(h));
    if Slash(h) >= 0 then Value(h[Slash(h) + 1..]) else Width(':' in h)
  }

  lemma LengthRead(pton: Pton, h: string)
    requires Sane(pton) && CidrMask(pton, h)
    ensures PrefixOf(h) == Length(pton, h)
  {
    AtoiOfDigits(h[Slash(h) + 1..]);
  }

  /** Comparing masks: of two CIDR masks the first is accepted exactly when its block holds the second's. */
  lemma AddrMatchIsContainment(pton: Pton, r: string, s: string)
    requires Sane(pton) && CidrMask(pton, r) && CidrMask(pton, s)
    ensures HostScore(pton, r, s, true) > 0 <==>
            Contains(Base(pton, r), Length(pton, r), Base(pton, s), Length(pton, s))
  {
    LengthRead(pton, r);
    LengthRead(pton, s);
    CidrMatchIff(pton, Before(r), Before(s), Length(pton, r));
    ContainsIff(Base(pton, r), Length(pton, r), Base(pton, s), Length(pton, s));
  }

  /** A plain address is accepted by a CIDR mask exactly when it lies in the block. */
  lemma AddrMatchIsMembership(pton: Pton, r: string, s: string, cmp: bool)
    requires Sane(pton) && CidrMask(pton, r) && PlainAddress(pton, s)
    ensures HostScore(pton, r, s, cmp) > 0 <==> InBlock(Base(pton, s), Base(pton, r), Length(pton, r))
  {
    LengthRead(pton, r);
    var a, b, n := Base(pton, r), Base(pton, s), Length(pton, r);
    CidrMatchIff(pton, Before(r), s, n);
    if |a| == |b| && Agree(a, b, n) { AgreeSymmetric(a, b, n); }
    if InBlock(b, a, n) { AgreeSymmetric(b, a, n); }
  }

  lemma BlockWidth(pton: Pton, h: string)
    requires Sane(pton) && Block(pton, h)
    ensures 8 * |Base(pton, h)| == Width(':' in Before(h)) && Length(pton, h) <= Width(':' in Before(h))
    ensures PlainAddress(pton, h) ==> Length(pton, h) == Width(':' in Before(h))
  {
    ReadLength(pton, ':' in Before(h), Before(h));
  }

  /** The shorter of the two lengths is compared; between families nothing matches anyway. */
  lemma MaskPrefixIs(pton: Pton, r: string, s: string)
    requires Sane(pton) && Block(pton, r) && Block(pton, s)
    ensures MaskPrefix(r, s) >= 0
    ensures |Base(pton, r)| == |Base(pton, s)| ==> MaskPrefix(r, s) == Least(Length(pton, r), Length(pton, s))
  {
    BlockWidth(pton, r);
    BlockWidth(pton, s);
    if CidrMask(pton, r) { LengthRead(pton, r); }
    if CidrMask(pton, s) { LengthRead(pton, s); }
  }

  /** Overlap of two hosts of which at least one is a CIDR mask and the other may be an address. */
  lemma MaskMatchIsOverlap(pton: Pton, r: string, s: string)
    requires Sane(pton) && Block(pton, r) && Block(pton, s) && (CidrMask(pton, r) || CidrMask(pton, s))
    ensures MaskScore(pton, r, s) > 0 <==>
            Overlap(Base(pton, r), Length(pton, r), Base(pton, s), Length(pton, s))
  {
    MaskPrefixIs(pton, r, s);
    CidrMatchIff(pton, Before(r), Before(s), MaskPrefix(r, s));
    OverlapIff(Base(pton, r), Length(pton, r), Base(pton, s), Length(pton, s));
  }

  // ------------------------------------------------------------- the order of two masks

  ghost predicate Readable(pton: Pton, a: string) {
    Read(pton, ':' in a, a).Some?
  }

  ghost predicate SameAddress(pton: Pton, a: string, b: string) {
    Readable(pton, a) && Read(pton, ':' in a, a) == Read(pton, ':' in b, b)
  }

  /** A mask with a number larger than its address is long, against that same address. */
  ghost predicate OneSided(pton: Pton, r: string, s: string) {
    HasPrefix(r) && Slash(s) < 0 && SameAddress(pton, Before(r), s) && PrefixOf(r) > Width(':' in Before(r))
  }

  lemma SameFamily(pton: Pton, a: string, b: string)
    requires Sane(pton) && SameAddress(pton, a, b)
    ensures (':' in a) == (':' in b)
  {
    ReadLength(pton, ':' in a, a);
    ReadLength(pton, ':' in b, b);
  }

  /** All bits agree exactly when the addresses are the same. */
  lemma WholeAddress(pton: Pton, a: string, b: string)
    requires Sane(pton)
    ensures SamePrefix(pton, a, b, Width(':' in a)) <==> SameAddress(pton, a, b)
  {
    if Readable(pton, a) && Readable(pton, b) {
      ReadLength(pton, ':' in a, a);
      ReadLength(pton, ':' in b, b);
      var x, y := Read(pton, ':' in a, a).value, Read(pton, ':' in b, b).value;
      if |x| == |y| {
        AgreeBytes(x, y, Width(':' in a));
        assert x == y <==> forall k :: 0 <= k < |x| ==> x[k] == y[k];
      }
    }
  }

  /** A number longer than the plain address: the mask never accepts it, while the address accepts
      the mask exactly when they are the same address. */
  lemma TooLongIsOneSided(pton: Pton, r: string, s: string)
    requires Sane(pton) && HasPrefix(r) && Slash(s) < 0 && PrefixOf(r) > Width(':' in s)
    ensures MaskScore(pton, r, s) <= 0
    ensures MaskScore(pton, s, r) > 0 <==> SameAddress(pton, Before(r), s)
  {
    CidrMatchIff(pton, Before(r), s, PrefixOf(r));
    CidrMatchIff(pton, s, Before(r), Width(':' in s));
    WholeAddress(pton, s, Before(r));
    if Readable(pton, s) { ReadLength(pton, ':' in s, s); }
  }

  lemma OneSlash(pton: Pton, r: string, s: string)
    requires Sane(pton) && HasPrefix(r) && Slash(s) < 0
    ensures (MaskScore(pton, r, s) > 0 <==> MaskScore(pton, s, r) > 0) <==> !OneSided(pton, r, s)
  {
    if PrefixOf(r) > Width(':' in s) {
      TooLongIsOneSided(pton, r, s);
    } else {
      CidrMatchSymmetric(pton, Before(r), s, PrefixOf(r));
    }
    if SameAddress(pton, Before(r), s) { SameFamily(pton, Before(r), s); }
  }

  /** For all hosts: the answer does not depend on their order if and only if neither is, with a number
      longer than its address, set against that same address without a number. */
  lemma MaskMatchOrderIff(pton: Pton, r: string, s: string)
    requires Sane(pton)
    ensures (MaskScore(pton, r, s) > 0 <==> MaskScore(pton, s, r) > 0) <==> !OneSided(pton, r, s) && !OneSided(pton, s, r)
  {
    if HasPrefix(r) && Slash(s) < 0 {
      OneSlash(pton, r, s);
    } else if HasPrefix(s) && Slash(r) < 0 {
      OneSlash(pton, s, r);
    } else if HasPrefix(r) || HasPrefix(s) {
      assert MaskPrefix(r, s) == MaskPrefix(s, r);
      CidrMatchSymmetric(pton, Before(r), Before(s), MaskPrefix(r, s));
    }
  }

  /** For a mask with a readable address: against plain addresses the order never matters if and only
      if its number, as read, is no longer than the address. */
  lemma MaskMatchSymmetric(pton: Pton, r: string)
    requires Sane(pton) && HasPrefix(r) && Readable(pton, Before(r))
    ensures (forall s :: PlainAddress(pton, s) ==> (MaskScore(pton, r, s) > 0 <==> MaskScore(pton, s, r) > 0))
            <==> PrefixOf(r) <= Width(':' in Before(r))
  {
    var a := Before(r);
    ReadLength(pton, ':' in a, a);
    forall s | PlainAddress(pton, s)
      ensures (MaskScore(pton, r, s) > 0 <==> MaskScore(pton, s, r) > 0) <==> !OneSided(pton, r, s)
    {
      OneSlash(pton, r, s);
    }
    assert PlainAddress(pton, a);
    if PrefixOf(r) > Width(':' in a) { assert OneSided(pton, r, a); }
  }

  // ------------------------------------------------------------- numbers below 1

  /** A host without a number, against a mask with one. */
  lemma PlainHostIff(pton: Pton, r: string, s: string, cmp: bool)
    requires Sane(pton) && HasPrefix(r) && Slash(s) < 0
    ensures HostScore(pton, r, s, cmp) > 0 <==> SamePrefix(pton, Before(r), s, Compared(PrefixOf(r)))
  {
    CidrMatchIff(pton, Before(r), s, PrefixOf(r));
  }

  /** Every address has a text. */
  ghost predicate Complete(pton: Pton) {
    forall a: Addr :: (|a| == 4 ==> exists s :: pton.v4(s) == Some(a)) && (|a| == 16 ==> exists s :: pton.v6(s) == Some(a))
  }

  lemma TextOf(pton: Pton, six: bool, a: Addr) returns (s: string)
    requires Complete(pton) && 8 * |a| == Width(six)
    ensures Read(pton, six, s) == Some(a)
  {
    if six {
      assert |a| == 16;
      s :| pton.v6(s) == Some(a);
    } else {
      assert |a| == 4;
      s :| pton.v4(s) == Some(a);
    }
  }

  ghost predicate AcceptsFamily(pton: Pton, r: string)
    requires Sane(pton)
  {
    forall s :: PlainAddress(pton, s) && (':' in s) == (':' in Before(r)) ==> HostScore(pton, r, s, false) > 0
  }

  /** A mask with a readable address accepts every address of its family if and only if its number is
      read as less than 1: because it is 0, or because it does not fit an int and wraps. */
  lemma AcceptsFamilyIff(pton: Pton, r: string)
    requires Sane(pton) && Complete(pton) && HasPrefix(r) && Readable(pton, Before(r))
    ensures AcceptsFamily(pton, r) <==> PrefixOf(r) < 1
  {
    var six := ':' in Before(r);
    var a := Read(pton, six, Before(r)).value;
    ReadLength(pton, six, Before(r));
    if PrefixOf(r) < 1 {
      forall s | PlainAddress(pton, s) && (':' in s) == six ensures HostScore(pton, r, s, false) > 0 {
        PlainHostIff(pton, r, s, false);
        ReadLength(pton, six, s);
      }
    } else {
      FlipStays(a, 0);
      var b := Flip(a, 0);
      var s := TextOf(pton, six, b);
      ReadLength(pton, six, s);
      PlainHostIff(pton, r, s, false);
      assert BitAt(a, 0) != BitAt(b, 0);
      assert !SamePrefix(pton, Before(r), s, PrefixOf(r));
      assert PlainAddress(pton, s);
    }
  }

  // ------------------------------------------------------------- whole masks

  /** A mask in upper case and, when it has an `@`, the parts before and after the last one. */
  datatype Mask = Mask(whole: string, found: bool, left: string, host: string)

  function PartsOf(m: string): Mask {
    var whole := Prepared(m);
    var at := LastOf(whole, '@');
    if at >= 0 then Mask(whole, true, whole[..at], whole[at + 1..]) else Mask(whole, false, "", "")
  }

  predicate Clean(p: Mask) {
    '\0' !in p.whole && '\0' !in p.left && '\0' !in p.host
  }

  lemma PartsClean(m: string)
    requires '\0' !in m
    ensures Clean(PartsOf(m))
  {
    PreparedClean(m);
  }

  lemma PreparedClean(m: string)
    requires '\0' !in m
    ensures '\0' !in Prepared(m)
  {
  }

  /** The wildcard part of a mask is never cut: it always has its full meaning. */
  lemma MaskPartsFit(m: string, n: string)
    ensures var p := PartsOf(m);
            Wild(p.left, n) <==> p.left != "" && n != "" && MatchesLine(p.left, n, false)
    ensures var p := PartsOf(m);
            Wild(p.whole, n) <==> p.whole != "" && n != "" && MatchesLine(p.whole, n, false)
  {
    HostMaskFits(PartsOf(m).whole);
    HostMaskFits(PartsOf(m).left);
  }

  /** What `addr_match` answers for two masks. */
  ghost function AddrScore(pton: Pton, m: Mask, n: Mask, user: bool, cmp: bool, cidrSupport: bool): int
    requires Sane(pton)
  {
    if (!user && !cidrSupport) || !m.found || !n.found then Score(Wild(m.whole, n.whole))
    else if !Wild(m.left, n.left) then 0
    else if m.host == "" && n.host == "" then 1
    else if HostScore(pton, m.host, n.host, cmp) == 0 then 0
    else 1 + HostScore(pton, m.host, n.host, cmp)
  }

  /** What `mask_match` answers for two masks. */
  ghost function OverlapScore(pton: Pton, m: Mask, n: Mask, cidrSupport: bool): int
    requires Sane(pton)
  {
    if !cidrSupport || !m.found || !n.found then Score(Wild(m.whole, n.whole) || Wild(n.whole, m.whole))
    else if !Wild(m.left, n.left) && !Wild(n.left, m.left) then 0
    else if m.host == "" && n.host == "" then 1
    else MaskScore(pton, m.host, n.host)
  }
}
