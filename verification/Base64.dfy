/** The base-64 numbers of the botnet protocol. */
module Base64 {

  const UINT_MAX := 0xFFFF_FFFF
  const INT_MAX := 0x7FFF_FFFF

  function ToDigit(v: nat): char
    requires v < 64
  {
    if v < 26 then ('A' as int + v) as char
    else if v < 52 then ('a' as int + v - 26) as char
    else if v < 62 then ('0' as int + v - 52) as char
    else if v == 62 then '[' else ']'
  }

  /** Everything that is no digit counts as 0. */
  function FromDigit(c: char): (v: nat)
    ensures v < 64
  {
    if '0' <= c <= '9' then c as int - '0' as int + 52
    else if 'A' <= c <= 'Z' then c as int - 'A' as int
    else if 'a' <= c <= 'z' then c as int - 'a' as int + 26
    else if c == '[' then 62 else if c == ']' then 63 else 0
  }

  /** The digits are A to Z, a to z, 0 to 9, [ and ], in this order; every other character counts as 0. */
  lemma DigitsAre(v: nat, c: char)
    requires v < 64
    ensures ToDigit(v) as int == if v < 26 then 65 + v else if v < 52 then 71 + v else if v < 62 then v - 4 else if v == 62 then 91 else 93
    ensures FromDigit(c) != 0 ==> ToDigit(FromDigit(c)) == c
  {
  }

  function Encode(v: nat): (s: string)
    ensures s != ""
  {
    if v < 64 then [ToDigit(v)] else Encode(v / 64) + [ToDigit(v % 64)]
  }

  /** -1 when the guard stops the reading. */
  function Decode(s: string): (r: int)
    ensures -1 <= r
  {
    if s == "" then 0
    else
      var i, j := Decode(s[..|s| - 1]), FromDigit(s[|s| - 1]);
      if i < 0 || i > INT_MAX / 64 - j then -1 else 64 * i + j
  }

  // ------------------------------------------------------------- round trips

  lemma DigitBack(v: nat)
    requires v < 64
    ensures FromDigit(ToDigit(v)) == v
  {
  }

  /** The guard subtracts the digit before, not after, the shift, so that it stops some values below INT_MAX. */
  predicate Survives(v: nat) {
    v / 64 + v % 64 <= INT_MAX / 64
  }

  lemma DecodeSnoc(p: string, c: char)
    ensures var i, j := Decode(p), FromDigit(c);
            Decode(p + [c]) == if i < 0 || i > INT_MAX / 64 - j then -1 else 64 * i + j
  {
    assert (p + [c])[..|p + [c]| - 1] == p;
  }

  lemma QuotientSurvives(v: nat)
    requires v <= UINT_MAX
    ensures Survives(v / 64)
  {
    var q := v / 64;
    assert q <= 67108863;
    assert q / 64 <= 1048575;
  }

  /** Exactly these values come back; all others are read as -1. */
  lemma {:induction false} RoundTrip(v: nat)
    requires v <= UINT_MAX
    ensures Decode(Encode(v)) == if Survives(v) then v else -1
  {
    if v < 64 {
      DecodeSnoc("", ToDigit(v));
      assert "" + [ToDigit(v)] == Encode(v);
      DigitBack(v);
    } else {
      var q, r := v / 64, v % 64;
      RoundTrip(q);
      QuotientSurvives(v);
      DigitBack(r);
      DecodeSnoc(Encode(q), ToDigit(r));
    }
  }

  /** All values below the first casualty come back. */
  lemma FirstCasualty(v: nat)
    ensures v < 2147479679 ==> Survives(v)
    ensures !Survives(2147479679) && 2147479679 <= INT_MAX
  {
  }

  /** No text is read as more than INT_MAX, and no intermediate value is either. */
  lemma {:induction false} NeverTooLarge(s: string)
    ensures Decode(s) <= INT_MAX - 63
  {
    if s != "" { NeverTooLarge(s[..|s| - 1]); }
  }

  predicate IsDigit(c: char) {
    '0' <= c <= '9' || 'A' <= c <= 'Z' || 'a' <= c <= 'z' || c == '[' || c == ']'
  }

  /** What the encoder writes: digits without a leading zero. */
  predicate Canonical(s: string) {
    s != "" && (forall i :: 0 <= i < |s| ==> IsDigit(s[i])) && (s[0] == 'A' ==> |s| == 1)
  }

  lemma {:induction false} EncodeIsCanonical(v: nat)
    ensures Canonical(Encode(v)) && (Encode(v)[0] == 'A' ==> v == 0)
  {
    if v >= 64 { EncodeIsCanonical(v / 64); }
  }

  lemma {:induction false} PositiveStart(s: string)
    requires Canonical(s) && s[0] != 'A' && Decode(s) >= 0
    ensures Decode(s) > 0
  {
    if |s| > 1 {
      PositiveStart(s[..|s| - 1]);
    } else {
      assert s[..0] == "";
    }
  }

  lemma EncodeStep(d: nat, j: nat)
    requires d > 0 && j < 64
    ensures Encode(64 * d + j) == Encode(d) + [ToDigit(j)]
  {
    assert (64 * d + j) / 64 == d && (64 * d + j) % 64 == j;
  }

  lemma {:induction false} CanonicalBack(s: string)
    requires Canonical(s) && Decode(s) >= 0
    ensures Encode(Decode(s)) == s
  {
    var p, c := s[..|s| - 1], s[|s| - 1];
    assert s == p + [c];
    DecodeSnoc(p, c);
    assert ToDigit(FromDigit(c)) == c;
    if p != "" {
      CanonicalBack(p);
      PositiveStart(p);
      EncodeStep(Decode(p), FromDigit(c));
    }
  }

  /** A text that is read at all is written again as it was if and only if it is digits without a leading zero. */
  lemma {:induction false} TextBack(s: string)
    requires Decode(s) >= 0
    ensures Encode(Decode(s)) == s <==> Canonical(s)
  {
    EncodeIsCanonical(Decode(s));
    if Canonical(s) { CanonicalBack(s); }
  }

  // ------------------------------------------------------------- the code

  /** Fills the static buffer from its end; the text starts at the returned place. */
  method IntToBase64(val: nat, buf: array<char>) returns (start: nat)
    requires val <= UINT_MAX && buf.Length == 12
    modifies buf
    ensures start <= 10 && buf[11] == '\0' && buf[start..11] == Encode(val)
  {
    var i: nat := 11;
    buf[11] := '\0';
    if val == 0 {
      buf[10] := 'A';
      return 10;
    }
    var v: nat := val;
    SixDigits(val);
    while v != 0
      invariant v <= UINT_MAX && i <= 11 && buf[11] == '\0'
      invariant i == 11 ==> v == val
      invariant Capacity(v) + 11 - i <= 6
      invariant (if v == 0 then "" else Encode(v)) + buf[i..11] == Encode(val)
    {
      ghost var written := buf[i..11];
      ghost var digit := ToDigit(v % 64);
      CapacityFalls(v);
      i := i - 1;
      buf[i] := ToDigit(v % 64);
      assert buf[i..11] == [digit] + written;
      v := v / 64;
    }
    return i;
  }

  /** Digits still to come for a value of 32 bits. */
  function Capacity(v: nat): nat {
    if v == 0 then 0 else 1 + Capacity(v / 64)
  }

  lemma CapacityFalls(v: nat)
    requires v > 0
    ensures Capacity(v) == 1 + Capacity(v / 64)
  {
  }

  lemma SixDigits(v: nat)
    requires v <= UINT_MAX
    ensures Capacity(v) <= 6
  {
    var v1 := v / 64;
    var v2 := v1 / 64;
    var v3 := v2 / 64;
    var v4 := v3 / 64;
    var v5 := v4 / 64;
    assert v5 < 4 && v5 / 64 == 0;
    assert Capacity(v5 / 64) == 0;
    assert Capacity(v5) <= 1;
    assert Capacity(v4) <= 2;
    assert Capacity(v3) <= 3;
    assert Capacity(v2) <= 4;
    assert Capacity(v1) <= 5;
  }

  method Base64ToInt(s: string) returns (i: int)
    ensures i == Decode(s)
  {
    i := 0;
    var k := 0;
    while k < |s|
      invariant 0 <= k <= |s| && i == Decode(s[..k]) && i >= 0
    {
      var j := FromDigit(s[k]);
      assert s[..k + 1][..k] == s[..k];
      if i > INT_MAX / 64 - j {
        StaysLost(s, k + 1);
        return -1;
      }
      i := 64 * i + j;
      k := k + 1;
    }
    assert s[..k] == s;
  }

  lemma {:induction false} StaysLost(s: string, k: nat)
    requires k <= |s| && Decode(s[..k]) == -1
    ensures Decode(s) == -1
    decreases |s| - k
  {
    if k < |s| {
      assert s[..k + 1][..k] == s[..k];
      StaysLost(s, k + 1);
    } else {
      assert s[..k] == s;
    }
  }
}
