/** Address blocks: a prefix of an address and all addresses that share it. */
module Blocks {

  type Byte = b: int | 0 <= b < 256

  type Addr = seq<Byte>

  /** 2 to the power k, for the places of a byte. */
  function Pow(k: nat): (p: nat)
    ensures p > 0
  {
    if k == 0 then 1 else if k == 1 then 2 else if k == 2 then 4 else if k == 3 then 8
    else if k == 4 then 16 else if k == 5 then 32 else if k == 6 then 64 else if k == 7 then 128 else 256
  }

  /** Bit 0 is the most significant one. */
  predicate Bit(x: Byte, t: nat)
    requires t < 8
  {
    x / Pow(7 - t) % 2 == 1
  }

  predicate BitAt(a: Addr, i: nat)
    requires i < 8 * |a|
  {
    Bit(a[i / 8], i % 8)
  }

  /** The first `n` bits are the same. */
  ghost predicate Agree(a: Addr, b: Addr, n: nat)
    requires n <= 8 * |a| && n <= 8 * |b|
  {
    forall i: nat :: i < n ==> BitAt(a, i) == BitAt(b, i)
  }

  ghost predicate InBlock(x: Addr, base: Addr, n: nat)
    requires n <= 8 * |base|
  {
    |x| == |base| && Agree(x, base, n)
  }

  ghost predicate Contains(a: Addr, la: nat, b: Addr, lb: nat)
    requires la <= 8 * |a| && lb <= 8 * |b|
  {
    forall x :: InBlock(x, b, lb) ==> InBlock(x, a, la)
  }

  ghost predicate Overlap(a: Addr, la: nat, b: Addr, lb: nat)
    requires la <= 8 * |a| && lb <= 8 * |b|
  {
    exists x :: InBlock(x, a, la) && InBlock(x, b, lb)
  }

  // ------------------------------------------------------------- one byte

  /** `x & (0xFF << k)` of a byte: the low k bits are cleared. */
  function ClearLow(x: Byte, k: nat): nat
    requires k <= 8
  {
    x - x % Pow(k)
  }

  ghost predicate TopSame(x: Byte, y: Byte, r: nat)
    requires r <= 8
  {
    forall t: nat :: t < r ==> Bit(x, t) == Bit(y, t)
  }

  lemma ClearLowQuotient(x: Byte, y: Byte, k: nat)
    requires k <= 8
    ensures ClearLow(x, k) == ClearLow(y, k) <==> x / Pow(k) == y / Pow(k)
  {
    if k == 0 {} else if k == 1 {} else if k == 2 {} else if k == 3 {} else if k == 4 {}
    else if k == 5 {} else if k == 6 {} else if k == 7 {} else {}
  }

  lemma OneMoreBit(x: Byte, y: Byte, r: nat)
    requires r < 8
    ensures x / Pow(7 - r) == y / Pow(7 - r) <==> x / Pow(8 - r) == y / Pow(8 - r) && Bit(x, r) == Bit(y, r)
  {
    HalfQuotient(x, 7 - r);
    HalfQuotient(y, 7 - r);
  }

  lemma HalfQuotient(x: Byte, k: nat)
    requires k < 8
    ensures x / Pow(k + 1) == x / Pow(k) / 2
  {
    if k == 0 {} else if k == 1 {} else if k == 2 {} else if k == 3 {} else if k == 4 {}
    else if k == 5 {} else if k == 6 {} else {}
  }

  lemma {:induction false} QuotientSame(x: Byte, y: Byte, r: nat)
    requires r <= 8
    ensures x / Pow(8 - r) == y / Pow(8 - r) <==> TopSame(x, y, r)
  {
    if r > 0 {
      QuotientSame(x, y, r - 1);
      OneMoreBit(x, y, r - 1);
      assert TopSame(x, y, r) <==> TopSame(x, y, r - 1) && Bit(x, r - 1) == Bit(y, r - 1);
    }
  }

  /** Comparing under the mask compares the top bits. */
  lemma MaskedSame(x: Byte, y: Byte, r: nat)
    requires r <= 8
    ensures ClearLow(x, 8 - r) == ClearLow(y, 8 - r) <==> TopSame(x, y, r)
  {
    ClearLowQuotient(x, y, 8 - r);
    QuotientSame(x, y, r);
  }

  lemma ByteSame(x: Byte, y: Byte)
    ensures x == y <==> TopSame(x, y, 8)
  {
    MaskedSame(x, y, 8);
  }

  /** The byte with bit `t` turned over. */
  function FlipByte(x: Byte, t: nat): (r: Byte)
    requires t < 8
  {
    FlipInRange(x, t);
    if Bit(x, t) then x - Pow(7 - t) else x + Pow(7 - t)
  }

  lemma FlipInRange(x: Byte, t: nat)
    requires t < 8
    ensures 0 <= (if Bit(x, t) then x - Pow(7 - t) else x + Pow(7 - t)) < 256
  {
    if t == 0 { assert Pow(7 - t) == 128; } else if t == 1 { assert Pow(7 - t) == 64; }
    else if t == 2 { assert Pow(7 - t) == 32; } else if t == 3 { assert Pow(7 - t) == 16; }
    else if t == 4 { assert Pow(7 - t) == 8; } else if t == 5 { assert Pow(7 - t) == 4; }
    else if t == 6 { assert Pow(7 - t) == 2; } else { assert Pow(7 - t) == 1; }
  }

  lemma QuotientShifts(x: int, c: int, k: nat)
    requires k < 8
    ensures (x + c * Pow(k)) / Pow(k) == x / Pow(k) + c
  {
    if k == 0 { assert Pow(k) == 1; }
    else if k == 1 { assert Pow(k) == 2; assert (x + c * 2) / 2 == x / 2 + c; }
    else if k == 2 { assert Pow(k) == 4; assert (x + c * 4) / 4 == x / 4 + c; }
    else if k == 3 { assert Pow(k) == 8; assert (x + c * 8) / 8 == x / 8 + c; }
    else if k == 4 { assert Pow(k) == 16; assert (x + c * 16) / 16 == x / 16 + c; }
    else if k == 5 { assert Pow(k) == 32; assert (x + c * 32) / 32 == x / 32 + c; }
    else if k == 6 { assert Pow(k) == 64; assert (x + c * 64) / 64 == x / 64 + c; }
    else { assert Pow(k) == 128; assert (x + c * 128) / 128 == x / 128 + c; }
  }

  lemma FlipKeepsAbove(x: Byte, t: nat)
    requires t < 8
    ensures FlipByte(x, t) / Pow(8 - t) == x / Pow(8 - t) && Bit(FlipByte(x, t), t) == !Bit(x, t)
  {
    QuotientShifts(x, if Bit(x, t) then -1 else 1, 7 - t);
    HalfQuotient(x, 7 - t);
    HalfQuotient(FlipByte(x, t), 7 - t);
  }

  lemma EvenRatio(t: nat, u: nat) returns (k: nat)
    requires t < u < 8
    ensures Pow(7 - t) == 2 * k * Pow(7 - u)
  {
    k := Pow(u - t - 1);
    if u == t + 1 {} else if u == t + 2 {} else if u == t + 3 {} else if u == t + 4 {}
    else if u == t + 5 {} else if u == t + 6 {} else {}
  }

  lemma EvenStepKeepsBit(x: Byte, y: Byte, u: nat, k: nat)
    requires u < 8 && y == x + 2 * k * Pow(7 - u)
    ensures Bit(y, u) == Bit(x, u)
  {
    QuotientShifts(x, 2 * k, 7 - u);
    var q := x / Pow(7 - u);
    assert (q + 2 * k) % 2 == q % 2;
  }

  lemma FlippedByte(x: Byte, t: nat, u: nat)
    requires t < 8 && u < 8
    ensures Bit(FlipByte(x, t), u) == if u == t then !Bit(x, u) else Bit(x, u)
  {
    var y := FlipByte(x, t);
    FlipKeepsAbove(x, t);
    if u < t {
      QuotientSame(x, y, t);
    } else if u > t {
      var k := EvenRatio(t, u);
      if Bit(x, t) { EvenStepKeepsBit(y, x, u, k); } else { EvenStepKeepsBit(x, y, u, k); }
    }
  }

  // ------------------------------------------------------------- whole addresses

  /** Agreeing on bits is agreeing byte by byte. */
  lemma AgreeBytes(a: Addr, b: Addr, n: nat)
    requires |a| == |b| && n <= 8 * |a|
    ensures Agree(a, b, n) <==>
            (forall k :: 0 <= k < n / 8 ==> a[k] == b[k]) && (n % 8 != 0 ==> TopSame(a[n / 8], b[n / 8], n % 8))
  {
    if Agree(a, b, n) {
      forall k | 0 <= k < n / 8 ensures a[k] == b[k] { AgreeByte(a, b, n, k, 8); ByteSame(a[k], b[k]); }
      if n % 8 != 0 { AgreeByte(a, b, n, n / 8, n % 8); }
    }
    if (forall k :: 0 <= k < n / 8 ==> a[k] == b[k]) && (n % 8 != 0 ==> TopSame(a[n / 8], b[n / 8], n % 8)) {
      forall i: nat | i < n ensures BitAt(a, i) == BitAt(b, i) {
        if i / 8 < n / 8 {
          assert a[i / 8] == b[i / 8];
        } else {
          assert i / 8 == n / 8 && i % 8 < n % 8;
          assert Bit(a[i / 8], i % 8) == Bit(b[i / 8], i % 8);
        }
      }
    }
  }

  lemma AgreeByte(a: Addr, b: Addr, n: nat, k: nat, r: nat)
    requires |a| == |b| && n <= 8 * |a| && k < |a| && r <= 8 && 8 * k + r <= n && Agree(a, b, n)
    ensures TopSame(a[k], b[k], r)
  {
    forall t: nat | t < r ensures Bit(a[k], t) == Bit(b[k], t) {
      var i := 8 * k + t;
      assert i / 8 == k && i % 8 == t;
      assert BitAt(a, i) == BitAt(b, i);
    }
  }

  /** The address with bit `k` turned over. */
  function Flip(a: Addr, k: nat): (r: Addr)
    requires k < 8 * |a|
    ensures |r| == |a|
  {
    a[k / 8 := FlipByte(a[k / 8], k % 8)]
  }

  lemma SamePlace(i: nat, k: nat)
    ensures i == k <==> i / 8 == k / 8 && i % 8 == k % 8
  {
  }

  lemma FlipChanges(a: Addr, k: nat, i: nat)
    requires k < 8 * |a| && i < 8 * |a|
    ensures BitAt(Flip(a, k), i) == if i == k then !BitAt(a, i) else BitAt(a, i)
  {
    SamePlace(i, k);
    if i / 8 == k / 8 {
      FlippedByte(a[k / 8], k % 8, i % 8);
    } else {
      assert Flip(a, k)[i / 8] == a[i / 8];
    }
  }

  lemma AgreeSymmetric(a: Addr, b: Addr, n: nat)
    requires n <= 8 * |a| && n <= 8 * |b| && Agree(a, b, n)
    ensures Agree(b, a, n)
  {
    forall i: nat | i < n ensures BitAt(b, i) == BitAt(a, i) { assert BitAt(a, i) == BitAt(b, i); }
  }

  /** Turning over the first bit behind a block's prefix stays in the block and leaves every
      narrower block around the address. */
  lemma FlipStays(b: Addr, k: nat)
    requires k < 8 * |b|
    ensures InBlock(Flip(b, k), b, k)
    ensures BitAt(Flip(b, k), k) != BitAt(b, k)
  {
    forall i: nat | i < k ensures BitAt(Flip(b, k), i) == BitAt(b, i) { FlipChanges(b, k, i); }
    FlipChanges(b, k, k);
  }

  lemma NarrowerLacks(a: Addr, la: nat, b: Addr, lb: nat)
    requires la <= 8 * |a| && lb < la && |a| == |b| && Agree(b, a, la)
    ensures !Contains(a, la, b, lb)
  {
    FlipStays(b, lb);
    assert BitAt(b, lb) == BitAt(a, lb);
    assert !InBlock(Flip(b, lb), a, la);
  }

  lemma WiderContains(a: Addr, la: nat, b: Addr, lb: nat)
    requires lb <= 8 * |b| && la <= lb && |a| == |b| && Agree(a, b, la)
    ensures Contains(a, la, b, lb)
  {
    forall x | InBlock(x, b, lb) ensures InBlock(x, a, la) {
      forall i: nat | i < la ensures BitAt(x, i) == BitAt(a, i) {
        assert BitAt(x, i) == BitAt(b, i) && BitAt(a, i) == BitAt(b, i);
      }
    }
  }

  /** One block holds another exactly when its prefix is no longer and is the other's prefix. */
  lemma ContainsIff(a: Addr, la: nat, b: Addr, lb: nat)
    requires la <= 8 * |a| && lb <= 8 * |b|
    ensures Contains(a, la, b, lb) <==> |a| == |b| && la <= lb && Agree(a, b, la)
  {
    if Contains(a, la, b, lb) {
      assert InBlock(b, b, lb);
      AgreeSymmetric(b, a, la);
      if la > lb { NarrowerLacks(a, la, b, lb); }
    }
    if |a| == |b| && la <= lb && Agree(a, b, la) { WiderContains(a, la, b, lb); }
  }

  /** Two blocks meet exactly when the shorter prefix is also the other's. */
  lemma OverlapIff(a: Addr, la: nat, b: Addr, lb: nat)
    requires la <= 8 * |a| && lb <= 8 * |b|
    ensures Overlap(a, la, b, lb) <==> |a| == |b| && Agree(a, b, if la <= lb then la else lb)
  {
    if x :| InBlock(x, a, la) && InBlock(x, b, lb) {
      forall i: nat | i < la && i < lb ensures BitAt(a, i) == BitAt(b, i) {
        assert BitAt(x, i) == BitAt(a, i) && BitAt(x, i) == BitAt(b, i);
      }
    }
    if |a| == |b| && Agree(a, b, if la <= lb then la else lb) {
      var x := if la <= lb then b else a;
      assert InBlock(x, a, la) by {
        forall i: nat | i < la ensures BitAt(x, i) == BitAt(a, i) { assert BitAt(a, i) == BitAt(b, i) || x == a; }
      }
      assert InBlock(x, b, lb);
    }
  }

  // ------------------------------------------------------------- the comparison

  /** memcmp of the whole bytes, then the rest of the prefix under a mask. */
  predicate CompWithMask(addr: Addr, dest: Addr, mask: nat)
    requires |addr| == |dest| && mask <= 8 * |addr|
  {
    if addr[..mask / 8] != dest[..mask / 8] then false
    else if mask % 8 == 0 then true
    else
      ClearLow(addr[mask / 8], 8 - mask % 8) == ClearLow(dest[mask / 8], 8 - mask % 8)
  }

  lemma ComparesPrefix(addr: Addr, dest: Addr, mask: nat)
    requires |addr| == |dest| && mask <= 8 * |addr|
    ensures CompWithMask(addr, dest, mask) <==> Agree(addr, dest, mask)
  {
    AgreeBytes(addr, dest, mask);
    var k := mask / 8;
    assert addr[..k] == dest[..k] <==> forall i :: 0 <= i < k ==> addr[i] == dest[i] by {
      if addr[..k] == dest[..k] {
        forall i | 0 <= i < k ensures addr[i] == dest[i] { assert addr[..k][i] == dest[..k][i]; }
      }
    }
    if mask % 8 != 0 {
      MaskedSame(addr[k], dest[k], mask % 8);
    }
  }
}
