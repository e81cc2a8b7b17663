/** What the two mask comparisons answer, told from the texts: copies in upper case, cut at the last `@`
    and at the number behind a slash. */
module MaskAnswers {
  import opened Wrappers
  import opened Matching
  import opened Blocks
  import opened HostMasks

  /** The first 323 characters, with 'a' to '~' moved 32 places down. */
  ghost predicate Copied(m: string, c: string) {
    && |c| == (if |m| < 323 then |m| else 323)
    && forall i :: 0 <= i < |c| ==> c[i] == if 'a' <= m[i] <= '~' then (m[i] as int - 32) as char else m[i]
  }

  /** The text is cut at its last `@`. */
  ghost predicate Parted(c: string, left: string, host: string) {
    c == left + "@" + host && '@' !in host
  }

  /** The host is `a`, a slash, and the digits `d`. */
  ghost predicate Numbered(h: string, a: string, d: string) {
    h == a + "/" + d && d != "" && forall i :: 0 <= i < |d| ==> '0' <= d[i] <= '9'
  }

  /** Neither text is empty and the whole pattern matches, up to a line end. */
  ghost predicate Meets(p: string, s: string) {
    p != "" && s != "" && MatchesLine(p, s, false)
  }

  ghost predicate AnyNumber(h: string) {
    exists a, d :: Numbered(h, a, d)
  }

  /** The host `s` has a number, no smaller than `count`, and the same first bits as `a`. */
  ghost predicate Holds(pton: Pton, a: string, count: int, s: string)
    requires Sane(pton)
  {
    exists b, e :: Numbered(s, b, e) && count <= Atoi(e) && SamePrefix(pton, a, b, Compared(count))
  }

  /** The answer `v` for a host with a number, address `a` and number `count`. */
  ghost predicate BlockAnswer(pton: Pton, a: string, count: int, s: string, cmp: bool, v: int)
    requires Sane(pton)
  {
    && v == (if count < 1 then 1 else count)
    && if cmp && AnyNumber(s) then Holds(pton, a, count, s) else SamePrefix(pton, a, s, Compared(count))
  }

  /** The answer `v` of comparing the hosts, 0 for no match. */
  ghost predicate HostAnswer(pton: Pton, r: string, s: string, cmp: bool, v: int)
    requires Sane(pton)
  {
    || (v == 1 && !AnyNumber(r) && Meets(r, s))
    || (exists a, d :: Numbered(r, a, d) && BlockAnswer(pton, a, Atoi(d), s, cmp, v))
  }

  /** The answer `v` for masks cut at their last `@`. */
  ghost predicate PartsAnswer(pton: Pton, ml: string, mh: string, nl: string, nh: string, cmp: bool, v: int)
    requires Sane(pton)
  {
    Meets(ml, nl) && if mh == "" && nh == "" then v == 1 else HostAnswer(pton, mh, nh, cmp, v - 1)
  }

  /** The answer `v` of `addr_match` for two copies. */
  ghost predicate AddrAnswer(pton: Pton, m: string, n: string, user: bool, cmp: bool, cidrSupport: bool, v: int)
    requires Sane(pton)
  {
    if (!user && !cidrSupport) || '@' !in m || '@' !in n then v == 1 && Meets(m, n)
    else exists ml, mh, nl, nh :: Parted(m, ml, mh) && Parted(n, nl, nh) && PartsAnswer(pton, ml, mh, nl, nh, cmp, v)
  }

  /** The host without what follows its last slash, and the number read there. */
  ghost predicate Slashed(h: string, a: string, count: int) {
    exists t :: h == a + "/" + t && '/' !in t && count == Atoi(t)
  }

  /** The address in a host and the length it comes with, its whole width when there is no slash. */
  ghost predicate Reach(h: string, a: string, count: int) {
    if '/' in h then Slashed(h, a, count) else a == h && count == if ':' in h then 128 else 32
  }

  /** The smaller length; a host without a slash does not make it smaller. */
  ghost predicate Shorter(s: string, i: int, j: int, count: int) {
    count == if '/' in s && j < i then j else i
  }

  /** The answer `v` of comparing two hosts both ways. */
  ghost predicate BothAnswer(pton: Pton, r: string, s: string, v: int)
    requires Sane(pton)
  {
    if !AnyNumber(r) && !AnyNumber(s) then v == 1 && (Meets(r, s) || Meets(s, r))
    else exists a, b, i, j, count :: Reach(r, a, i) && Reach(s, b, j) && Shorter(s, i, j, count)
           && SamePrefix(pton, a, b, Compared(count)) && v == if count < 1 then 1 else count
  }

  /** The answer `v` both ways for masks cut at their last `@`. */
  ghost predicate BothPartsAnswer(pton: Pton, ml: string, mh: string, nl: string, nh: string, v: int)
    requires Sane(pton)
  {
    (Meets(ml, nl) || Meets(nl, ml)) && if mh == "" && nh == "" then v == 1 else BothAnswer(pton, mh, nh, v)
  }

  /** The answer `v` of `mask_match` for two copies. */
  ghost predicate OverlapAnswer(pton: Pton, m: string, n: string, cidrSupport: bool, v: int)
    requires Sane(pton)
  {
    if !cidrSupport || '@' !in m || '@' !in n then v == 1 && (Meets(m, n) || Meets(n, m))
    else exists ml, mh, nl, nh :: Parted(m, ml, mh) && Parted(n, nl, nh) && BothPartsAnswer(pton, ml, mh, nl, nh, v)
  }

  // ------------------------------------------------------------- cutting

  lemma CopyIs(m: string, c: string)
    ensures Copied(m, c) <==> c == Prepared(m)
  {
    var p := Prepared(m);
    forall i | 0 <= i < |p| ensures p[i] == if 'a' <= m[i] <= '~' then (m[i] as int - 32) as char else m[i] {
      assert p[i] == ToUpper(m[i]);
    }
    if Copied(m, c) { assert c == p; }
  }

  lemma LastAt(s: string, c: char, a: string, b: string)
    requires s == a + [c] + b && c !in b
    ensures LastOf(s, c) == |a| && s[..|a|] == a && s[|a| + 1..] == b
  {
    assert s[|a|] == c;
    assert s[|a| + 1..] == b;
    assert forall i :: |a| < i < |s| ==> s[i] == b[i - |a| - 1];
  }

  lemma CutAt(s: string, k: nat)
    requires k < |s|
    ensures s == s[..k] + [s[k]] + s[k + 1..]
  {
  }

  /** Cutting at the last place gives two parts, and there are no others. */
  lemma PartedIs(whole: string, left: string, host: string)
    ensures Parted(whole, left, host) <==>
              var at := LastOf(whole, '@'); at >= 0 && left == whole[..at] && host == whole[at + 1..]
    ensures LastOf(whole, '@') >= 0 <==> '@' in whole
  {
    var at := LastOf(whole, '@');
    if Parted(whole, left, host) { LastAt(whole, '@', left, host); }
    if at >= 0 { CutAt(whole, at); }
  }

  lemma PartsAre(m: string, left: string, host: string)
    ensures Parted(Prepared(m), left, host) <==> PartsOf(m).found && left == PartsOf(m).left && host == PartsOf(m).host
    ensures PartsOf(m).found <==> '@' in Prepared(m)
  {
    PartedIs(Prepared(m), left, host);
  }

  lemma NumberIs(h: string, a: string, d: string)
    ensures Numbered(h, a, d) <==> HasPrefix(h) && a == Before(h) && d == h[Slash(h) + 1..]
  {
    if Numbered(h, a, d) {
      LastAt(h, '/', a, d);
      forall i | 0 <= i < |d| ensures Digit(d[i]) { }
    }
    if HasPrefix(h) {
      var k := Slash(h);
      assert h == h[..k] + "/" + h[k + 1..];
      var t := h[k + 1..];
      forall i | 0 <= i < |t| ensures '0' <= t[i] <= '9' { assert Digit(t[i]); }
    }
  }

  lemma AnyNumberIs(h: string)
    ensures AnyNumber(h) <==> HasPrefix(h)
  {
    if a, d :| Numbered(h, a, d) { NumberIs(h, a, d); }
    if HasPrefix(h) { NumberIs(h, Before(h), h[Slash(h) + 1..]); }
  }

  /** A part of a copy is never cut by the translator. */
  lemma MeetsWild(p: string, s: string)
    requires |p| <= 323
    ensures Wild(p, s) <==> Meets(p, s)
  {
    HostMaskFits(p);
  }

  // ------------------------------------------------------------- the hosts

  lemma CidrAnswer(pton: Pton, m: string, n: string, count: int, v: int)
    requires Sane(pton) && v > 0
    ensures CidrMatch(pton, m, n, count) == v <==> SamePrefix(pton, m, n, Compared(count)) && v == if count < 1 then 1 else count
  {
    CidrMatchIff(pton, m, n, count);
  }

  lemma HoldsIs(pton: Pton, a: string, count: int, s: string)
    requires Sane(pton) && HasPrefix(s)
    ensures Holds(pton, a, count, s) <==> count <= PrefixOf(s) && SamePrefix(pton, a, Before(s), Compared(count))
  {
    NumberIs(s, Before(s), s[Slash(s) + 1..]);
    if Holds(pton, a, count, s) {
      var b, e :| Numbered(s, b, e) && count <= Atoi(e) && SamePrefix(pton, a, b, Compared(count));
      NumberIs(s, b, e);
    }
  }

  lemma BlockAnswers(pton: Pton, r: string, s: string, cmp: bool, v: int)
    requires Sane(pton) && v > 0 && HasPrefix(r)
    ensures HostScore(pton, r, s, cmp) == v <==> BlockAnswer(pton, Before(r), PrefixOf(r), s, cmp, v)
  {
    AnyNumberIs(s);
    if cmp && HasPrefix(s) {
      HoldsIs(pton, Before(r), PrefixOf(r), s);
      CidrAnswer(pton, Before(r), Before(s), PrefixOf(r), v);
    } else {
      CidrAnswer(pton, Before(r), s, PrefixOf(r), v);
    }
  }

  lemma NumberedHost(pton: Pton, r: string, s: string, cmp: bool, v: int)
    requires Sane(pton) && v > 0 && HasPrefix(r)
    ensures HostScore(pton, r, s, cmp) == v <==> HostAnswer(pton, r, s, cmp, v)
  {
    NumberIs(r, Before(r), r[Slash(r) + 1..]);
    AnyNumberIs(r);
    BlockAnswers(pton, r, s, cmp, v);
    if HostAnswer(pton, r, s, cmp, v) {
      var a, d :| Numbered(r, a, d) && BlockAnswer(pton, a, Atoi(d), s, cmp, v);
      NumberIs(r, a, d);
    }
  }

  lemma HostAnswers(pton: Pton, r: string, s: string, cmp: bool, v: int)
    requires Sane(pton) && v > 0 && |r| <= 323
    ensures HostScore(pton, r, s, cmp) == v <==> HostAnswer(pton, r, s, cmp, v)
  {
    if HasPrefix(r) {
      NumberedHost(pton, r, s, cmp, v);
    } else {
      MeetsWild(r, s);
      AnyNumberIs(r);
      forall a, d ensures !Numbered(r, a, d) { NumberIs(r, a, d); }
    }
  }

  lemma HostScoreSign(pton: Pton, r: string, s: string, cmp: bool)
    requires Sane(pton)
    ensures HostScore(pton, r, s, cmp) >= 0
  {
  }

  lemma ReachIs(h: string, a: string, count: int)
    ensures Reach(h, a, count) <==>
              a == Before(h) && count == if Slash(h) >= 0 then PrefixOf(h) else Width(':' in h)
  {
    var k := Slash(h);
    if k >= 0 {
      assert h[k] == '/' && h == h[..k] + "/" + h[k + 1..];
      if Slashed(h, a, count) {
        var t :| h == a + "/" + t && '/' !in t && count == Atoi(t);
        LastAt(h, '/', a, t);
      }
    }
  }

  function LengthOf(h: string): int {
    if Slash(h) >= 0 then PrefixOf(h) else Width(':' in h)
  }

  lemma ReachHere(h: string)
    ensures Reach(h, Before(h), LengthOf(h))
  {
    ReachIs(h, Before(h), LengthOf(h));
  }

  lemma ShorterIs(r: string, s: string, count: int)
    ensures Shorter(s, LengthOf(r), LengthOf(s), count) <==> count == MaskPrefix(r, s)
  {
    assert '/' in s <==> Slash(s) >= 0;
  }

  lemma BothTold(pton: Pton, r: string, s: string, v: int)
    requires Sane(pton) && (AnyNumber(r) || AnyNumber(s)) && BothAnswer(pton, r, s, v)
    ensures SamePrefix(pton, Before(r), Before(s), Compared(MaskPrefix(r, s)))
    ensures v == if MaskPrefix(r, s) < 1 then 1 else MaskPrefix(r, s)
  {
    var a, b, i, j, count :| Reach(r, a, i) && Reach(s, b, j) && Shorter(s, i, j, count)
      && SamePrefix(pton, a, b, Compared(count)) && v == if count < 1 then 1 else count;
    ReachIs(r, a, i);
    ReachIs(s, b, j);
    ShorterIs(r, s, count);
  }

  lemma BothMeant(pton: Pton, r: string, s: string)
    requires Sane(pton) && (AnyNumber(r) || AnyNumber(s))
    requires SamePrefix(pton, Before(r), Before(s), Compared(MaskPrefix(r, s)))
    ensures BothAnswer(pton, r, s, if MaskPrefix(r, s) < 1 then 1 else MaskPrefix(r, s))
  {
    ReachHere(r);
    ReachHere(s);
    ShorterIs(r, s, MaskPrefix(r, s));
  }

  lemma BothAnswers(pton: Pton, r: string, s: string, v: int)
    requires Sane(pton) && v > 0 && |r| <= 323 && |s| <= 323
    ensures MaskScore(pton, r, s) == v <==> BothAnswer(pton, r, s, v)
  {
    AnyNumberIs(r);
    AnyNumberIs(s);
    if HasPrefix(r) || HasPrefix(s) {
      CidrAnswer(pton, Before(r), Before(s), MaskPrefix(r, s), v);
      if BothAnswer(pton, r, s, v) { BothTold(pton, r, s, v); }
      if MaskScore(pton, r, s) == v { BothMeant(pton, r, s); }
    } else {
      MeetsWild(r, s);
      MeetsWild(s, r);
    }
  }

  /** For two masks with numbers compared as masks, some answer is positive exactly when the first block
      holds the second; for an address, exactly when it lies in the block. */
  lemma AcceptedBlocks(pton: Pton, r: string, s: string, cmp: bool)
    requires Sane(pton) && CidrMask(pton, r) && |r| <= 323
    ensures cmp && CidrMask(pton, s) ==>
              ((exists v :: v > 0 && HostAnswer(pton, r, s, cmp, v))
               <==> Contains(Base(pton, r), Length(pton, r), Base(pton, s), Length(pton, s)))
    ensures PlainAddress(pton, s) ==>
              ((exists v :: v > 0 && HostAnswer(pton, r, s, cmp, v)) <==> InBlock(Base(pton, s), Base(pton, r), Length(pton, r)))
  {
    var h := HostScore(pton, r, s, cmp);
    HostScoreSign(pton, r, s, cmp);
    if cmp && CidrMask(pton, s) { AddrMatchIsContainment(pton, r, s); }
    if PlainAddress(pton, s) { AddrMatchIsMembership(pton, r, s, cmp); }
    if h > 0 { HostAnswers(pton, r, s, cmp, h); }
    if v :| v > 0 && HostAnswer(pton, r, s, cmp, v) { HostAnswers(pton, r, s, cmp, v); }
  }

  // ------------------------------------------------------------- the masks

  /** The two parts of a mask with an `@`, as the code has them. */
  lemma TheParts(m: string)
    requires PartsOf(m).found
    ensures '@' in Prepared(m) && Parted(Prepared(m), PartsOf(m).left, PartsOf(m).host)
    ensures |PartsOf(m).left| <= 323 && |PartsOf(m).host| <= 323
  {
    PartsAre(m, PartsOf(m).left, PartsOf(m).host);
  }

  lemma PartsScore(pton: Pton, p: Mask, q: Mask, user: bool, cmp: bool, cidrSupport: bool, v: int)
    requires Sane(pton) && v > 0 && p.found && q.found && (user || cidrSupport) && |p.left| <= 323 && |p.host| <= 323
    ensures AddrScore(pton, p, q, user, cmp, cidrSupport) == v <==> PartsAnswer(pton, p.left, p.host, q.left, q.host, cmp, v)
  {
    MeetsWild(p.left, q.left);
    HostScoreSign(pton, p.host, q.host, cmp);
    if v > 1 { HostAnswers(pton, p.host, q.host, cmp, v - 1); }
  }

  lemma AddrOfParts(pton: Pton, m: string, n: string, user: bool, cmp: bool, cidrSupport: bool, v: int)
    requires Sane(pton) && PartsOf(m).found && PartsOf(n).found && (user || cidrSupport)
    ensures AddrAnswer(pton, Prepared(m), Prepared(n), user, cmp, cidrSupport, v)
            <==> PartsAnswer(pton, PartsOf(m).left, PartsOf(m).host, PartsOf(n).left, PartsOf(n).host, cmp, v)
  {
    TheParts(m);
    TheParts(n);
    if AddrAnswer(pton, Prepared(m), Prepared(n), user, cmp, cidrSupport, v) {
      var ml, mh, nl, nh :| Parted(Prepared(m), ml, mh) && Parted(Prepared(n), nl, nh) && PartsAnswer(pton, ml, mh, nl, nh, cmp, v);
      PartsAre(m, ml, mh);
      PartsAre(n, nl, nh);
    }
  }

  lemma AddrOfWhole(pton: Pton, m: string, n: string, user: bool, cmp: bool, cidrSupport: bool, v: int)
    requires Sane(pton) && v > 0 && !((user || cidrSupport) && PartsOf(m).found && PartsOf(n).found)
    ensures AddrScore(pton, PartsOf(m), PartsOf(n), user, cmp, cidrSupport) == v
            <==> AddrAnswer(pton, Prepared(m), Prepared(n), user, cmp, cidrSupport, v)
  {
    PartsAre(m, "", "");
    PartsAre(n, "", "");
    MeetsWild(PartsOf(m).whole, PartsOf(n).whole);
  }

  lemma AddrAnswers(pton: Pton, m: string, n: string, user: bool, cmp: bool, cidrSupport: bool, v: int)
    requires Sane(pton) && v > 0
    ensures AddrScore(pton, PartsOf(m), PartsOf(n), user, cmp, cidrSupport) == v
            <==> AddrAnswer(pton, Prepared(m), Prepared(n), user, cmp, cidrSupport, v)
  {
    if (user || cidrSupport) && PartsOf(m).found && PartsOf(n).found {
      TheParts(m);
      AddrOfParts(pton, m, n, user, cmp, cidrSupport, v);
      PartsScore(pton, PartsOf(m), PartsOf(n), user, cmp, cidrSupport, v);
    } else {
      AddrOfWhole(pton, m, n, user, cmp, cidrSupport, v);
    }
  }

  lemma BothPartsScore(pton: Pton, p: Mask, q: Mask, cidrSupport: bool, v: int)
    requires Sane(pton) && v > 0 && cidrSupport && p.found && q.found
    requires |p.left| <= 323 && |p.host| <= 323 && |q.left| <= 323 && |q.host| <= 323
    ensures OverlapScore(pton, p, q, cidrSupport) == v <==> BothPartsAnswer(pton, p.left, p.host, q.left, q.host, v)
  {
    MeetsWild(p.left, q.left);
    MeetsWild(q.left, p.left);
    BothAnswers(pton, p.host, q.host, v);
  }

  lemma OverlapOfParts(pton: Pton, m: string, n: string, cidrSupport: bool, v: int)
    requires Sane(pton) && PartsOf(m).found && PartsOf(n).found && cidrSupport
    ensures OverlapAnswer(pton, Prepared(m), Prepared(n), cidrSupport, v)
            <==> BothPartsAnswer(pton, PartsOf(m).left, PartsOf(m).host, PartsOf(n).left, PartsOf(n).host, v)
  {
    TheParts(m);
    TheParts(n);
    if OverlapAnswer(pton, Prepared(m), Prepared(n), cidrSupport, v) {
      var ml, mh, nl, nh :| Parted(Prepared(m), ml, mh) && Parted(Prepared(n), nl, nh) && BothPartsAnswer(pton, ml, mh, nl, nh, v);
      PartsAre(m, ml, mh);
      PartsAre(n, nl, nh);
    }
  }

  lemma OverlapOfWhole(pton: Pton, m: string, n: string, cidrSupport: bool, v: int)
    requires Sane(pton) && v > 0 && !(cidrSupport && PartsOf(m).found && PartsOf(n).found)
    ensures OverlapScore(pton, PartsOf(m), PartsOf(n), cidrSupport) == v
            <==> OverlapAnswer(pton, Prepared(m), Prepared(n), cidrSupport, v)
  {
    PartsAre(m, "", "");
    PartsAre(n, "", "");
    MeetsWild(PartsOf(m).whole, PartsOf(n).whole);
    MeetsWild(PartsOf(n).whole, PartsOf(m).whole);
  }

  lemma OverlapAnswers(pton: Pton, m: string, n: string, cidrSupport: bool, v: int)
    requires Sane(pton) && v > 0
    ensures OverlapScore(pton, PartsOf(m), PartsOf(n), cidrSupport) == v
            <==> OverlapAnswer(pton, Prepared(m), Prepared(n), cidrSupport, v)
  {
    if cidrSupport && PartsOf(m).found && PartsOf(n).found {
      TheParts(m);
      TheParts(n);
      OverlapOfParts(pton, m, n, cidrSupport, v);
      BothPartsScore(pton, PartsOf(m), PartsOf(n), cidrSupport, v);
    } else {
      OverlapOfWhole(pton, m, n, cidrSupport, v);
    }
  }

  // ------------------------------------------------------------- numbers of up to three digits

  lemma {:induction false} ValueSnoc(d: string, c: char)
    requires forall i :: 0 <= i < |d| ==> Digit(d[i])
    requires Digit(c)
    ensures Value(d + [c]) == 10 * Value(d) + (c as int - '0' as int)
  {
    assert (d + [c])[..|d|] == d;
  }

  /** The numbers an address has bits for are read as they are written. */
  lemma ShortNumbers(a: char, b: char, c: char)
    requires Digit(a) && Digit(b) && Digit(c)
    ensures Atoi([a]) == a as int - 48
    ensures Atoi([a, b]) == 10 * (a as int - 48) + (b as int - 48)
    ensures Atoi([a, b, c]) == 100 * (a as int - 48) + 10 * (b as int - 48) + (c as int - 48)
  {
    assert [] + [a] == [a] && [a] + [b] == [a, b] && [a, b] + [c] == [a, b, c];
    ValueSnoc([], a);
    ValueSnoc([a], b);
    ValueSnoc([a, b], c);
    AtoiOfDigits([a]);
    AtoiOfDigits([a, b]);
    AtoiOfDigits([a, b, c]);
  }

  /** A text that starts with neither a blank, a sign nor a digit is read as 0. */
  lemma NoNumber(t: string)
    requires t == "" || !(t[0] in " +-" || 9 <= t[0] as int <= 13 || '0' <= t[0] <= '9')
    ensures Atoi(t) == 0
  {
  }
}
