/** `addr_match` and `mask_match`: the code, and its answers told from the two texts alone. */
module MaskCode {
  import opened Wrappers
  import opened Matching
  import opened HostMasks
  import opened MaskAnswers

  /** Copies in upper case as far as the buffer goes and notes the last `@`. */
  method CopyUpper(m: string, buf: array<char>) returns (len: nat, at: int)
    requires buf.Length == UHOSTLEN
    modifies buf
    ensures len == |Prepared(m)| < UHOSTLEN && buf[..len] == Prepared(m) && at == LastOf(Prepared(m), '@')
  {
    ghost var kept := if |m| <= UHOSTLEN - 1 then m else m[..UHOSTLEN - 1];
    var p := 0;
    at := -1;
    while p < |m| && p < UHOSTLEN - 1
      invariant 0 <= p <= |kept|
      invariant forall i :: 0 <= i < p ==> buf[i] == ToUpper(m[i])
      invariant -1 <= at < p && (at >= 0 ==> m[at] == '@') && forall i :: at < i < p ==> m[i] != '@'
    {
      if m[p] == '@' {
        at := p;
      }
      buf[p] := ToUpper(m[p]);
      p := p + 1;
    }
    len := p;
    assert buf[..len] == Prepared(m);
    LastIs(Prepared(m), '@', at);
  }

  lemma LastIs(s: string, c: char, k: int)
    requires -1 <= k < |s| && (k >= 0 ==> s[k] == c) && forall i :: k < i < |s| ==> s[i] != c
    ensures LastOf(s, c) == k
  {
  }

  method Split(m: string) returns (p: Mask)
    ensures p == PartsOf(m)
  {
    var buf := new char[UHOSTLEN];
    var len, at := CopyUpper(m, buf);
    var whole := buf[..len];
    if at < 0 {
      return Mask(whole, false, "", "");
    }
    return Mask(whole, true, whole[..at], whole[at + 1..]);
  }

  method CompareHosts(pton: Pton, r: string, s: string, cmp: bool) returns (score: int)
    requires Sane(pton) && '\0' !in r
    ensures score == HostScore(pton, r, s, cmp)
  {
    var p := LastOf(r, '/');
    if p < 0 || !IsDigits(r[p + 1..]) {
      score := WildMatch(r, s);
      return;
    }
    var host := s;
    var q := LastOf(s, '/');
    if cmp && q >= 0 && IsDigits(s[q + 1..]) {
      if Atoi(r[p + 1..]) > Atoi(s[q + 1..]) {
        return 0;
      }
      host := s[..q];
    }
    return CidrMatch(pton, r[..p], host, Atoi(r[p + 1..]));
  }

  method AddrMatch(pton: Pton, m: string, n: string, user: bool, cmp: bool, cidrSupport: bool) returns (score: int)
    requires Sane(pton) && '\0' !in m
    ensures score == AddrScore(pton, PartsOf(m), PartsOf(n), user, cmp, cidrSupport)
    ensures score >= 0
    ensures forall a, b, v :: Copied(m, a) && Copied(n, b) && v > 0 ==>
              (score == v <==> AddrAnswer(pton, a, b, user, cmp, cidrSupport, v))
  {
    AddrTold(pton, m, n, user, cmp, cidrSupport);
    var mu := Split(m);
    var nu := Split(n);
    PartsClean(m);
    if (!user && !cidrSupport) || !mu.found || !nu.found {
      score := WildMatch(mu.whole, nu.whole);
      return;
    }
    score := AddrParts(pton, mu, nu, user, cmp, cidrSupport);
  }

  /** The part of `addr_match` after both masks were found to have an `@`. */
  method AddrParts(pton: Pton, mu: Mask, nu: Mask, user: bool, cmp: bool, cidrSupport: bool) returns (score: int)
    requires Sane(pton) && Clean(mu) && mu.found && nu.found && (user || cidrSupport)
    ensures score == AddrScore(pton, mu, nu, user, cmp, cidrSupport)
  {
    var left := WildMatch(mu.left, nu.left);
    if left == 0 {
      return 0;
    }
    if mu.host == "" && nu.host == "" {
      return left;
    }
    var host := CompareHosts(pton, mu.host, nu.host, cmp);
    return if host == 0 then 0 else left + host;
  }

  method EitherWild(m: string, n: string) returns (b: bool)
    requires '\0' !in m && '\0' !in n
    ensures b == (Wild(m, n) || Wild(n, m))
  {
    var x := WildMatch(m, n);
    if x != 0 {
      return true;
    }
    var y := WildMatch(n, m);
    return y != 0;
  }

  /** Ends the text at its last slash; the number behind it, or `otherwise` without a slash. */
  method CutAtSlash(h: string, otherwise: int) returns (host: string, prefix: int)
    ensures host == Before(h) && prefix == if Slash(h) >= 0 then PrefixOf(h) else otherwise
  {
    var p := LastOf(h, '/');
    if p < 0 {
      return h, otherwise;
    }
    return h[..p], Atoi(h[p + 1..]);
  }

  method OverlapPrefixes(pton: Pton, r: string, s: string) returns (score: int)
    requires Sane(pton)
    ensures score == CidrMatch(pton, Before(r), Before(s), MaskPrefix(r, s))
  {
    var rh, prefix := CutAtSlash(r, if ':' in r then 128 else 32);
    var sh, other := CutAtSlash(s, prefix);
    if other < prefix {
      prefix := other;
    }
    return CidrMatch(pton, rh, sh, prefix);
  }

  method OverlapHosts(pton: Pton, r: string, s: string) returns (score: int)
    requires Sane(pton) && '\0' !in r && '\0' !in s
    ensures score == MaskScore(pton, r, s)
  {
    if !HasPrefix(r) && !HasPrefix(s) {
      var either := EitherWild(r, s);
      return if either then 1 else 0;
    }
    score := OverlapPrefixes(pton, r, s);
  }

  method MaskMatch(pton: Pton, m: string, n: string, cidrSupport: bool) returns (score: int)
    requires Sane(pton) && '\0' !in m && '\0' !in n
    ensures score == OverlapScore(pton, PartsOf(m), PartsOf(n), cidrSupport)
    ensures score >= 0
    ensures forall a, b, v :: Copied(m, a) && Copied(n, b) && v > 0 ==>
              (score == v <==> OverlapAnswer(pton, a, b, cidrSupport, v))
  {
    OverlapTold(pton, m, n, cidrSupport);
    var mu := Split(m);
    var nu := Split(n);
    PartsClean(m);
    PartsClean(n);
    if !cidrSupport || !mu.found || !nu.found {
      var either := EitherWild(mu.whole, nu.whole);
      return if either then 1 else 0;
    }
    var left := EitherWild(mu.left, nu.left);
    if !left {
      return 0;
    }
    if mu.host == "" && nu.host == "" {
      return 1;
    }
    score := OverlapHosts(pton, mu.host, nu.host);
  }

  lemma AddrTold(pton: Pton, m: string, n: string, user: bool, cmp: bool, cidrSupport: bool)
    requires Sane(pton)
    ensures AddrScore(pton, PartsOf(m), PartsOf(n), user, cmp, cidrSupport) >= 0
    ensures forall a, b, v :: Copied(m, a) && Copied(n, b) && v > 0 ==>
              (AddrScore(pton, PartsOf(m), PartsOf(n), user, cmp, cidrSupport) == v
               <==> AddrAnswer(pton, a, b, user, cmp, cidrSupport, v))
  {
    HostScoreSign(pton, PartsOf(m).host, PartsOf(n).host, cmp);
    forall a, b, v | Copied(m, a) && Copied(n, b) && v > 0
      ensures AddrScore(pton, PartsOf(m), PartsOf(n), user, cmp, cidrSupport) == v
              <==> AddrAnswer(pton, a, b, user, cmp, cidrSupport, v)
    {
      CopyIs(m, a);
      CopyIs(n, b);
      AddrAnswers(pton, m, n, user, cmp, cidrSupport, v);
    }
  }

  lemma OverlapTold(pton: Pton, m: string, n: string, cidrSupport: bool)
    requires Sane(pton)
    ensures OverlapScore(pton, PartsOf(m), PartsOf(n), cidrSupport) >= 0
    ensures forall a, b, v :: Copied(m, a) && Copied(n, b) && v > 0 ==>
              (OverlapScore(pton, PartsOf(m), PartsOf(n), cidrSupport) == v <==> OverlapAnswer(pton, a, b, cidrSupport, v))
  {
    forall a, b, v | Copied(m, a) && Copied(n, b) && v > 0
      ensures OverlapScore(pton, PartsOf(m), PartsOf(n), cidrSupport) == v <==> OverlapAnswer(pton, a, b, cidrSupport, v)
    {
      CopyIs(m, a);
      CopyIs(n, b);
      OverlapAnswers(pton, m, n, cidrSupport, v);
    }
  }
}
