/** Writing characters one behind another into a buffer. */
module Buffers {

  /** `*p++ = c`. */
  method Put(a: array<char>, p: nat, c: char) returns (next: nat)
    requires p < a.Length
    modifies a
    ensures next == p + 1 && a[..next] == old(a[..p]) + [c] && a[next..] == old(a[next..])
  {
    a[p] := c;
    next := p + 1;
  }

  /** Writes the characters of `t` from place `p` on. */
  method Emit(a: array<char>, p: nat, t: string) returns (q: nat)
    requires p + |t| <= a.Length
    modifies a
    ensures q == p + |t| && a[..q] == old(a[..p]) + t
  {
    q := p;
    while q < p + |t|
      invariant p <= q <= p + |t| && a[..q] == old(a[..p]) + t[..q - p]
    {
      a[q] := t[q - p];
      q := q + 1;
    }
  }

  /** From `was` to `now`, the text `t` went in at place `p` and ends at `q`; the places before are kept. */
  ghost predicate Wrote(was: seq<char>, now: seq<char>, p: nat, q: nat, t: string) {
    p <= q == p + |t| <= |was| == |now| && now[..q] == was[..p] + t
  }

  lemma WroteThen(a: seq<char>, b: seq<char>, c: seq<char>, p: nat, q: nat, r: nat, t: string, u: string)
    requires Wrote(a, b, p, q, t) && Wrote(b, c, q, r, u)
    ensures Wrote(a, c, p, r, t + u)
  {
    assert a[..p] + t + u == a[..p] + (t + u);
  }
}
