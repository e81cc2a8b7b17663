/** Byte-string keys in the order the store keeps them, and tables sorted by that order. */
module Keys {

  newtype byte = x: int | 0 <= x < 256

  type Key = seq<byte>
  type Val = seq<byte>

  datatype Rec = Rec(key: Key, val: Val)

  /** Bytewise comparison; a proper prefix comes first. */
  predicate Less(a: Key, b: Key) {
    if b == [] then false
    else if a == [] then true
    else a[0] < b[0] || (a[0] == b[0] && Less(a[1..], b[1..]))
  }

  lemma {:induction false} LessTransitive(a: Key, b: Key, c: Key)
    requires Less(a, b) && Less(b, c)
    ensures Less(a, c)
  {
    if a != [] && a[0] == b[0] && b[0] == c[0] {
      LessTransitive(a[1..], b[1..], c[1..]);
    }
  }

  lemma {:induction false} LessTotal(a: Key, b: Key)
    ensures Less(a, b) || a == b || Less(b, a)
    ensures !(Less(a, b) && Less(b, a)) && !Less(a, a)
  {
    if a != [] && b != [] {
      LessTotal(a[1..], b[1..]);
      LessTotal(a[1..], a[1..]);
      if a[0] == b[0] && a[1..] == b[1..] {
        assert a == [a[0]] + a[1..] && b == [b[0]] + b[1..];
      }
    } else if a != [] {
      LessTotal(a[1..], a[1..]);
    }
  }

  predicate HasPrefix(k: Key, p: Key) {
    |p| <= |k| && k[..|p|] == p
  }

  /** The keys with a given prefix lie from the prefix itself upwards ... */
  lemma {:induction false} PrefixFirst(k: Key, p: Key)
    requires HasPrefix(k, p)
    ensures !Less(k, p)
  {
    if p != [] {
      assert k[0] == p[0] by { assert k[..|p|][0] == p[0]; }
      assert k[1..][..|p| - 1] == k[..|p|][1..];
      PrefixFirst(k[1..], p[1..]);
    }
  }

  /** ... in one contiguous run: whatever lies between the prefix and one of them is one of them. */
  lemma {:induction false} PrefixRun(p: Key, k: Key, l: Key)
    requires !Less(k, p) && Less(k, l) && HasPrefix(l, p)
    ensures HasPrefix(k, p)
  {
    if p != [] {
      assert l[0] == p[0] by { assert l[..|p|][0] == p[0]; }
      assert l[1..][..|p| - 1] == l[..|p|][1..];
      PrefixRun(p[1..], k[1..], l[1..]);
      assert k[..|p|] == [k[0]] + k[1..][..|p| - 1];
      assert p == [p[0]] + p[1..];
    }
  }

  /** What comes under one handle in the index tables: the handle, a NUL, and the rest. */
  function HandlePrefix(handle: Key): Key {
    handle + [0]
  }

  lemma HandleInKey(a: Key, k: Key)
    requires HasPrefix(k, HandlePrefix(a))
    ensures |a| < |k| && k[..|a|] == a && k[|a|] == 0
  {
    assert k[..|a| + 1][|a|] == HandlePrefix(a)[|a|];
    assert k[..|a|] == k[..|a| + 1][..|a|] == HandlePrefix(a)[..|a|];
  }

  /** Different NUL-free handles have disjoint runs, even when one is a prefix of the other. */
  lemma HandlesApart(a: Key, b: Key, k: Key)
    requires 0 !in a && 0 !in b && HasPrefix(k, HandlePrefix(a)) && HasPrefix(k, HandlePrefix(b))
    ensures a == b
  {
    HandleInKey(a, k);
    HandleInKey(b, k);
  }

  lemma PrefixOwn(handle: Key, rest: Key)
    ensures HasPrefix(HandlePrefix(handle) + rest, HandlePrefix(handle))
  {
  }

  // ------------------------------------------------------------- sorted tables

  ghost predicate Sorted(t: seq<Rec>) {
    forall i, j :: 0 <= i < j < |t| ==> Less(t[i].key, t[j].key)
  }

  ghost function Contents(t: seq<Rec>): map<Key, Val> {
    if t == [] then map[] else Contents(t[..|t| - 1])[t[|t| - 1].key := t[|t| - 1].val]
  }

  lemma {:induction false} ContentsConcat(a: seq<Rec>, b: seq<Rec>)
    ensures Contents(a + b) == Contents(a) + Contents(b)
  {
    if b == [] {
      assert a + b == a;
    } else {
      assert (a + b)[..|a + b| - 1] == a + b[..|b| - 1];
      ContentsConcat(a, b[..|b| - 1]);
    }
  }

  lemma {:induction false} KeyListed(t: seq<Rec>, k: Key)
    ensures k in Contents(t) ==> exists i :: 0 <= i < |t| && t[i].key == k && Contents(t)[k] == t[i].val
  {
    if t != [] {
      var n := |t| - 1;
      KeyListed(t[..n], k);
      if k in Contents(t) && k != t[n].key {
        var i :| 0 <= i < n && t[..n][i].key == k && Contents(t[..n])[k] == t[..n][i].val;
        assert t[i] == t[..n][i];
      }
    }
  }

  /** A table around its entry `i`. */
  lemma ContentsSplit(t: seq<Rec>, i: nat)
    requires i < |t|
    ensures Contents(t) == Contents(t[..i])[t[i].key := t[i].val] + Contents(t[i + 1..])
  {
    assert t == t[..i] + [t[i]] + t[i + 1..];
    ContentsConcat(t[..i] + [t[i]], t[i + 1..]);
    assert (t[..i] + [t[i]])[..i] == t[..i];
  }

  /** Nothing in a part of the table whose keys all lie on one side. */
  lemma AbsentBelow(t: seq<Rec>, k: Key)
    requires forall j :: 0 <= j < |t| ==> Less(t[j].key, k)
    ensures k !in Contents(t)
  {
    KeyListed(t, k);
    LessTotal(k, k);
  }

  lemma AbsentAbove(t: seq<Rec>, k: Key)
    requires forall j :: 0 <= j < |t| ==> Less(k, t[j].key)
    ensures k !in Contents(t)
  {
    KeyListed(t, k);
    LessTotal(k, k);
  }

  /** The first place whose key is not below `k`. */
  method LowerBound(t: seq<Rec>, k: Key) returns (i: nat)
    requires Sorted(t)
    ensures i <= |t|
    ensures forall j :: 0 <= j < i ==> Less(t[j].key, k)
    ensures forall j :: i <= j < |t| ==> !Less(t[j].key, k)
  {
    i := 0;
    while i < |t| && Less(t[i].key, k)
      invariant i <= |t| && forall j :: 0 <= j < i ==> Less(t[j].key, k)
    {
      i := i + 1;
    }
    forall j | i < j < |t| ensures !Less(t[j].key, k) {
      if Less(t[j].key, k) { LessTransitive(t[i].key, t[j].key, k); }
    }
  }

  /** The store takes keys of 1 to 511 bytes and refuses others. */
  predicate KeyOk(k: Key) {
    1 <= |k| <= 511
  }

  ghost function PutMap(m: map<Key, Val>, k: Key, v: Val): map<Key, Val> {
    if KeyOk(k) then m[k := v] else m
  }

  /** Inserts or overwrites, keeping the order. */
  method Put(t: seq<Rec>, k: Key, v: Val) returns (r: seq<Rec>)
    requires Sorted(t)
    ensures Sorted(r) && Contents(r) == PutMap(Contents(t), k, v)
  {
    if !KeyOk(k) {
      return t;
    }
    var i := LowerBound(t, k);
    if i < |t| && t[i].key == k {
      r := t[i := Rec(k, v)];
    } else {
      AboveBound(t, i, k);
      r := t[..i] + [Rec(k, v)] + t[i..];
    }
    PutContents(t, r, i, k, v);
  }

  lemma AboveBound(t: seq<Rec>, i: nat, k: Key)
    requires Sorted(t) && i <= |t| && (i < |t| ==> t[i].key != k)
    requires forall j :: i <= j < |t| ==> !Less(t[j].key, k)
    ensures forall j :: i <= j < |t| ==> Less(k, t[j].key)
  {
    forall j | i <= j < |t| ensures Less(k, t[j].key) {
      LessTotal(k, t[j].key);
      if j > i { LessTotal(k, t[i].key); }
    }
  }

  lemma SortedPut(t: seq<Rec>, r: seq<Rec>, i: nat, k: Key, v: Val)
    requires Sorted(t) && i <= |t|
    requires forall j :: 0 <= j < i ==> Less(t[j].key, k)
    requires if i < |t| && t[i].key == k then r == t[i := Rec(k, v)]
             else (forall j :: i <= j < |t| ==> Less(k, t[j].key)) && r == t[..i] + [Rec(k, v)] + t[i..]
    ensures Sorted(r)
  {
  }

  /** Everything behind the new entry has another key. */
  lemma PutMapIs(t: seq<Rec>, r: seq<Rec>, i: nat, k: Key, v: Val)
    requires i <= |t|
    requires if i < |t| && t[i].key == k then r == t[i := Rec(k, v)] && k !in Contents(t[i + 1..])
             else r == t[..i] + [Rec(k, v)] + t[i..] && k !in Contents(t[i..])
    ensures Contents(r) == Contents(t)[k := v]
  {
    ContentsSplit(r, i);
    assert r[..i] == t[..i];
    if i < |t| && t[i].key == k {
      ContentsSplit(t, i);
      assert r[i + 1..] == t[i + 1..];
      PutMaps(Contents(t[..i]), Contents(t[i + 1..]), k, v, t[i].val);
    } else {
      assert r[i + 1..] == t[i..];
      ContentsConcat(t[..i], t[i..]);
      assert t == t[..i] + t[i..];
      PutMaps(Contents(t[..i]), Contents(t[i..]), k, v, v);
    }
  }

  lemma PutContents(t: seq<Rec>, r: seq<Rec>, i: nat, k: Key, v: Val)
    requires Sorted(t) && i <= |t|
    requires forall j :: 0 <= j < i ==> Less(t[j].key, k)
    requires if i < |t| && t[i].key == k then r == t[i := Rec(k, v)]
             else (forall j :: i <= j < |t| ==> Less(k, t[j].key)) && r == t[..i] + [Rec(k, v)] + t[i..]
    ensures Sorted(r) && Contents(r) == Contents(t)[k := v]
  {
    SortedPut(t, r, i, k, v);
    if i < |t| && t[i].key == k {
      AbsentAbove(t[i + 1..], k);
    } else {
      AbsentAbove(t[i..], k);
    }
    PutMapIs(t, r, i, k, v);
  }

  lemma SortedCut(t: seq<Rec>, i: nat)
    requires Sorted(t) && i < |t|
    ensures Sorted(t[..i] + t[i + 1..])
  {
  }

  lemma CutMapIs(t: seq<Rec>, i: nat)
    requires i < |t| && t[i].key !in Contents(t[..i]) && t[i].key !in Contents(t[i + 1..])
    ensures Contents(t[..i] + t[i + 1..]) == Contents(t) - {t[i].key}
  {
    ContentsSplit(t, i);
    ContentsConcat(t[..i], t[i + 1..]);
    CutMaps(Contents(t[..i]), Contents(t[i + 1..]), t[i].key, t[i].val);
  }

  lemma CutMaps(a: map<Key, Val>, b: map<Key, Val>, k: Key, v: Val)
    requires k !in a && k !in b
    ensures a + b == a[k := v] + b - {k}
  {
  }

  lemma PutMaps(a: map<Key, Val>, b: map<Key, Val>, k: Key, v: Val, w: Val)
    requires k !in b
    ensures a[k := v] + b == (a + b)[k := v] == (a[k := w] + b)[k := v]
  {
  }

  /** Taking out entry `i` takes out its key. */
  lemma CutContents(t: seq<Rec>, i: nat)
    requires Sorted(t) && i < |t|
    ensures Sorted(t[..i] + t[i + 1..]) && Contents(t[..i] + t[i + 1..]) == Contents(t) - {t[i].key}
  {
    SortedCut(t, i);
    AbsentBelow(t[..i], t[i].key);
    AbsentAbove(t[i + 1..], t[i].key);
    CutMapIs(t, i);
  }

  /** Removes one key if it is there. */
  method Del(t: seq<Rec>, k: Key) returns (r: seq<Rec>)
    requires Sorted(t)
    ensures Sorted(r) && Contents(r) == Contents(t) - {k}
  {
    var i := LowerBound(t, k);
    if i < |t| && t[i].key == k {
      CutContents(t, i);
      return t[..i] + t[i + 1..];
    }
    AboveBound(t, i, k);
    NotThere(t, i, k);
    r := t;
  }

  lemma NotThere(t: seq<Rec>, i: nat, k: Key)
    requires i <= |t|
    requires forall j :: 0 <= j < i ==> Less(t[j].key, k)
    requires forall j :: i <= j < |t| ==> Less(k, t[j].key)
    ensures k !in Contents(t) && Contents(t) - {k} == Contents(t)
  {
    KeyListed(t, k);
    LessTotal(k, k);
  }

  /** The table without the keys of one handle. */
  ghost function WithoutHandle(m: map<Key, Val>, handle: Key): map<Key, Val> {
    map k | k in m && !HasPrefix(k, HandlePrefix(handle)) :: m[k]
  }

  /** Removes everything under one handle: a cursor set to the first key not below the prefix
      deletes and moves on as long as the key still begins with the handle and a NUL. */
  method DeleteUserEntries(t: seq<Rec>, handle: Key) returns (r: seq<Rec>)
    requires Sorted(t)
    ensures Sorted(r) && Contents(r) == WithoutHandle(Contents(t), handle)
  {
    var prefix := HandlePrefix(handle);
    r := t;
    var i := LowerBound(r, prefix);
    ghost var low := i;
    while i < |r| && |r[i].key| >= |handle| + 1 && r[i].key[..|handle|] == handle && r[i].key[|handle|] == 0
      invariant i <= |r| && Sorted(r)
      invariant forall j :: 0 <= j < i ==> Less(r[j].key, prefix)
      invariant forall j :: i <= j < |r| ==> !Less(r[j].key, prefix)
      invariant WithoutHandle(Contents(r), handle) == WithoutHandle(Contents(t), handle)
      decreases |r|
    {
      CutContents(r, i);
      StartsWithHandle(r[i].key, handle);
      r := r[..i] + r[i + 1..];
    }
    RunIsOver(r, handle, i);
  }

  lemma StartsWithHandle(k: Key, handle: Key)
    ensures HasPrefix(k, HandlePrefix(handle)) <==> |k| >= |handle| + 1 && k[..|handle|] == handle && k[|handle|] == 0
  {
    if |k| >= |handle| + 1 {
      assert k[..|handle| + 1] == k[..|handle|] + [k[|handle|]];
      assert HandlePrefix(handle)[..|handle|] == handle;
    }
  }

  /** Below the bound nothing has the prefix; from the first key without it on, nothing has it either. */
  lemma RunIsOver(r: seq<Rec>, handle: Key, i: nat)
    requires Sorted(r) && i <= |r|
    requires forall j :: 0 <= j < i ==> Less(r[j].key, HandlePrefix(handle))
    requires forall j :: i <= j < |r| ==> !Less(r[j].key, HandlePrefix(handle))
    requires i < |r| ==> !(|r[i].key| >= |handle| + 1 && r[i].key[..|handle|] == handle && r[i].key[|handle|] == 0)
    ensures WithoutHandle(Contents(r), handle) == Contents(r)
  {
    var p := HandlePrefix(handle);
    forall k | k in Contents(r) ensures !HasPrefix(k, p) {
      KeyListed(r, k);
      var j :| 0 <= j < |r| && r[j].key == k;
      if HasPrefix(k, p) {
        PrefixFirst(k, p);
        StartsWithHandle(r[i].key, handle);
        if j > i { PrefixRun(p, r[i].key, k); }
        assert false;
      }
    }
  }
}
