/** The shape shared by a bot's linked list of other bots and by the name-level
    view derived from it: a list whose entries point at an earlier entry or at
    the root, together with the first hop towards the root. */
module Forest {

  /** One list entry.  `uplink` is the parent, `via` the first hop from the root. */
  datatype Node<N, P> = Node(id: N, uplink: N, via: N, info: P)

  ghost function Ids<N, P>(v: seq<Node<N, P>>): set<N> {
    set t | t in v :: t.id
  }

  /** `t` may stand behind `v`: a fresh id whose parent is the root or listed,
      and whose first hop is itself or its parent's first hop. */
  ghost predicate Attached<N, P(!new)>(root: N, v: seq<Node<N, P>>, t: Node<N, P>) {
    && t.id != root
    && t.id !in Ids(v)
    && (if t.uplink == root then t.via == t.id
        else exists u :: u in v && u.id == t.uplink && u.via == t.via)
  }

  /** Parents precede children, ids are unique and never the root, first hops are inherited. */
  ghost predicate Linked<N, P(!new)>(root: N, v: seq<Node<N, P>>) {
    v == [] || (Linked(root, v[..|v| - 1]) && Attached(root, v[..|v| - 1], v[|v| - 1]))
  }

  /** The proper descendants of `w`. */
  ghost function Desc<N, P>(v: seq<Node<N, P>>, w: N): set<N> {
    if v == [] then {}
    else
      var above := Desc(v[..|v| - 1], w);
      var t := v[|v| - 1];
      if t.uplink == w || t.uplink in above then above + {t.id} else above
  }

  /** The entries whose id is not in `gone`, in order. */
  ghost function Without<N, P>(v: seq<Node<N, P>>, gone: set<N>): seq<Node<N, P>> {
    if v == [] then []
    else
      var rest := Without(v[..|v| - 1], gone);
      if v[|v| - 1].id in gone then rest else rest + [v[|v| - 1]]
  }

  /** `w` together with everything below it. */
  ghost function Subtree<N, P>(v: seq<Node<N, P>>, w: N): set<N> {
    {w} + Desc(v, w)
  }

  ghost function Prune<N, P>(v: seq<Node<N, P>>, w: N): seq<Node<N, P>> {
    Without(v, Subtree(v, w))
  }

  ghost predicate Closed<N, P(!new)>(v: seq<Node<N, P>>, gone: set<N>) {
    forall t :: t in v && t.uplink in gone ==> t.id in gone
  }

  // ---------------------------------------------------------------- membership

  lemma InSnoc<N, P>(v: seq<Node<N, P>>, t: Node<N, P>)
    requires v != []
    ensures t in v <==> t in v[..|v| - 1] || t == v[|v| - 1]
  {
    assert v == v[..|v| - 1] + [v[|v| - 1]];
  }

  lemma IdsSnoc<N, P>(v: seq<Node<N, P>>)
    requires v != []
    ensures Ids(v) == Ids(v[..|v| - 1]) + {v[|v| - 1].id}
  {
    assert v == v[..|v| - 1] + [v[|v| - 1]];
    forall x | x in Ids(v) ensures x in Ids(v[..|v| - 1]) + {v[|v| - 1].id} {
      var t :| t in v && t.id == x;
      InSnoc(v, t);
    }
    forall x | x in Ids(v[..|v| - 1]) + {v[|v| - 1].id} ensures x in Ids(v) {
      assert v[|v| - 1] in v;
    }
  }

  lemma {:induction false} UniqueIds<N, P(!new)>(root: N, v: seq<Node<N, P>>, s: Node<N, P>, t: Node<N, P>)
    requires Linked(root, v) && s in v && t in v && s.id == t.id
    ensures s == t
  {
    InSnoc(v, s);
    InSnoc(v, t);
    if s in v[..|v| - 1] && t in v[..|v| - 1] {
      UniqueIds(root, v[..|v| - 1], s, t);
    }
  }

  /** What `Linked` says of any one entry, wherever it stands. */
  lemma {:induction false} LinkedAt<N, P(!new)>(root: N, v: seq<Node<N, P>>, t: Node<N, P>)
    requires Linked(root, v) && t in v
    ensures t.id != root && t.uplink != t.id
    ensures if t.uplink == root then t.via == t.id
            else exists u :: u in v && u.id == t.uplink && u.via == t.via
  {
    InSnoc(v, t);
    var p := v[..|v| - 1];
    if t in p {
      LinkedAt(root, p, t);
      if t.uplink != root {
        var u :| u in p && u.id == t.uplink && u.via == t.via;
        assert u in v;
      }
    } else if t.uplink != root {
      var u :| u in p && u.id == t.uplink && u.via == t.via;
      assert u in v;
    }
  }

  /** The root stays out of the list; every prefix of a linked list is linked. */
  lemma {:induction false} LinkedPrefix<N, P(!new)>(root: N, v: seq<Node<N, P>>, n: nat)
    requires Linked(root, v) && n <= |v|
    ensures Linked(root, v[..n]) && root !in Ids(v)
  {
    if n == |v| {
      assert v[..n] == v;
      if v != [] {
        LinkedPrefix(root, v[..|v| - 1], |v| - 1);
        IdsSnoc(v);
      }
    } else {
      LinkedPrefix(root, v[..|v| - 1], n);
      assert v[..|v| - 1][..n] == v[..n];
      IdsSnoc(v);
    }
  }

  /** The parent of the entry at place `i` is the root or stands at an earlier place. */
  lemma ParentEarlier<N, P(!new)>(root: N, v: seq<Node<N, P>>, i: nat)
    requires Linked(root, v) && i < |v|
    ensures v[i].uplink == root || exists k :: 0 <= k < i && v[k].id == v[i].uplink && v[k].via == v[i].via
  {
    LinkedPrefix(root, v, i + 1);
    assert v[..i + 1][..i] == v[..i];
    if v[i].uplink != root {
      var u :| u in v[..i] && u.id == v[i].uplink && u.via == v[i].via;
      var k :| 0 <= k < i && v[..i][k] == u;
    }
  }

  // ---------------------------------------------------------------- descendants

  lemma {:induction false} DescListed<N, P>(v: seq<Node<N, P>>, w: N)
    ensures Desc(v, w) <= Ids(v)
  {
    if v != [] {
      DescListed(v[..|v| - 1], w);
      IdsSnoc(v);
    }
  }

  /** Nothing hangs below an id that is neither listed nor the root. */
  lemma {:induction false} DescOfAbsent<N, P(!new)>(root: N, v: seq<Node<N, P>>, w: N)
    requires Linked(root, v) && w != root && w !in Ids(v)
    ensures Desc(v, w) == {}
  {
    if v != [] {
      IdsSnoc(v);
      DescOfAbsent(root, v[..|v| - 1], w);
    }
  }

  lemma {:induction false} DescIrreflexive<N, P(!new)>(root: N, v: seq<Node<N, P>>, w: N)
    requires Linked(root, v)
    ensures w !in Desc(v, w)
  {
    if v != [] {
      var p, t := v[..|v| - 1], v[|v| - 1];
      DescIrreflexive(root, p, w);
      LinkedPrefix(root, v, |v|);
      if t.id == w {
        DescOfAbsent(root, p, w);
        LinkedAt(root, v, t);
      }
    }
  }

  /** Membership below `w` is exactly having a parent that is `w` or below `w`. */
  lemma {:induction false} DescStep<N, P(!new)>(root: N, v: seq<Node<N, P>>, w: N, t: Node<N, P>)
    requires Linked(root, v) && t in v
    ensures t.id in Desc(v, w) <==> (t.uplink == w || t.uplink in Desc(v, w))
  {
    InSnoc(v, t);
    var p, z := v[..|v| - 1], v[|v| - 1];
    DescListed(p, w);
    LinkedPrefix(root, v, |v|);
    if t in p {
      DescStep(root, p, w, t);
      LinkedAt(root, p, t);
      assert t.id in Ids(p);
      assert t.uplink != z.id;
    } else {
      LinkedAt(root, v, z);
    }
  }

  lemma DescClosed<N, P(!new)>(root: N, v: seq<Node<N, P>>, w: N)
    requires Linked(root, v)
    ensures Closed(v, Subtree(v, w))
  {
    forall t | t in v && t.uplink in Subtree(v, w) ensures t.id in Subtree(v, w) {
      DescStep(root, v, w, t);
    }
  }

  /** The least closed set: any closed set that swallows the children of `w` swallows all of `Desc`. */
  lemma {:induction false} DescLeast<N, P(!new)>(v: seq<Node<N, P>>, w: N, s: set<N>)
    requires forall t :: t in v && (t.uplink == w || t.uplink in s) ==> t.id in s
    ensures Desc(v, w) <= s
  {
    if v != [] {
      var p := v[..|v| - 1];
      forall t | t in p ensures t in v { InSnoc(v, t); }
      DescLeast(p, w, s);
      assert v[|v| - 1] in v;
    }
  }

  lemma DescTransitive<N, P(!new)>(root: N, v: seq<Node<N, P>>, w: N, c: N)
    requires Linked(root, v) && c in Desc(v, w)
    ensures Desc(v, c) <= Desc(v, w)
  {
    forall t | t in v && (t.uplink == c || t.uplink in Desc(v, w)) ensures t.id in Desc(v, w) {
      DescStep(root, v, w, t);
    }
    DescLeast(v, c, Desc(v, w));
  }

  /** Two different children of one parent have disjoint subtrees. */
  lemma {:induction false} SiblingsDisjoint<N, P(!new)>(root: N, v: seq<Node<N, P>>, w: N, c: Node<N, P>, d: Node<N, P>)
    requires Linked(root, v) && c in v && d in v && c != d && c.uplink == w && d.uplink == w
    ensures Subtree(v, c.id) !! Subtree(v, d.id)
  {
    InSnoc(v, c);
    InSnoc(v, d);
    var p, z := v[..|v| - 1], v[|v| - 1];
    IdsSnoc(v);
    DescListed(p, c.id);
    DescListed(p, d.id);
    LinkedPrefix(root, v, |v|);
    if c in p && d in p {
      SiblingsDisjoint(root, p, w, c, d);
      assert c.id in Ids(p) && d.id in Ids(p);
    } else {
      // the last entry is a leaf
      var other := if c == z then d else c;
      assert other in p;
      DescOfAbsent(root, p, z.id);
      DescIrreflexive(root, p, other.id);
      LinkedAt(root, v, z);
      assert z.uplink == w;
      if w in Subtree(p, other.id) {
        LinkedAt(root, p, other);
        if w != other.id {
          AncestorNotBelow(root, p, other, w);
        }
      }
    }
  }

  /** An entry's parent is not below it. */
  lemma AncestorNotBelow<N, P(!new)>(root: N, v: seq<Node<N, P>>, t: Node<N, P>, w: N)
    requires Linked(root, v) && t in v && t.uplink == w
    ensures w !in Desc(v, t.id)
  {
    if w in Desc(v, t.id) {
      DescStep(root, v, w, t);
      DescTransitive(root, v, w, t.id);
      DescIrreflexive(root, v, w);
    }
  }

  // ---------------------------------------------------------------- removal

  lemma {:induction false} WithoutMembers<N, P>(v: seq<Node<N, P>>, gone: set<N>, t: Node<N, P>)
    ensures t in Without(v, gone) <==> t in v && t.id !in gone
  {
    if v != [] {
      InSnoc(v, t);
      WithoutMembers(v[..|v| - 1], gone, t);
    }
  }

  lemma WithoutIds<N, P>(v: seq<Node<N, P>>, gone: set<N>)
    ensures Ids(Without(v, gone)) == Ids(v) - gone
  {
    forall x | x in Ids(Without(v, gone)) ensures x in Ids(v) - gone {
      var t :| t in Without(v, gone) && t.id == x;
      WithoutMembers(v, gone, t);
    }
    forall x | x in Ids(v) - gone ensures x in Ids(Without(v, gone)) {
      var t :| t in v && t.id == x;
      WithoutMembers(v, gone, t);
    }
  }

  lemma {:induction false} WithoutTwice<N, P>(v: seq<Node<N, P>>, a: set<N>, b: set<N>)
    ensures Without(Without(v, a), b) == Without(v, a + b)
  {
    if v != [] {
      WithoutTwice(v[..|v| - 1], a, b);
      var rest, t := Without(v[..|v| - 1], a), v[|v| - 1];
      if t.id !in a {
        assert (rest + [t])[..|rest|] == rest;
      }
    }
  }

  lemma {:induction false} WithoutNone<N, P>(v: seq<Node<N, P>>, gone: set<N>)
    requires Ids(v) !! gone
    ensures Without(v, gone) == v
  {
    if v != [] {
      IdsSnoc(v);
      WithoutNone(v[..|v| - 1], gone);
      assert v == v[..|v| - 1] + [v[|v| - 1]];
    }
  }

  lemma {:induction false} WithoutConcat<N, P>(a: seq<Node<N, P>>, b: seq<Node<N, P>>, gone: set<N>)
    ensures Without(a + b, gone) == Without(a, gone) + Without(b, gone)
  {
    if b == [] {
      assert a + b == a;
    } else {
      assert (a + b)[..|a + b| - 1] == a + b[..|b| - 1];
      WithoutConcat(a, b[..|b| - 1], gone);
    }
  }

  /** Removing a closed set leaves a linked list: no survivor keeps a parent or a first hop that is gone. */
  lemma {:induction false} WithoutLinked<N, P(!new)>(root: N, v: seq<Node<N, P>>, gone: set<N>)
    requires Linked(root, v) && Closed(v, gone) && root !in gone
    ensures Linked(root, Without(v, gone))
  {
    if v != [] {
      var p, t := v[..|v| - 1], v[|v| - 1];
      forall u | u in p ensures u in v { InSnoc(v, u); }
      WithoutLinked(root, p, gone);
      var rest := Without(p, gone);
      WithoutIds(p, gone);
      if t.id !in gone {
        assert t in v;
        assert (rest + [t])[..|rest|] == rest;
        if t.uplink != root {
          var u :| u in p && u.id == t.uplink && u.via == t.via;
          WithoutMembers(p, gone, u);
        }
        assert Attached(root, rest, t);
      }
    }
  }

  /** Every first hop is a listed direct child of the root. */
  lemma {:induction false} ViaDirect<N, P(!new)>(root: N, v: seq<Node<N, P>>, t: Node<N, P>)
    requires Linked(root, v) && t in v
    ensures exists d :: d in v && d.id == t.via && d.uplink == root && d.via == d.id
  {
    InSnoc(v, t);
    var p := v[..|v| - 1];
    if t in p {
      ViaDirect(root, p, t);
      var d :| d in p && d.id == t.via && d.uplink == root && d.via == d.id;
      assert d in v;
    } else if t.uplink != root {
      var u :| u in p && u.id == t.uplink && u.via == t.via;
      ViaDirect(root, p, u);
      var d :| d in p && d.id == t.via && d.uplink == root && d.via == d.id;
      assert d in v;
    } else {
      assert t in v;
    }
  }

  /** The topmost ancestor, found by walking the uplink chain. */
  ghost function Topmost<N, P(!new)>(root: N, v: seq<Node<N, P>>, t: Node<N, P>): N
    requires Linked(root, v) && t in v
    decreases |v|
  {
    InSnoc(v, t);
    if t in v[..|v| - 1] then Topmost(root, v[..|v| - 1], t)
    else if t.uplink == root then t.id
    else
      var u :| u in v[..|v| - 1] && u.id == t.uplink && u.via == t.via;
      Topmost(root, v[..|v| - 1], u)
  }

  lemma {:induction false} ViaIsTopmost<N, P(!new)>(root: N, v: seq<Node<N, P>>, t: Node<N, P>)
    requires Linked(root, v) && t in v
    ensures t.via == Topmost(root, v, t)
    decreases |v|
  {
    InSnoc(v, t);
    var p := v[..|v| - 1];
    if t in p {
      ViaIsTopmost(root, p, t);
    } else if t.uplink != root {
      var u :| u in p && u.id == t.uplink && u.via == t.via && Topmost(root, v, t) == Topmost(root, p, u);
      ViaIsTopmost(root, p, u);
    }
  }

  /** Cutting out one entry removes its id. */
  lemma {:induction false} CutOut<N, P>(v: seq<Node<N, P>>, i: nat)
    requires i < |v| && forall j, k :: 0 <= j < k < |v| ==> v[j].id != v[k].id
    ensures v[..i] + v[i + 1..] == Without(v, {v[i].id})
  {
    var n := |v| - 1;
    var p := v[..n];
    if i == n {
      WithoutNone(p, {v[i].id});
      assert v[..i] + v[i + 1..] == p;
    } else {
      CutOut(p, i);
      assert v[..i] + v[i + 1..] == p[..i] + p[i + 1..] + [v[n]];
    }
  }

  /** Removing ids that do not occur in the first `n` entries leaves those entries in place. */
  lemma WithoutKeepsPrefix<N, P>(v: seq<Node<N, P>>, gone: set<N>, n: nat)
    requires n <= |v| && Ids(v[..n]) !! gone
    ensures n <= |Without(v, gone)| && Without(v, gone)[..n] == v[..n]
  {
    assert v == v[..n] + v[n..];
    WithoutConcat(v[..n], v[n..], gone);
    WithoutNone(v[..n], gone);
  }

  /** Descendants stand behind their ancestor in the list. */
  lemma {:induction false} DescBehind<N, P(!new)>(root: N, v: seq<Node<N, P>>, i: nat)
    requires Linked(root, v) && i < |v|
    ensures Desc(v, v[i].id) !! Ids(v[..i + 1])
  {
    if i + 1 == |v| {
      assert v[..i + 1] == v;
      LinkedPrefix(root, v, i);
      IdsSnoc(v);
      DescOfAbsent(root, v[..i], v[i].id);
      DescIrreflexive(root, v, v[i].id);
      ParentEarlier(root, v, i);
      DescListed(v[..i], v[i].id);
    } else {
      var p, z := v[..|v| - 1], v[|v| - 1];
      DescBehind(root, p, i);
      assert p[..i + 1] == v[..i + 1];
    }
  }

  /** Shrinking the list shrinks what is below an entry. */
  lemma DescShrinks<N, P(!new)>(root: N, v: seq<Node<N, P>>, gone: set<N>, w: N)
    requires Linked(root, v)
    ensures Desc(Without(v, gone), w) <= Desc(v, w)
  {
    forall t | t in Without(v, gone) && (t.uplink == w || t.uplink in Desc(v, w)) ensures t.id in Desc(v, w) {
      WithoutMembers(v, gone, t);
      DescStep(root, v, w, t);
    }
    DescLeast(Without(v, gone), w, Desc(v, w));
  }

  // ---------------------------------------------------------------- counting

  /** The subtrees of the children of `w` found among the first `n` entries. */
  ghost function Covered<N, P>(v: seq<Node<N, P>>, w: N, n: nat): set<N>
    requires n <= |v|
  {
    if n == 0 then {}
    else if v[n - 1].uplink == w then Covered(v, w, n - 1) + Subtree(v, v[n - 1].id)
    else Covered(v, w, n - 1)
  }

  lemma {:induction false} CoveredMember<N, P>(v: seq<Node<N, P>>, w: N, n: nat, x: N)
    requires n <= |v|
    ensures x in Covered(v, w, n) <==> exists k :: 0 <= k < n && v[k].uplink == w && x in Subtree(v, v[k].id)
  {
    if n > 0 {
      CoveredMember(v, w, n - 1, x);
    }
  }

  /** The next child's subtree is disjoint from those already counted. */
  lemma CoveredDisjoint<N, P(!new)>(root: N, v: seq<Node<N, P>>, w: N, n: nat)
    requires Linked(root, v) && n < |v| && v[n].uplink == w
    ensures Covered(v, w, n) !! Subtree(v, v[n].id)
  {
    forall x | x in Covered(v, w, n) ensures x !in Subtree(v, v[n].id) {
      CoveredMember(v, w, n, x);
      var k :| 0 <= k < n && v[k].uplink == w && x in Subtree(v, v[k].id);
      DistinctPositions(root, v, k, n);
      SiblingsDisjoint(root, v, w, v[k], v[n]);
    }
  }

  lemma {:induction false} DistinctPositions<N, P(!new)>(root: N, v: seq<Node<N, P>>, i: nat, j: nat)
    requires Linked(root, v) && i < j < |v|
    ensures v[i].id != v[j].id
  {
    if j == |v| - 1 {
      assert v[i] in v[..|v| - 1];
    } else {
      DistinctPositions(root, v[..|v| - 1], i, j);
    }
  }

  /** All children together cover exactly the descendants. */
  lemma CoveredAll<N, P(!new)>(root: N, v: seq<Node<N, P>>, w: N)
    requires Linked(root, v)
    ensures Covered(v, w, |v|) == Desc(v, w)
  {
    var s := Covered(v, w, |v|);
    forall t | t in v && (t.uplink == w || t.uplink in s) ensures t.id in s {
      var k :| 0 <= k < |v| && v[k] == t;
      CoveredMember(v, w, |v|, t.id);
      if t.uplink in s && t.uplink != w {
        CoveredMember(v, w, |v|, t.uplink);
        var j :| 0 <= j < |v| && v[j].uplink == w && t.uplink in Subtree(v, v[j].id);
        DescStep(root, v, v[j].id, t);
      }
    }
    DescLeast(v, w, s);
    forall x | x in s ensures x in Desc(v, w) {
      CoveredMember(v, w, |v|, x);
      var k :| 0 <= k < |v| && v[k].uplink == w && x in Subtree(v, v[k].id);
      DescStep(root, v, w, v[k]);
      DescTransitive(root, v, w, v[k].id);
    }
  }

  /** Removing a set of listed ids shortens the list by exactly its size. */
  lemma {:induction false} WithoutLength<N, P(!new)>(root: N, v: seq<Node<N, P>>, gone: set<N>)
    requires Linked(root, v) && gone <= Ids(v)
    ensures |Without(v, gone)| == |v| - |gone|
  {
    if v != [] {
      var p, t := v[..|v| - 1], v[|v| - 1];
      IdsSnoc(v);
      if t.id in gone {
        WithoutLength(root, p, gone - {t.id});
        WithoutTwice(p, gone - {t.id}, {t.id});
        assert gone - {t.id} + {t.id} == gone;
        WithoutIds(p, gone - {t.id});
        WithoutNone(Without(p, gone - {t.id}), {t.id});
      } else {
        WithoutLength(root, p, gone);
      }
    }
  }
}
