/** When a bot's view is exactly the tree of links of its component, rooted at itself. */
module LinkTree {
  import opened Forest
  import opened BotProtocol

  type Edges = set<(string, string)>

  ghost predicate Symmetric(links: Edges) {
    forall x, y :: (x, y) in links ==> (y, x) in links && x != y
  }

  ghost function Nbrs(links: Edges, c: string): set<string> {
    set e | e in links && e.0 == c :: e.1
  }

  /** The bot itself and everyone it lists. */
  ghost function Comp(me: string, v: View): set<string> {
    Ids(v) + {me}
  }

  ghost predicate TreeEdge(v: View, x: string, y: string) {
    exists t :: t in v && ((t.id == x && t.uplink == y) || (t.id == y && t.uplink == x))
  }

  /** A linked list all of whose parent pointers are links, and which has every
      link that touches a listed bot (or the bot itself) as a parent pointer. */
  ghost predicate Matches(me: string, v: View, links: Edges) {
    && Linked(me, v)
    && (forall t :: t in v ==> (t.id, t.uplink) in links)
    && (forall x, y {:trigger TreeEdge(v, x, y)} :: (x, y) in links && x in Comp(me, v) ==> TreeEdge(v, x, y))
  }

  // ------------------------------------------------------------- components

  ghost predicate ClosedUnder(links: Edges, s: set<string>) {
    forall x, y :: (x, y) in links && x in s ==> y in s
  }

  lemma InIds(v: View, t: Link)
    requires t in v
    ensures t.id in Ids(v)
  {
  }

  lemma UplinkInComp(me: string, v: View, t: Link)
    requires Linked(me, v) && t in v
    ensures t.uplink in Comp(me, v)
  {
    LinkedAt(me, v, t);
    if t.uplink != me {
      var u :| u in v && u.id == t.uplink && u.via == t.via;
      InIds(v, u);
    }
  }

  lemma CompClosed(me: string, v: View, links: Edges)
    requires Matches(me, v, links)
    ensures ClosedUnder(links, Comp(me, v))
  {
    forall x, y | (x, y) in links && x in Comp(me, v) ensures y in Comp(me, v) {
      assert TreeEdge(v, x, y);
      var t :| t in v && ((t.id == x && t.uplink == y) || (t.id == y && t.uplink == x));
      InIds(v, t);
      UplinkInComp(me, v, t);
    }
  }

  /** A closed set that holds the root holds the whole component ... */
  lemma {:induction false} ClosedHoldsComp(me: string, v: View, links: Edges, s: set<string>)
    requires Symmetric(links) && Linked(me, v) && (forall t :: t in v ==> (t.id, t.uplink) in links)
    requires ClosedUnder(links, s) && me in s
    ensures Comp(me, v) <= s
  {
    if v != [] {
      var p, z := v[..|v| - 1], v[|v| - 1];
      forall t | t in p ensures t in v { InSnoc(v, t); }
      ClosedHoldsComp(me, p, links, s);
      IdsSnoc(v);
      assert z in v;
      if z.uplink != me {
        var u :| u in p && u.id == z.uplink && u.via == z.via;
        InIds(p, u);
      }
      assert (z.uplink, z.id) in links;
    }
  }

  /** ... and one that holds any member holds the root. */
  lemma {:induction false} ClosedHoldsRoot(me: string, v: View, links: Edges, s: set<string>, t: Link)
    requires Linked(me, v) && t in v && (forall u :: u in v ==> (u.id, u.uplink) in links)
    requires ClosedUnder(links, s) && t.id in s
    ensures me in s
  {
    var p, z := v[..|v| - 1], v[|v| - 1];
    forall u | u in p ensures u in v { InSnoc(v, u); }
    InSnoc(v, t);
    if t in p {
      ClosedHoldsRoot(me, p, links, s, t);
    } else if z.uplink != me {
      var u :| u in p && u.id == z.uplink && u.via == z.via;
      ClosedHoldsRoot(me, p, links, s, u);
    }
  }

  lemma MeetingComps(r: string, vr: View, s: string, vs: View, links: Edges, x: string)
    requires Symmetric(links) && Matches(r, vr, links) && Matches(s, vs, links)
    requires x in Comp(r, vr) && x in Comp(s, vs)
    ensures Comp(r, vr) == Comp(s, vs)
  {
    HalfMeetingComps(r, vr, s, vs, links, x);
    HalfMeetingComps(s, vs, r, vr, links, x);
  }

  lemma HalfMeetingComps(r: string, vr: View, s: string, vs: View, links: Edges, x: string)
    requires Symmetric(links) && Matches(r, vr, links) && Matches(s, vs, links)
    requires x in Comp(r, vr) && x in Comp(s, vs)
    ensures Comp(r, vr) <= Comp(s, vs)
  {
    CompClosed(s, vs, links);
    if x != r {
      var t :| t in vr && t.id == x;
      ClosedHoldsRoot(r, vr, links, Comp(s, vs), t);
    }
    ClosedHoldsComp(r, vr, links, Comp(s, vs));
  }

  /** A path over links. */
  ghost predicate Path(links: Edges, p: seq<string>, a: string, b: string) {
    && p != [] && p[0] == a && p[|p| - 1] == b
    && forall i :: 0 <= i < |p| - 1 ==> (p[i], p[i + 1]) in links
  }

  /** The listed bots are exactly the bots that links can reach. */
  lemma MatchesIsComponent(me: string, v: View, links: Edges, x: string)
    requires Symmetric(links) && Matches(me, v, links)
    ensures x in Comp(me, v) <==> exists p :: Path(links, p, me, x)
  {
    if x in Comp(me, v) {
      var p := PathTo(me, v, links, x);
    }
    forall p | Path(links, p, me, x) ensures x in Comp(me, v) {
      CompClosed(me, v, links);
      PathStays(links, p, me, x, Comp(me, v));
    }
  }

  lemma {:induction false} PathTo(me: string, v: View, links: Edges, x: string) returns (p: seq<string>)
    requires Symmetric(links) && Linked(me, v) && (forall t :: t in v ==> (t.id, t.uplink) in links)
    requires x in Comp(me, v)
    ensures Path(links, p, me, x)
  {
    if x == me {
      p := [me];
    } else {
      var w, z := v[..|v| - 1], v[|v| - 1];
      IdsSnoc(v);
      forall t | t in w ensures t in v { InSnoc(v, t); }
      if x in Ids(w) {
        p := PathTo(me, w, links, x);
      } else {
        assert z in v;
        if z.uplink != me {
          var u :| u in w && u.id == z.uplink && u.via == z.via;
          InIds(w, u);
        }
        var q := PathTo(me, w, links, z.uplink);
        p := q + [z.id];
      }
    }
  }

  lemma {:induction false} PathStays(links: Edges, p: seq<string>, a: string, b: string, s: set<string>)
    requires Path(links, p, a, b) && ClosedUnder(links, s) && a in s
    ensures b in s
  {
    if |p| > 1 {
      assert (p[0], p[1]) in links;
      PathStays(links, p[1..], p[1], b, s);
    }
  }

  // ------------------------------------------------------------- two roots

  lemma MatchEdge(me: string, v: View, links: Edges, x: string, y: string)
    requires Matches(me, v, links) && (x, y) in links && x in Comp(me, v)
    ensures TreeEdge(v, x, y)
  {
  }

  /** Walking up `a`'s list from `c`, the step from `t` to its parent is, seen from
      `c`, a step away through the hop `hop`; so is every later step up to `a`. */
  lemma {:induction false} Ascend(a: string, va: View, c: string, vc: View, links: Edges, t: Link, s: Link)
      returns (u: Link, z: Link)
    requires Symmetric(links) && Matches(a, va, links) && Matches(c, vc, links)
    requires t in va && c in Subtree(va, t.id)
    requires s in vc && s.id == t.uplink && s.uplink == t.id
    ensures u in va && u.uplink == a && c in Subtree(va, u.id)
    ensures z in vc && z.id == a && z.uplink == u.id && z.via == s.via
    decreases Ids(va) - Subtree(va, t.id)
  {
    if t.uplink == a {
      u, z := t, s;
    } else {
      LinkedAt(a, va, t);
      var t' :| t' in va && t'.id == t.uplink && t'.via == t.via;
      InIds(vc, s);
      assert (t'.id, t'.uplink) in links && t'.id in Comp(c, vc);
      MatchEdge(c, vc, links, t'.id, t'.uplink);
      DescStep(a, va, t'.id, t);
      DescTransitive(a, va, t'.id, t.id);
      AncestorNotBelow(a, va, t, t'.id);
      DescStep(a, va, t.id, t');
      var w :| w in vc && ((w.id == t'.id && w.uplink == t'.uplink) || (w.id == t'.uplink && w.uplink == t'.id));
      if w.id == t'.id {
        UniqueIds(c, vc, w, s);
        assert false;
      }
      LinkedAt(c, vc, s);
      LinkedAt(c, vc, w);
      var x :| x in vc && x.id == w.uplink && x.via == w.via;
      UniqueIds(c, vc, x, s);
      InIds(va, t');
      u, z := Ascend(a, va, c, vc, links, t', w);
    }
  }

  /** The first hop from `c` towards `a` is the parent of `c` in `a`'s list. */
  lemma FirstHopIsParent(a: string, va: View, c: string, vc: View, links: Edges, t: Link) returns (u: Link, z: Link)
    requires Symmetric(links) && Matches(a, va, links) && Matches(c, vc, links)
    requires t in va && t.id == c
    ensures z in vc && z.id == a && z.via == t.uplink
    ensures u in va && u.uplink == a && c in Subtree(va, u.id) && z.uplink == u.id
  {
    MatchEdge(c, vc, links, c, t.uplink);
    LinkedPrefix(c, vc, |vc|);
    var s :| s in vc && ((s.id == c && s.uplink == t.uplink) || (s.id == t.uplink && s.uplink == c));
    InIds(vc, s);
    LinkedAt(c, vc, s);
    u, z := Ascend(a, va, c, vc, links, t, s);
  }

  lemma CompSymmetric(a: string, va: View, c: string, vc: View, links: Edges)
    requires Symmetric(links) && Matches(a, va, links) && Matches(c, vc, links)
    requires c in Comp(a, va)
    ensures Comp(c, vc) == Comp(a, va)
  {
    MeetingComps(a, va, c, vc, links, c);
  }
}
