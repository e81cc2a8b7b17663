/** A link joins two components: afterwards every list is again its component's tree. */
module Joining {
  import opened Wrappers
  import opened Forest
  import opened BotProtocol
  import opened LinkTree
  import opened Network

  /** What the list of a bot gains from lines that arrive from neighbour `p`. */
  ghost function Graft(p: string, s: seq<Msg>): View
    requires forall i :: 0 <= i < |s| ==> s[i].Nlinked?
  {
    seq(|s|, i requires 0 <= i < |s| => Node(s[i].bot, s[i].next, p, ()))
  }

  /** Everything that `a`'s side hears: the new bot `b`, then `b`'s list in order. */
  ghost function JoinStream(a: string, b: string, vb: View): (s: seq<Msg>)
    ensures |s| == |vb| + 1 && forall i :: 0 <= i < |s| ==> s[i].Nlinked?
  {
    [Nlinked(b, a)] + Dump(vb)
  }

  ghost function Parent(v: View, c: string): string {
    match Lookup(v, c)
    case None => c
    case Some(t) => t.uplink
  }

  /** One more than the place in the list; 0 for the root. */
  ghost function Place(v: View, c: string): nat {
    if v == [] then 0
    else if v[|v| - 1].id == c then |v|
    else Place(v[..|v| - 1], c)
  }

  lemma {:induction false} ParentFirst(me: string, v: View, t: Link)
    requires Linked(me, v) && t in v
    ensures Place(v, t.uplink) < Place(v, t.id)
  {
    InSnoc(v, t);
    LinkedPrefix(me, v, |v|);
    var p, z := v[..|v| - 1], v[|v| - 1];
    LinkedAt(me, v, t);
    PlaceBound(p, t.uplink);
    if t in p {
      ParentFirst(me, p, t);
      InIds(p, t);
      UplinkInComp(me, p, t);
    }
  }

  lemma {:induction false} PlaceBound(v: View, c: string)
    ensures Place(v, c) <= |v|
  {
    if v != [] { PlaceBound(v[..|v| - 1], c); }
  }

  lemma GraftSnoc(p: string, s: seq<Msg>, j: nat)
    requires j < |s| && forall i :: 0 <= i < |s| ==> s[i].Nlinked?
    ensures Graft(p, s[..j + 1]) == Graft(p, s[..j]) + [Node(s[j].bot, s[j].next, p, ())]
  {
  }

  lemma GraftIds(p: string, a: string, b: string, vb: View, j: nat)
    requires 1 <= j <= |vb| + 1
    ensures Ids(Graft(p, JoinStream(a, b, vb)[..j])) == {b} + Ids(vb[..j - 1])
  {
    var g := Graft(p, JoinStream(a, b, vb)[..j]);
    forall x | x in Ids(g) ensures x in {b} + Ids(vb[..j - 1]) {
      var i :| 0 <= i < |g| && g[i].id == x;
      if i > 0 { assert vb[..j - 1][i - 1] == vb[i - 1]; assert vb[i - 1] in vb[..j - 1]; }
    }
    forall x | x in {b} + Ids(vb[..j - 1]) ensures x in Ids(g) {
      if x == b {
        assert g[0] in g;
      } else {
        var i :| 0 <= i < j - 1 && vb[..j - 1][i].id == x;
        assert g[i + 1].id == x && g[i + 1] in g;
      }
    }
  }

  lemma IdsConcat(u: View, v: View)
    ensures Ids(u + v) == Ids(u) + Ids(v)
  {
    forall x | x in Ids(u) + Ids(v) ensures x in Ids(u + v) {
      if x in Ids(u) { var t :| t in u && t.id == x; assert t in u + v; }
      else { var t :| t in v && t.id == x; assert t in u + v; }
    }
  }

  /** The parent named by line `j` is listed, behind the hop `p`, once `j` lines are in. */
  ghost predicate NextListed(c: string, v: View, p: string, next: string) {
    if next == c then false else exists u :: u in v && u.id == next && u.via == p
  }

  /** `c` is `a` itself, joined through `b`, or lists `a` behind the hop `p`. */
  ghost predicate Reaches(c: string, vc: View, a: string, b: string, p: string) {
    if c == a then p == b else exists u :: u in vc && u.id == a && u.via == p
  }

  lemma GraftMember(vc: View, p: string, a: string, b: string, vb: View, j: nat, i: nat)
    requires i < j <= |vb| + 1
    ensures var t := if i == 0 then Node(b, a, p, ()) else Node(vb[i - 1].id, vb[i - 1].uplink, p, ());
            t in vc + Graft(p, JoinStream(a, b, vb)[..j])
  {
    var g := Graft(p, JoinStream(a, b, vb)[..j]);
    assert g[i] in vc + g;
  }

  /** Line `j` announces `b` or the next bot of `b`'s list, which stands nowhere before it. */
  lemma NotAnnouncedBefore(b: string, vb: View, j: nat)
    requires Linked(b, vb) && 0 < j <= |vb|
    ensures vb[j - 1].id in Ids(vb) && vb[j - 1].id != b && vb[j - 1].id !in Ids(vb[..j - 1])
  {
    LinkedPrefix(b, vb, j);
    assert vb[..j][..j - 1] == vb[..j - 1];
    InIds(vb, vb[j - 1]);
  }

  /** The bot that line `j` announces is not listed yet. */
  lemma AnnouncedAbsent(c: string, vc: View, a: string, b: string, vb: View, p: string, j: nat)
    requires Linked(b, vb) && c !in Comp(b, vb) && Ids(vc) !! Comp(b, vb)
    requires j < |vb| + 1
    ensures var s := JoinStream(a, b, vb);
            s[j].bot in Comp(b, vb) && s[j].bot != c && s[j].bot !in Ids(vc + Graft(p, s[..j]))
  {
    var g := Graft(p, JoinStream(a, b, vb)[..j]);
    IdsConcat(vc, g);
    if j == 0 {
      assert g == [];
    } else {
      GraftIds(p, a, b, vb, j);
      NotAnnouncedBefore(b, vb, j);
      assert JoinStream(a, b, vb)[j].bot == vb[j - 1].id;
    }
  }

  /** A later line names `b` or a bot of `b`'s list that was announced before. */
  lemma LaterParent(vc: View, a: string, b: string, vb: View, p: string, j: nat)
    requires Linked(b, vb) && 0 < j < |vb| + 1
    ensures exists u :: u in vc + Graft(p, JoinStream(a, b, vb)[..j]) && u.id == vb[j - 1].uplink && u.via == p
  {
    ParentEarlier(b, vb, j - 1);
    if vb[j - 1].uplink == b {
      GraftMember(vc, p, a, b, vb, j, 0);
    } else {
      var i :| 0 <= i < j - 1 && vb[i].id == vb[j - 1].uplink;
      GraftMember(vc, p, a, b, vb, j, i + 1);
    }
  }

  /** The parent that line `j` names is listed behind the hop the line comes from. */
  lemma ParentListed(c: string, vc: View, a: string, b: string, vb: View, p: string, j: nat)
    requires Linked(b, vb) && c !in Comp(b, vb) && a !in Comp(b, vb)
    requires Reaches(c, vc, a, b, p)
    requires j < |vb| + 1
    ensures var s := JoinStream(a, b, vb);
            && ((j == 0 && c == a) || NextListed(c, vc + Graft(p, s[..j]), p, s[j].next))
            && (if j == 0 then s[j].next == a else s[j].next in Comp(b, vb))
  {
    var s := JoinStream(a, b, vb);
    if j > 0 {
      assert s[j].next == vb[j - 1].uplink;
      LaterParent(vc, a, b, vb, p, j);
      UplinkInComp(b, vb, vb[j - 1]);
    } else if c != a {
      var u :| u in vc && u.id == a && u.via == p;
      assert u in vc + Graft(p, s[..j]);
    }
  }

  /** Line `j` attaches to what the lines before it have built. */
  lemma GraftAttaches(c: string, vc: View, a: string, b: string, vb: View, p: string, j: nat)
    requires Linked(b, vb) && c !in Comp(b, vb) && Ids(vc) !! Comp(b, vb) && a !in Comp(b, vb)
    requires Reaches(c, vc, a, b, p)
    requires j < |vb| + 1
    ensures var s := JoinStream(a, b, vb);
            Attached(c, vc + Graft(p, s[..j]), Node(s[j].bot, s[j].next, p, ()))
  {
    AnnouncedAbsent(c, vc, a, b, vb, p, j);
    ParentListed(c, vc, a, b, vb, p, j);
  }

  lemma {:induction false} GraftLinked(c: string, vc: View, a: string, b: string, vb: View, p: string, j: nat)
    requires Linked(c, vc) && Linked(b, vb) && c !in Comp(b, vb) && Ids(vc) !! Comp(b, vb) && a !in Comp(b, vb)
    requires Reaches(c, vc, a, b, p)
    requires j <= |vb| + 1
    ensures Linked(c, vc + Graft(p, JoinStream(a, b, vb)[..j]))
  {
    var s := JoinStream(a, b, vb);
    if j == 0 {
      assert vc + Graft(p, s[..0]) == vc;
    } else {
      GraftLinked(c, vc, a, b, vb, p, j - 1);
      GraftSnoc(p, s, j - 1);
      GraftAttaches(c, vc, a, b, vb, p, j - 1);
      var w := vc + Graft(p, s[..j - 1]);
      var z := Node(s[j - 1].bot, s[j - 1].next, p, ());
      assert vc + Graft(p, s[..j]) == w + [z];
      assert (w + [z])[..|w|] == w;
    }
  }

  /** Line `j` is accepted by `c` and grafts one more bot. */
  lemma GraftHandled(c: string, vc: View, a: string, b: string, vb: View, p: string, links: set<string>, j: nat)
    requires Linked(c, vc) && Linked(b, vb) && c !in Comp(b, vb) && Ids(vc) !! Comp(b, vb) && a !in Comp(b, vb)
    requires Reaches(c, vc, a, b, p)
    requires j < |vb| + 1 && p in links && (c == a ==> j >= 1)
    requires forall x :: x in Comp(b, vb) ==> ValidName(x)
    requires ValidName(a)
    ensures Handle(c, vc + Graft(p, JoinStream(a, b, vb)[..j]), links, p, JoinStream(a, b, vb)[j])
            == Forwarded(vc + Graft(p, JoinStream(a, b, vb)[..j + 1]))
  {
    var s := JoinStream(a, b, vb);
    var v := vc + Graft(p, s[..j]);
    AnnouncedAbsent(c, vc, a, b, vb, p, j);
    ParentListed(c, vc, a, b, vb, p, j);
    GraftLinked(c, vc, a, b, vb, p, j);
    var u :| u in v && u.id == s[j].next && u.via == p;
    NextBotIs(c, v, links, u);
    GraftSnoc(p, s, j);
    assert v + [Node(s[j].bot, s[j].next, p, ())] == vc + Graft(p, s[..j + 1]);
  }

  ghost function JoinedLinks(links: Edges, a: string, b: string): Edges {
    links + {(a, b), (b, a)}
  }

  lemma GraftEdges(vc: View, a: string, b: string, vb: View, p: string, links: Edges, t: Link)
    requires t in vc + Graft(p, JoinStream(a, b, vb))
    requires forall u :: u in vc ==> (u.id, u.uplink) in links
    requires forall u :: u in vb ==> (u.id, u.uplink) in links
    ensures (t.id, t.uplink) in JoinedLinks(links, a, b)
  {
    var g := Graft(p, JoinStream(a, b, vb));
    if t !in vc {
      var i :| 0 <= i < |g| && g[i] == t;
      if i > 0 { assert vb[i - 1] in vb; }
    }
  }

  lemma GraftCovers(c: string, vc: View, a: string, b: string, vb: View, p: string, links: Edges, x: string, y: string)
    requires Matches(c, vc, links) && Matches(b, vb, links)
    requires (x, y) in JoinedLinks(links, a, b) && x in Comp(c, vc) + Comp(b, vb)
    ensures TreeEdge(vc + Graft(p, JoinStream(a, b, vb)), x, y)
  {
    var s := JoinStream(a, b, vb);
    assert s[..|s|] == s;
    var v := vc + Graft(p, s);
    if (x, y) !in links {
      GraftMember(vc, p, a, b, vb, |s|, 0);
    } else if x in Comp(c, vc) {
      MatchEdge(c, vc, links, x, y);
      var t :| t in vc && ((t.id == x && t.uplink == y) || (t.id == y && t.uplink == x));
      assert t in v;
    } else {
      MatchEdge(b, vb, links, x, y);
      var i :| 0 <= i < |vb| && ((vb[i].id == x && vb[i].uplink == y) || (vb[i].id == y && vb[i].uplink == x));
      GraftMember(vc, p, a, b, vb, |s|, i + 1);
    }
  }

  /** The finished list is the tree of the joined component. */
  lemma GraftMatches(c: string, vc: View, a: string, b: string, vb: View, p: string, links: Edges)
    requires Matches(c, vc, links) && Matches(b, vb, links)
    requires c !in Comp(b, vb) && Ids(vc) !! Comp(b, vb) && a !in Comp(b, vb)
    requires Reaches(c, vc, a, b, p)
    ensures Matches(c, vc + Graft(p, JoinStream(a, b, vb)), JoinedLinks(links, a, b))
  {
    var s := JoinStream(a, b, vb);
    assert s[..|s|] == s;
    GraftLinked(c, vc, a, b, vb, p, |s|);
    var v := vc + Graft(p, s);
    forall t | t in v ensures (t.id, t.uplink) in JoinedLinks(links, a, b) {
      GraftEdges(vc, a, b, vb, p, links, t);
    }
    GraftIds(p, a, b, vb, |s|);
    assert vb[..|vb|] == vb;
    IdsConcat(vc, Graft(p, s));
    forall x, y | (x, y) in JoinedLinks(links, a, b) && x in Comp(c, v) ensures TreeEdge(v, x, y) {
      GraftCovers(c, vc, a, b, vb, p, links, x, y);
    }
  }

  // ------------------------------------------------------------- the flow of a join

  ghost function JoinFrom(va: View, vb: View, a: string, b: string, c: string): string {
    if c == a then b else if c == b then a
    else if c in Ids(va) then Parent(va, c)
    else if c in Ids(vb) then Parent(vb, c)
    else c
  }

  ghost function JoinLines(va: View, vb: View, a: string, b: string, c: string): (s: seq<Msg>)
    ensures forall i :: 0 <= i < |s| ==> s[i].Nlinked?
  {
    if c in Comp(a, va) then JoinStream(a, b, vb)
    else if c in Comp(b, vb) then JoinStream(b, a, va)
    else []
  }

  ghost function Afters(v: View, p: string, s: seq<Msg>): (w: seq<View>)
    requires forall i :: 0 <= i < |s| ==> s[i].Nlinked?
    ensures |w| == |s| + 1 && forall j :: 0 <= j <= |s| ==> w[j] == v + Graft(p, s[..j])
  {
    seq(|s| + 1, j requires 0 <= j <= |s| => v + Graft(p, s[..j]))
  }

  ghost function JoinFlow(n: Net, a: string, b: string): Flow
    requires a in n.views && b in n.views
  {
    var va, vb := n.views[a], n.views[b];
    Flow({a, b},
         map c | c in n.views :: JoinLines(va, vb, a, b, c),
         map c | c in n.views :: JoinFrom(va, vb, a, b, c),
         map c | c in n.views :: Afters(n.views[c], JoinFrom(va, vb, a, b, c), JoinLines(va, vb, a, b, c)),
         map c | c in n.views :: if c in Ids(va) then Place(va, c) else Place(vb, c))
  }

  /** The two components of a join have no bot in common, and know only existing bots. */
  lemma Apart(n: Net, a: string, b: string)
    requires Consistent(n) && CanLink(n, a, b)
    ensures Comp(a, n.views[a]) !! Comp(b, n.views[b])
    ensures Comp(a, n.views[a]) <= n.views.Keys && Comp(b, n.views[b]) <= n.views.Keys
    ensures Matches(a, n.views[a], n.links) && Matches(b, n.views[b], n.links)
  {
    var va, vb := n.views[a], n.views[b];
    assert Matches(a, va, n.links) && Matches(b, vb, n.links);
    forall x | x in Comp(a, va) ensures x !in Comp(b, vb) {
      if x in Comp(b, vb) { MeetingComps(a, va, b, vb, n.links, x); }
    }
    CompKnown(n, a);
    CompKnown(n, b);
  }

  lemma CompKnown(n: Net, a: string)
    requires WellNamed(n) && a in n.views && Matches(a, n.views[a], n.links)
    ensures Comp(a, n.views[a]) <= n.views.Keys
  {
    forall x | x in Ids(n.views[a]) ensures x in n.views {
      var t :| t in n.views[a] && t.id == x;
      assert (t.id, t.uplink) in n.links;
    }
  }

  /** A bot of `a`'s component hears the join from its parent in `a`'s list, which leads it to `a`. */
  lemma SideReaches(n: Net, a: string, b: string, c: string)
    requires Consistent(n) && CanLink(n, a, b) && c in Comp(a, n.views[a])
    ensures c in n.views && Matches(c, n.views[c], n.links)
    ensures Comp(c, n.views[c]) == Comp(a, n.views[a]) && Comp(a, n.views[a]) !! Comp(b, n.views[b])
    ensures Reaches(c, n.views[c], a, b, JoinFrom(n.views[a], n.views[b], a, b, c))
    ensures (JoinFrom(n.views[a], n.views[b], a, b, c), c) in JoinedLinks(n.links, a, b)
    ensures c != a ==> JoinFrom(n.views[a], n.views[b], a, b, c) in Comp(a, n.views[a])
    ensures c != a ==> exists t :: t in n.views[a] && t.id == c && t.uplink == JoinFrom(n.views[a], n.views[b], a, b, c)
  {
    Apart(n, a, b);
    var va := n.views[a];
    assert Matches(c, n.views[c], n.links);
    CompSymmetric(a, va, c, n.views[c], n.links);
    if c != a {
      var t :| t in va && t.id == c;
      LookupFinds(a, va, t);
      var u, z := FirstHopIsParent(a, va, c, n.views[c], n.links, t);
      UplinkInComp(a, va, t);
    }
  }

  lemma Swap(n: Net, a: string, b: string, c: string)
    requires Consistent(n) && CanLink(n, a, b)
    ensures var va, vb := n.views[a], n.views[b];
            JoinFrom(va, vb, a, b, c) == JoinFrom(vb, va, b, a, c) && JoinLines(va, vb, a, b, c) == JoinLines(vb, va, b, a, c)
  {
    Apart(n, a, b);
  }

  lemma SideHandled(n: Net, a: string, b: string, c: string, j: nat)
    requires Consistent(n) && CanLink(n, a, b) && c in Comp(a, n.views[a])
    requires (if c == a then 1 else 0) <= j < |n.views[b]| + 1
    ensures c in n.views
    ensures var va, vb := n.views[a], n.views[b];
            var p, s := JoinFrom(va, vb, a, b, c), JoinStream(a, b, vb);
            Handle(c, n.views[c] + Graft(p, s[..j]), Nbrs(JoinedLinks(n.links, a, b), c), p, s[j])
            == Forwarded(n.views[c] + Graft(p, s[..j + 1]))
  {
    SideReaches(n, a, b, c);
    Apart(n, a, b);
    var p := JoinFrom(n.views[a], n.views[b], a, b, c);
    var links' := JoinedLinks(n.links, a, b);
    assert (c, p) in links';
    InNbrs(links', c, p);
    GraftHandled(c, n.views[c], a, b, n.views[b], p, Nbrs(links', c), j);
  }

  lemma SidePassedOn(n: Net, a: string, b: string, x: string, y: string)
    requires Consistent(n) && CanLink(n, a, b) && x in Comp(a, n.views[a])
    requires (x, y) in JoinedLinks(n.links, a, b)
    requires y != JoinFrom(n.views[a], n.views[b], a, b, x)
    ensures y in n.views && JoinFrom(n.views[a], n.views[b], a, b, y) == x && y != a && y != b && y in Comp(a, n.views[a])
  {
    var va := n.views[a];
    Apart(n, a, b);
    assert x == b ==> b in Comp(a, va);
    assert (x, y) in n.links;
    MatchEdge(a, va, n.links, x, y);
    var t :| t in va && ((t.id == x && t.uplink == y) || (t.id == y && t.uplink == x));
    LookupFinds(a, va, t);
    LinkedAt(a, va, t);
    InIds(va, t);
  }

  lemma JoinRoute(n: Net, a: string, b: string, x: string, y: string)
    requires Consistent(n) && CanLink(n, a, b) && (x, y) in JoinedLinks(n.links, a, b)
    ensures var va, vb := n.views[a], n.views[b];
            && x in n.views && y in n.views && x != y
            && (JoinLines(va, vb, a, b, x) != [] && y != JoinFrom(va, vb, a, b, x) ==>
                  JoinFrom(va, vb, a, b, y) == x && y != a && y != b && JoinLines(va, vb, a, b, y) == JoinLines(va, vb, a, b, x))
  {
    var va, vb := n.views[a], n.views[b];
    if y != JoinFrom(va, vb, a, b, x) && x in Comp(a, va) {
      SidePassedOn(n, a, b, x, y);
    } else if y != JoinFrom(va, vb, a, b, x) && x in Comp(b, vb) {
      Swap(n, a, b, x);
      Swap(n, a, b, y);
      SidePassedOn(n, b, a, x, y);
      Apart(n, a, b);
    }
  }

  lemma JoinPassedOn(n: Net, a: string, b: string, x: string, y: string)
    requires Consistent(n) && CanLink(n, a, b) && (x, y) in JoinedLinks(n.links, a, b)
    requires FlowShape(JoinFlow(n, a, b), n.views.Keys)
    ensures PassedOn(JoinFlow(n, a, b), n.views.Keys, x, y)
  {
    JoinRoute(n, a, b, x, y);
  }

  lemma SideFed(n: Net, a: string, b: string, c: string)
    requires Consistent(n) && CanLink(n, a, b) && c in Comp(a, n.views[a]) && c != a
    ensures var va, vb := n.views[a], n.views[b];
            var p := JoinFrom(va, vb, a, b, c);
            && (p, c) in JoinedLinks(n.links, a, b) && p in n.views && p in Comp(a, va)
            && Place(va, p) < Place(va, c)
  {
    var va, vb := n.views[a], n.views[b];
    SideReaches(n, a, b, c);
    Apart(n, a, b);
    var t :| t in va && t.id == c && t.uplink == JoinFrom(va, vb, a, b, c);
    ParentFirst(a, va, t);
  }

  lemma {:induction false} PlaceOfAbsent(v: View, c: string)
    requires c !in Ids(v)
    ensures Place(v, c) == 0
  {
    if v != [] {
      IdsSnoc(v);
      PlaceOfAbsent(v[..|v| - 1], c);
    }
  }

  lemma JoinFed(n: Net, a: string, b: string, c: string)
    requires Consistent(n) && CanLink(n, a, b) && c in n.views
    requires FlowShape(JoinFlow(n, a, b), n.views.Keys)
    ensures FedBy(JoinFlow(n, a, b), JoinedLinks(n.links, a, b), n.views.Keys, c)
  {
    var va, vb := n.views[a], n.views[b];
    Apart(n, a, b);
    Swap(n, a, b, c);
    LinkedPrefix(a, va, |va|);
    LinkedPrefix(b, vb, |vb|);
    PlaceOfAbsent(va, a);
    PlaceOfAbsent(vb, a);
    PlaceOfAbsent(vb, b);
    if c in Ids(va) {
      SideFed(n, a, b, c);
    } else if c in Ids(vb) {
      SideFed(n, b, a, c);
    }
  }

  lemma JoinHandled(n: Net, a: string, b: string, c: string, j: nat)
    requires Consistent(n) && CanLink(n, a, b) && c in n.views
    requires FlowShape(JoinFlow(n, a, b), n.views.Keys)
    requires First(JoinFlow(n, a, b), c) <= j < |JoinFlow(n, a, b).stream[c]|
    ensures HandledAt(JoinFlow(n, a, b), JoinedLinks(n.links, a, b), n.views.Keys, c, j)
  {
    var va, vb := n.views[a], n.views[b];
    Apart(n, a, b);
    Swap(n, a, b, c);
    assert JoinedLinks(n.links, a, b) == JoinedLinks(n.links, b, a);
    if c in Comp(a, va) {
      SideHandled(n, a, b, c, j);
    } else {
      SideHandled(n, b, a, c, j);
    }
  }

  lemma JoinShape(n: Net, a: string, b: string)
    requires Consistent(n) && CanLink(n, a, b)
    ensures FlowShape(JoinFlow(n, a, b), n.views.Keys)
  {
  }

  lemma JoinFlowOk(n: Net, a: string, b: string)
    requires Consistent(n) && CanLink(n, a, b)
    ensures FlowOk(JoinFlow(n, a, b), JoinedLinks(n.links, a, b), n.views.Keys)
  {
    JoinShape(n, a, b);
    var f, links, bots := JoinFlow(n, a, b), JoinedLinks(n.links, a, b), n.views.Keys;
    forall c, j | c in bots && First(f, c) <= j < |f.stream[c]| ensures HandledAt(f, links, bots, c, j) {
      JoinHandled(n, a, b, c, j);
    }
    forall x, y | (x, y) in links ensures PassedOn(f, bots, x, y) {
      JoinPassedOn(n, a, b, x, y);
    }
    forall c | c in bots ensures FedBy(f, links, bots, c) {
      JoinFed(n, a, b, c);
    }
  }

  // ------------------------------------------------------------- start, run, end

  ghost function Start(f: Flow): map<string, nat> {
    map c | c in f.stream :: First(f, c)
  }

  lemma LinkUpQueue(n: Net, a: string, b: string, x: string, y: string)
    requires CanLink(n, a, b) && (x, y) in JoinedLinks(n.links, a, b)
    ensures Queue(LinkUp(n, a, b), x, y) ==
            if (x, y) == (a, b) then Dump(n.views[a])
            else if (x, y) == (b, a) then Dump(n.views[b])
            else if x == a then Queue(n, x, y) + [Nlinked(b, a)]
            else if x == b then Queue(n, x, y) + [Nlinked(a, b)]
            else Queue(n, x, y)
  {
  }

  lemma StartQueue(n: Net, a: string, b: string, x: string, y: string, q: seq<Msg>)
    requires Consistent(n) && CanLink(n, a, b) && (x, y) in JoinedLinks(n.links, a, b)
    requires x in n.views && y in n.views && FlowShape(JoinFlow(n, a, b), n.views.Keys)
    requires Start(JoinFlow(n, a, b)).Keys == n.views.Keys && CountAt(JoinFlow(n, a, b), n.views.Keys, Start(JoinFlow(n, a, b)), y)
    requires PassedOn(JoinFlow(n, a, b), n.views.Keys, x, y)
    requires q == if (x, y) == (a, b) then Dump(n.views[a])
                  else if (x, y) == (b, a) then Dump(n.views[b])
                  else if x == a then [Nlinked(b, a)]
                  else if x == b then [Nlinked(a, b)]
                  else []
    ensures QueueAt(q, JoinFlow(n, a, b), n.views.Keys, Start(JoinFlow(n, a, b)), x, y)
  {
    Apart(n, a, b);
    var f := JoinFlow(n, a, b);
    var k := Start(f);
    if y in f.origins {
      if f.from[y] == x {
        assert f.stream[y][1..] == q;
      }
    } else if x in f.origins {
      assert f.from[y] == x && f.stream[y] == f.stream[x];
      assert f.stream[y][0..1] == q;
    }
  }

  lemma StartQueueAt(n: Net, a: string, b: string, x: string, y: string)
    requires Consistent(n) && CanLink(n, a, b) && (x, y) in JoinedLinks(n.links, a, b)
    requires x in n.views && y in n.views && FlowShape(JoinFlow(n, a, b), n.views.Keys)
    requires Start(JoinFlow(n, a, b)).Keys == n.views.Keys && CountAt(JoinFlow(n, a, b), n.views.Keys, Start(JoinFlow(n, a, b)), y)
    requires PassedOn(JoinFlow(n, a, b), n.views.Keys, x, y)
    ensures QueueAt(Queue(LinkUp(n, a, b), x, y), JoinFlow(n, a, b), n.views.Keys, Start(JoinFlow(n, a, b)), x, y)
  {
    LinkUpQueue(n, a, b, x, y);
    StartQueue(n, a, b, x, y, Queue(LinkUp(n, a, b), x, y));
  }

  lemma StartQueues(n: Net, a: string, b: string)
    requires Consistent(n) && CanLink(n, a, b)
    requires FlowOk(JoinFlow(n, a, b), JoinedLinks(n.links, a, b), n.views.Keys)
    requires Counts(JoinFlow(n, a, b), n.views.Keys, Start(JoinFlow(n, a, b)))
    ensures Queues(LinkUp(n, a, b), JoinFlow(n, a, b), JoinedLinks(n.links, a, b), n.views.Keys, Start(JoinFlow(n, a, b)))
  {
    var f, links, bots, n' := JoinFlow(n, a, b), JoinedLinks(n.links, a, b), n.views.Keys, LinkUp(n, a, b);
    var k := Start(f);
    forall x, y | (x, y) in links
      ensures x in bots && y in bots && CountAt(f, bots, k, y) && QueueAt(Queue(n', x, y), f, bots, k, x, y)
    {
      assert PassedOn(f, bots, x, y);
      assert CountAt(f, bots, k, y);
      StartQueueAt(n, a, b, x, y);
    }
  }

  lemma StartCounts(n: Net, a: string, b: string)
    requires Consistent(n) && CanLink(n, a, b)
    requires FlowOk(JoinFlow(n, a, b), JoinedLinks(n.links, a, b), n.views.Keys)
    ensures Counts(JoinFlow(n, a, b), n.views.Keys, Start(JoinFlow(n, a, b)))
  {
    var f, bots := JoinFlow(n, a, b), n.views.Keys;
    forall c | c in bots ensures CountAt(f, bots, Start(f), c) {
      assert FedBy(f, JoinedLinks(n.links, a, b), bots, c);
    }
  }

  /** The link event itself puts the net at the start of the wave. */
  lemma JoinStarts(n: Net, a: string, b: string)
    requires Consistent(n) && CanLink(n, a, b)
    ensures During(LinkUp(n, a, b), JoinFlow(n, a, b), JoinedLinks(n.links, a, b), Start(JoinFlow(n, a, b)))
    ensures LinkUp(n, a, b).views.Keys == n.views.Keys
  {
    JoinFlowOk(n, a, b);
    var f, links, bots, n' := JoinFlow(n, a, b), JoinedLinks(n.links, a, b), n.views.Keys, LinkUp(n, a, b);
    assert n'.views.Keys == bots;
    StartCounts(n, a, b);
    StartQueues(n, a, b);
    forall c | c in bots ensures Start(f)[c] < |f.after[c]| && n'.views[c] == f.after[c][Start(f)[c]] {
      StartView(n, a, b, c);
    }
  }

  lemma LinkUpView(n: Net, a: string, b: string, c: string)
    requires CanLink(n, a, b) && c in n.views
    ensures c in LinkUp(n, a, b).views
    ensures LinkUp(n, a, b).views[c] == n.views[c] + (if c == a then [Node(b, a, b, ())] else if c == b then [Node(a, b, a, ())] else [])
  {
    assert n.views[c] + [] == n.views[c];
  }

  lemma FirstGraft(va: View, vb: View, a: string, b: string, c: string)
    requires a != b && b !in Comp(a, va)
    ensures var s, p := JoinLines(va, vb, a, b, c), JoinFrom(va, vb, a, b, c);
            if c == a then Graft(p, s[..1]) == [Node(b, a, b, ())]
            else if c == b then Graft(p, s[..1]) == [Node(a, b, a, ())]
            else Graft(p, s[..0]) == []
  {
  }

  lemma StartView(n: Net, a: string, b: string, c: string)
    requires Consistent(n) && CanLink(n, a, b) && c in n.views
    requires FlowShape(JoinFlow(n, a, b), n.views.Keys)
    ensures LinkUp(n, a, b).views[c] == JoinFlow(n, a, b).after[c][First(JoinFlow(n, a, b), c)]
  {
    LinkUpView(n, a, b, c);
    FirstGraft(n.views[a], n.views[b], a, b, c);
  }

  /** When everybody has taken its whole stream, every list is right. */
  lemma JoinEndView(n: Net, a: string, b: string, c: string)
    requires Consistent(n) && CanLink(n, a, b) && c in n.views
    requires FlowShape(JoinFlow(n, a, b), n.views.Keys)
    ensures var f := JoinFlow(n, a, b);
            Matches(c, f.after[c][|f.stream[c]|], JoinedLinks(n.links, a, b))
  {
    var f := JoinFlow(n, a, b);
    var va, vb := n.views[a], n.views[b];
    Apart(n, a, b);
    Swap(n, a, b, c);
    var s, p := f.stream[c], f.from[c];
    assert s[..|s|] == s;
    assert JoinedLinks(n.links, a, b) == JoinedLinks(n.links, b, a);
    if c in Comp(a, va) {
      SideReaches(n, a, b, c);
      GraftMatches(c, n.views[c], a, b, vb, p, n.links);
    } else if c in Comp(b, vb) {
      SideReaches(n, b, a, c);
      GraftMatches(c, n.views[c], b, a, va, p, n.links);
    } else {
      assert n.views[c] + Graft(p, s) == n.views[c];
      Untouched(n, a, b, c);
    }
  }

  lemma Untouched(n: Net, a: string, b: string, c: string)
    requires Consistent(n) && CanLink(n, a, b) && c in n.views
    requires c !in Comp(a, n.views[a]) && c !in Comp(b, n.views[b])
    ensures Matches(c, n.views[c], JoinedLinks(n.links, a, b))
  {
    var vc := n.views[c];
    Apart(n, a, b);
    assert Matches(c, vc, n.links);
    if a in Comp(c, vc) { MeetingComps(a, n.views[a], c, vc, n.links, a); }
    if b in Comp(c, vc) { MeetingComps(b, n.views[b], c, vc, n.links, b); }
    forall x, y | (x, y) in JoinedLinks(n.links, a, b) && x in Comp(c, vc) ensures TreeEdge(vc, x, y) {
      MatchEdge(c, vc, n.links, x, y);
    }
  }

  /** How many deliveries a wave takes. */
  ghost function Work(f: Flow): int {
    Total(Lengths(f)) - Total(Start(f))
  }

  lemma JoinOrigins(n: Net, a: string, b: string, o: string)
    requires CanLink(n, a, b) && o in JoinFlow(n, a, b).origins
    ensures (JoinFlow(n, a, b).from[o], o) in JoinedLinks(n.links, a, b)
  {
  }

  lemma JoinEndAt(n: Net, a: string, b: string, z: Net, k: map<string, nat>, c: string)
    requires Consistent(n) && CanLink(n, a, b) && z.views.Keys == n.views.Keys && c in z.views
    requires During(z, JoinFlow(n, a, b), JoinedLinks(n.links, a, b), k) && Quiet(z)
    ensures Matches(c, z.views[c], JoinedLinks(n.links, a, b))
  {
    var f, links := JoinFlow(n, a, b), JoinedLinks(n.links, a, b);
    forall o | o in z.views && o in f.origins ensures (f.from[o], o) in links {
      JoinOrigins(n, a, b, o);
    }
    QuietMeansDone(z, f, links, k, c);
    JoinEndView(n, a, b, c);
  }

  lemma JoinedWellNamed(n: Net, a: string, b: string, z: Net)
    requires WellNamed(n) && CanLink(n, a, b)
    requires z.views.Keys == n.views.Keys && z.links == JoinedLinks(n.links, a, b)
    ensures WellNamed(z)
  {
  }

  lemma JoinEnds(n: Net, a: string, b: string, z: Net, k: map<string, nat>)
    requires Consistent(n) && CanLink(n, a, b) && z.views.Keys == n.views.Keys
    requires During(z, JoinFlow(n, a, b), JoinedLinks(n.links, a, b), k) && Quiet(z)
    ensures AllMatch(z)
  {
    forall c | c in z.views ensures Matches(c, z.views[c], z.links) {
      JoinEndAt(n, a, b, z, k, c);
    }
  }

  /** After a link joins two components, deliveries in any order never lead to a
      refusal, end after a fixed number of steps, and once nothing is under way every
      bot's list is exactly the tree of the joined component, rooted at itself. */
  lemma JoinConverges(n: Net, a: string, b: string, r: seq<Net>)
    requires Consistent(n) && CanLink(n, a, b)
    requires Run(r) && r[0] == LinkUp(n, a, b)
    ensures !r[|r| - 1].fault && r[|r| - 1].links == JoinedLinks(n.links, a, b)
    ensures |r| - 1 <= Work(JoinFlow(n, a, b))
    ensures Quiet(r[|r| - 1]) ==> Consistent(r[|r| - 1])
  {
    var f, links := JoinFlow(n, a, b), JoinedLinks(n.links, a, b);
    JoinStarts(n, a, b);
    var k := RunDuring(r, f, links, Start(f));
    RunBounded(r[|r| - 1], f, links, k);
    if Quiet(r[|r| - 1]) {
      JoinedWellNamed(n, a, b, r[|r| - 1]);
      JoinEnds(n, a, b, r[|r| - 1], k);
    }
  }
}
