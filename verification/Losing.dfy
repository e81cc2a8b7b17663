/** A link is lost: afterwards every list is again its (smaller) component's tree. */
module Losing {
  import opened Forest
  import opened BotProtocol
  import opened LinkTree
  import opened Network
  import opened Joining

  ghost function CutLinks(links: Edges, a: string, b: string): Edges {
    links - {(a, b), (b, a)}
  }

  ghost predicate Severable(n: Net, a: string, b: string) {
    Consistent(n) && a in n.views && b in n.views && (a, b) in n.links
  }

  /** The bots left on `a`'s side of the lost link. */
  ghost predicate Side(va: View, a: string, b: string, c: string) {
    c in Comp(a, va) && c !in Subtree(va, b)
  }

  lemma NeighbourListed(a: string, va: View, b: string, links: Edges)
    requires Matches(a, va, links) && (a, b) in links
    ensures exists t :: t in va && t.id == b && t.uplink == a && t.via == b
  {
    MatchEdge(a, va, links, a, b);
    LinkedPrefix(a, va, |va|);
    var t :| t in va && ((t.id == a && t.uplink == b) || (t.id == b && t.uplink == a));
    InIds(va, t);
    LinkedAt(a, va, t);
  }

  /** A bot of `a`'s side lists `b` right below `a`, behind its own parent in `a`'s list. */
  lemma SideSees(n: Net, a: string, b: string, c: string)
    requires Severable(n, a, b) && Side(n.views[a], a, b, c)
    ensures c in n.views && Matches(c, n.views[c], n.links) && Matches(a, n.views[a], n.links) && c != b
    ensures Comp(c, n.views[c]) == Comp(a, n.views[a])
    ensures exists t :: t in n.views[c] && t.id == b && t.uplink == a
                        && (c == a ==> t.via == b)
                        && (c != a ==> t.via == Parent(n.views[a], c))
    ensures c != a ==> exists s :: s in n.views[a] && s.id == c && s.uplink == Parent(n.views[a], c)
  {
    var va := n.views[a];
    assert Matches(a, va, n.links);
    CompKnown(n, a);
    var vc := n.views[c];
    assert Matches(c, vc, n.links);
    CompSymmetric(a, va, c, vc, n.links);
    NeighbourListed(a, va, b, n.links);
    if c != a {
      var s :| s in va && s.id == c;
      LookupFinds(a, va, s);
      var u, z := FirstHopIsParent(a, va, c, vc, n.links, s);
      MatchEdge(c, vc, n.links, a, b);
      var t :| t in vc && ((t.id == a && t.uplink == b) || (t.id == b && t.uplink == a));
      if t.id == a {
        UniqueIds(c, vc, t, z);
        assert false;
      }
      LinkedAt(c, vc, t);
      var w :| w in vc && w.id == a && w.via == t.via;
      UniqueIds(c, vc, w, z);
    }
  }

  /** Every bot of the component ends up on exactly one side. */
  lemma Sides(n: Net, a: string, b: string, c: string)
    requires Severable(n, a, b) && (b, a) in n.links
    ensures Comp(a, n.views[a]) == Comp(b, n.views[b])
    ensures !(Side(n.views[a], a, b, c) && Side(n.views[b], b, a, c))
    ensures c in Comp(a, n.views[a]) ==> Side(n.views[a], a, b, c) || Side(n.views[b], b, a, c)
  {
    var va, vb := n.views[a], n.views[b];
    assert Matches(a, va, n.links) && Matches(b, vb, n.links);
    NeighbourListed(a, va, b, n.links);
    NeighbourListed(b, vb, a, n.links);
    CompSymmetric(a, va, b, vb, n.links);
    CompKnown(n, a);
    if Side(va, a, b, c) && Side(vb, b, a, c) {
      SideSees(n, a, b, c);
      SideSees(n, b, a, c);
      var t :| t in n.views[c] && t.id == b && t.uplink == a;
      var s :| s in n.views[c] && s.id == a && s.uplink == b;
      DescStep(c, n.views[c], a, t);
      AncestorNotBelow(c, n.views[c], s, b);
      assert false;
    }
    if c in Comp(a, va) && !Side(va, a, b, c) && !Side(vb, b, a, c) {
      Neither(n, a, b, c);
    }
  }

  lemma {:induction false} Neither(n: Net, a: string, b: string, c: string)
    requires Severable(n, a, b) && (b, a) in n.links && c in n.views
    requires Matches(a, n.views[a], n.links) && Matches(b, n.views[b], n.links)
    requires c in Subtree(n.views[a], b)
    ensures c !in Subtree(n.views[b], a)
  {
    var va, vb, vc := n.views[a], n.views[b], n.views[c];
    assert Matches(c, vc, n.links);
    NeighbourListed(a, va, b, n.links);
    NeighbourListed(b, vb, a, n.links);
    var tb :| tb in va && tb.id == b && tb.uplink == a;
    var sa :| sa in vb && sa.id == a && sa.uplink == b;
    if c in Subtree(vb, a) {
    LinkedPrefix(a, va, |va|);
    LinkedPrefix(b, vb, |vb|);
    DescListed(va, b);
    DescListed(vb, a);
    DescIrreflexive(b, vb, a);
    var t :| t in va && t.id == c;
    var s :| s in vb && s.id == c;
    var u, z := FirstHopIsParent(a, va, c, vc, n.links, t);
    var u', z' := FirstHopIsParent(b, vb, c, vc, n.links, s);
    if u.id != b { SiblingsDisjoint(a, va, a, u, tb); }
    if u'.id != a { SiblingsDisjoint(b, vb, b, u', sa); }
    DescStep(c, vc, a, z');
    AncestorNotBelow(c, vc, z, b);
    assert false;
    }
  }

  // ------------------------------------------------------------- the flow of a loss

  ghost function LossLines(va: View, vb: View, a: string, b: string, c: string): seq<Msg> {
    if Side(va, a, b, c) then [Unlinked(b)]
    else if Side(vb, b, a, c) then [Unlinked(a)]
    else []
  }

  ghost function LossFrom(va: View, vb: View, a: string, b: string, c: string): string {
    if c == a then b else if c == b then a
    else if Side(va, a, b, c) then Parent(va, c)
    else if Side(vb, b, a, c) then Parent(vb, c)
    else c
  }

  ghost function LossAfter(v: View, va: View, vb: View, a: string, b: string, c: string): (w: seq<View>)
    ensures |w| == |LossLines(va, vb, a, b, c)| + 1
  {
    if Side(va, a, b, c) then [v, Prune(v, b)]
    else if Side(vb, b, a, c) then [v, Prune(v, a)]
    else [v]
  }

  ghost function LossFlow(n: Net, a: string, b: string): Flow
    requires a in n.views && b in n.views
  {
    var va, vb := n.views[a], n.views[b];
    Flow({a, b},
         map c | c in n.views :: LossLines(va, vb, a, b, c),
         map c | c in n.views :: LossFrom(va, vb, a, b, c),
         map c | c in n.views :: LossAfter(n.views[c], va, vb, a, b, c),
         map c | c in n.views :: if Side(va, a, b, c) then Place(va, c) else Place(vb, c))
  }

  lemma OwnSide(n: Net, a: string, b: string)
    requires Severable(n, a, b)
    ensures Side(n.views[a], a, b, a) && Matches(a, n.views[a], n.links) && a != b
  {
    var va := n.views[a];
    assert Matches(a, va, n.links);
    LinkedPrefix(a, va, |va|);
    DescListed(va, b);
  }

  lemma LossSwap(n: Net, a: string, b: string, c: string)
    requires Severable(n, a, b) && (b, a) in n.links
    ensures var va, vb := n.views[a], n.views[b];
            && LossFrom(va, vb, a, b, c) == LossFrom(vb, va, b, a, c)
            && LossLines(va, vb, a, b, c) == LossLines(vb, va, b, a, c)
  {
    Sides(n, a, b, c);
    OwnSide(n, a, b);
    OwnSide(n, b, a);
  }

  lemma LossSideRoute(n: Net, a: string, b: string, x: string, y: string)
    requires Severable(n, a, b) && (b, a) in n.links && Side(n.views[a], a, b, x)
    requires (x, y) in CutLinks(n.links, a, b)
    requires y != LossFrom(n.views[a], n.views[b], a, b, x)
    ensures Side(n.views[a], a, b, y) && y != a && y != b && LossFrom(n.views[a], n.views[b], a, b, y) == x
  {
    var va := n.views[a];
    SideSees(n, a, b, x);
    OwnSide(n, a, b);
    NeighbourListed(a, va, b, n.links);
    MatchEdge(a, va, n.links, x, y);
    var t :| t in va && ((t.id == x && t.uplink == y) || (t.id == y && t.uplink == x));
    LookupFinds(a, va, t);
    LinkedAt(a, va, t);
    InIds(va, t);
    var tb :| tb in va && tb.id == b && tb.uplink == a;
    LookupFinds(a, va, tb);
    if t.id == y {
      if y == b { UniqueIds(a, va, t, tb); assert false; }
      DescStep(a, va, b, t);
    }
  }

  lemma LossRoute(n: Net, a: string, b: string, x: string, y: string)
    requires Severable(n, a, b) && (b, a) in n.links && (x, y) in CutLinks(n.links, a, b)
    ensures var va, vb := n.views[a], n.views[b];
            && x in n.views && y in n.views && x != y
            && (LossLines(va, vb, a, b, x) != [] && y != LossFrom(va, vb, a, b, x) ==>
                  LossFrom(va, vb, a, b, y) == x && y != a && y != b && LossLines(va, vb, a, b, y) == LossLines(va, vb, a, b, x))
  {
    var va, vb := n.views[a], n.views[b];
    if y != LossFrom(va, vb, a, b, x) && Side(va, a, b, x) {
      LossSideRoute(n, a, b, x, y);
    } else if y != LossFrom(va, vb, a, b, x) && Side(vb, b, a, x) {
      LossSwap(n, a, b, x);
      LossSwap(n, a, b, y);
      Sides(n, a, b, x);
      LossSideRoute(n, b, a, x, y);
      Sides(n, a, b, y);
    }
  }

  /** Away from `a`, the line "un b" arrives from the parent in `a`'s list, over a link that is still up. */
  lemma LossSideFed(n: Net, a: string, b: string, c: string)
    requires Severable(n, a, b) && (b, a) in n.links && Side(n.views[a], a, b, c) && c != a
    ensures var va := n.views[a];
            var p := Parent(va, c);
            && (p, c) in CutLinks(n.links, a, b) && (c, p) in CutLinks(n.links, a, b)
            && p in n.views && Side(va, a, b, p) && Place(va, p) < Place(va, c)
  {
    var va := n.views[a];
    SideSees(n, a, b, c);
    OwnSide(n, a, b);
    var s :| s in va && s.id == c && s.uplink == Parent(va, c);
    ParentFirst(a, va, s);
    UplinkInComp(a, va, s);
    DescStep(a, va, b, s);
  }

  lemma LossSideHandled(n: Net, a: string, b: string, c: string)
    requires Severable(n, a, b) && (b, a) in n.links && Side(n.views[a], a, b, c) && c != a
    ensures c in n.views
    ensures Handle(c, n.views[c], Nbrs(CutLinks(n.links, a, b), c), Parent(n.views[a], c), Unlinked(b))
            == Forwarded(Prune(n.views[c], b))
  {
    SideSees(n, a, b, c);
    LossSideFed(n, a, b, c);
    InNbrs(CutLinks(n.links, a, b), c, Parent(n.views[a], c));
    var t :| t in n.views[c] && t.id == b && t.uplink == a && t.via == Parent(n.views[a], c);
    NextBotIs(c, n.views[c], Nbrs(CutLinks(n.links, a, b), c), t);
  }

  /** Cutting off `b` leaves the tree of what is still linked. */
  lemma LossSideEnds(n: Net, a: string, b: string, c: string)
    requires Severable(n, a, b) && (b, a) in n.links && Side(n.views[a], a, b, c)
    ensures c in n.views && Matches(c, Prune(n.views[c], b), CutLinks(n.links, a, b))
  {
    SideSees(n, a, b, c);
    var vc, links := n.views[c], CutLinks(n.links, a, b);
    var tb :| tb in vc && tb.id == b && tb.uplink == a;
    var gone := Subtree(vc, b);
    var v := Prune(vc, b);
    DescClosed(c, vc, b);
    DescListed(vc, b);
    LinkedPrefix(c, vc, |vc|);
    WithoutLinked(c, vc, gone);
    WithoutIds(vc, gone);
    forall t | t in v ensures (t.id, t.uplink) in links {
      WithoutMembers(vc, gone, t);
    }
    forall x, y | (x, y) in links && x in Comp(c, v) ensures TreeEdge(v, x, y) {
      PruneCovers(n, a, b, c, x, y, tb);
    }
  }

  lemma PruneCovers(n: Net, a: string, b: string, c: string, x: string, y: string, tb: Link)
    requires c in n.views && Matches(c, n.views[c], n.links) && b != c
    requires tb in n.views[c] && tb.id == b && tb.uplink == a
    requires (x, y) in CutLinks(n.links, a, b) && x in Comp(c, n.views[c]) && x !in Subtree(n.views[c], b)
    ensures TreeEdge(Prune(n.views[c], b), x, y)
  {
    var vc := n.views[c];
    MatchEdge(c, vc, n.links, x, y);
    var t :| t in vc && ((t.id == x && t.uplink == y) || (t.id == y && t.uplink == x));
    if t.id in Subtree(vc, b) {
      if t.id == b {
        UniqueIds(c, vc, t, tb);
      } else {
        DescStep(c, vc, b, t);
      }
      assert false;
    }
    WithoutMembers(vc, Subtree(vc, b), t);
  }

  lemma LossShape(n: Net, a: string, b: string)
    requires Severable(n, a, b) && (b, a) in n.links
    ensures FlowShape(LossFlow(n, a, b), n.views.Keys)
  {
    LossOrigins(n, a, b);
  }

  lemma LossOrigins(n: Net, a: string, b: string)
    requires Severable(n, a, b) && (b, a) in n.links
    ensures var va, vb := n.views[a], n.views[b];
            LossLines(va, vb, a, b, a) == [Unlinked(b)] && LossLines(va, vb, a, b, b) == [Unlinked(a)]
  {
    OwnSide(n, a, b);
    OwnSide(n, b, a);
    Sides(n, a, b, b);
  }

  lemma LossHandled(n: Net, a: string, b: string, c: string)
    requires Severable(n, a, b) && (b, a) in n.links && c in n.views
    requires FlowShape(LossFlow(n, a, b), n.views.Keys)
    requires LossFlow(n, a, b).stream[c] != [] && c != a && c != b
    ensures HandledAt(LossFlow(n, a, b), CutLinks(n.links, a, b), n.views.Keys, c, 0)
  {
    Sides(n, a, b, c);
    assert CutLinks(n.links, a, b) == CutLinks(n.links, b, a);
    if Side(n.views[a], a, b, c) {
      LossSideHandled(n, a, b, c);
    } else {
      LossSideHandled(n, b, a, c);
    }
  }

  lemma LossFed(n: Net, a: string, b: string, c: string)
    requires Severable(n, a, b) && (b, a) in n.links && c in n.views
    requires FlowShape(LossFlow(n, a, b), n.views.Keys)
    ensures FedBy(LossFlow(n, a, b), CutLinks(n.links, a, b), n.views.Keys, c)
  {
    var va, vb := n.views[a], n.views[b];
    if c != a && c != b {
      Sides(n, a, b, c);
      if Side(va, a, b, c) {
        LossSideFed(n, a, b, c);
      } else if Side(vb, b, a, c) {
        LossSideFed(n, b, a, c);
        Sides(n, a, b, Parent(vb, c));
      }
    }
  }

  lemma LossHandledAt(n: Net, a: string, b: string, c: string, j: nat)
    requires Severable(n, a, b) && (b, a) in n.links && c in n.views
    requires FlowShape(LossFlow(n, a, b), n.views.Keys)
    requires First(LossFlow(n, a, b), c) <= j < |LossFlow(n, a, b).stream[c]|
    ensures HandledAt(LossFlow(n, a, b), CutLinks(n.links, a, b), n.views.Keys, c, j)
  {
    LossHandled(n, a, b, c);
  }

  lemma LossPassedOn(n: Net, a: string, b: string, x: string, y: string)
    requires Severable(n, a, b) && (b, a) in n.links && (x, y) in CutLinks(n.links, a, b)
    requires FlowShape(LossFlow(n, a, b), n.views.Keys)
    ensures PassedOn(LossFlow(n, a, b), n.views.Keys, x, y)
  {
    LossRoute(n, a, b, x, y);
  }

  lemma LossFlowOk(n: Net, a: string, b: string)
    requires Severable(n, a, b) && (b, a) in n.links
    ensures FlowOk(LossFlow(n, a, b), CutLinks(n.links, a, b), n.views.Keys)
  {
    LossShape(n, a, b);
    var f, links, bots := LossFlow(n, a, b), CutLinks(n.links, a, b), n.views.Keys;
    forall c, j | c in bots && First(f, c) <= j < |f.stream[c]| ensures HandledAt(f, links, bots, c, j) {
      LossHandledAt(n, a, b, c, j);
    }
    forall x, y | (x, y) in links ensures PassedOn(f, bots, x, y) {
      LossPassedOn(n, a, b, x, y);
    }
    forall c | c in bots ensures FedBy(f, links, bots, c) {
      LossFed(n, a, b, c);
    }
  }

  // ------------------------------------------------------------- start, run, end

  lemma LostQueue(n: Net, a: string, b: string, x: string, y: string)
    requires Severable(n, a, b) && (x, y) in CutLinks(n.links, a, b)
    ensures Queue(LinkLost(n, a, b), x, y) == if x == a then [Unlinked(b)] else if x == b then [Unlinked(a)] else []
  {
    assert Queue(n, x, y) == [];
  }

  /** The queues of a wave in which each origin has sent its only line on. */
  lemma OneLineQueue(f: Flow, bots: set<string>, x: string, y: string)
    requires FlowShape(f, bots) && x in bots && y in bots && PassedOn(f, bots, x, y)
    requires Start(f).Keys == bots && CountAt(f, bots, Start(f), y)
    requires x in f.origins ==> |f.stream[x]| == 1 && y != f.from[x]
    requires y in f.origins ==> f.from[y] != x
    ensures QueueAt(if x in f.origins then f.stream[x] else [], f, bots, Start(f), x, y)
  {
    if x in f.origins { assert f.stream[y][0..1] == f.stream[x]; }
  }

  lemma LossStartQueue(n: Net, a: string, b: string, x: string, y: string)
    requires Severable(n, a, b) && (b, a) in n.links && (x, y) in CutLinks(n.links, a, b)
    requires x in n.views && y in n.views && FlowShape(LossFlow(n, a, b), n.views.Keys)
    requires Start(LossFlow(n, a, b)).Keys == n.views.Keys && CountAt(LossFlow(n, a, b), n.views.Keys, Start(LossFlow(n, a, b)), y)
    requires PassedOn(LossFlow(n, a, b), n.views.Keys, x, y)
    ensures QueueAt(Queue(LinkLost(n, a, b), x, y), LossFlow(n, a, b), n.views.Keys, Start(LossFlow(n, a, b)), x, y)
  {
    LossOrigins(n, a, b);
    LostQueue(n, a, b, x, y);
    LossEnds(n, a, b);
    OneLineQueue(LossFlow(n, a, b), n.views.Keys, x, y);
  }

  /** Each end of the lost link takes its line from the other. */
  lemma LossEnds(n: Net, a: string, b: string)
    requires Severable(n, a, b) && (b, a) in n.links
    ensures var va, vb := n.views[a], n.views[b];
            a != b && LossFrom(va, vb, a, b, a) == b && LossFrom(va, vb, a, b, b) == a
  {
    OwnSide(n, a, b);
  }

  lemma LossStartView(n: Net, a: string, b: string, c: string)
    requires Severable(n, a, b) && (b, a) in n.links && c in n.views
    requires FlowShape(LossFlow(n, a, b), n.views.Keys)
    ensures LinkLost(n, a, b).views[c] == LossFlow(n, a, b).after[c][First(LossFlow(n, a, b), c)]
  {
    OwnSide(n, a, b);
    OwnSide(n, b, a);
    Sides(n, a, b, b);
  }

  lemma LossStartCounts(n: Net, a: string, b: string)
    requires Severable(n, a, b)
    requires FlowOk(LossFlow(n, a, b), CutLinks(n.links, a, b), n.views.Keys)
    ensures Counts(LossFlow(n, a, b), n.views.Keys, Start(LossFlow(n, a, b)))
  {
    var f, bots := LossFlow(n, a, b), n.views.Keys;
    forall c | c in bots ensures CountAt(f, bots, Start(f), c) {
      assert FedBy(f, CutLinks(n.links, a, b), bots, c);
    }
  }

  lemma LossStartQueues(n: Net, a: string, b: string)
    requires Severable(n, a, b) && (b, a) in n.links
    requires FlowOk(LossFlow(n, a, b), CutLinks(n.links, a, b), n.views.Keys)
    requires Counts(LossFlow(n, a, b), n.views.Keys, Start(LossFlow(n, a, b)))
    ensures Queues(LinkLost(n, a, b), LossFlow(n, a, b), CutLinks(n.links, a, b), n.views.Keys, Start(LossFlow(n, a, b)))
  {
    var f, links, bots, n' := LossFlow(n, a, b), CutLinks(n.links, a, b), n.views.Keys, LinkLost(n, a, b);
    var k := Start(f);
    forall x, y | (x, y) in links
      ensures x in bots && y in bots && CountAt(f, bots, k, y) && QueueAt(Queue(n', x, y), f, bots, k, x, y)
    {
      assert PassedOn(f, bots, x, y);
      assert CountAt(f, bots, k, y);
      LossStartQueue(n, a, b, x, y);
    }
  }

  lemma LossStarts(n: Net, a: string, b: string)
    requires Severable(n, a, b) && (b, a) in n.links
    ensures During(LinkLost(n, a, b), LossFlow(n, a, b), CutLinks(n.links, a, b), Start(LossFlow(n, a, b)))
    ensures LinkLost(n, a, b).views.Keys == n.views.Keys
  {
    LossFlowOk(n, a, b);
    var f, bots, n' := LossFlow(n, a, b), n.views.Keys, LinkLost(n, a, b);
    assert n'.views.Keys == bots;
    LossStartCounts(n, a, b);
    LossStartQueues(n, a, b);
    forall c | c in bots ensures Start(f)[c] < |f.after[c]| && n'.views[c] == f.after[c][Start(f)[c]] {
      LossStartView(n, a, b, c);
    }
  }

  lemma Elsewhere(n: Net, a: string, b: string, c: string)
    requires Severable(n, a, b) && (b, a) in n.links && c in n.views && c !in Comp(a, n.views[a])
    ensures Matches(c, n.views[c], CutLinks(n.links, a, b))
  {
    var va, vc := n.views[a], n.views[c];
    assert Matches(a, va, n.links) && Matches(c, vc, n.links);
    NeighbourListed(a, va, b, n.links);
    if a in Comp(c, vc) { MeetingComps(a, va, c, vc, n.links, a); }
    if b in Comp(c, vc) { MeetingComps(a, va, c, vc, n.links, b); }
    forall t | t in vc ensures (t.id, t.uplink) in CutLinks(n.links, a, b) {
      InIds(vc, t);
    }
    forall x, y | (x, y) in CutLinks(n.links, a, b) && x in Comp(c, vc) ensures TreeEdge(vc, x, y) {
      MatchEdge(c, vc, n.links, x, y);
    }
  }

  lemma LossEndView(n: Net, a: string, b: string, c: string)
    requires Severable(n, a, b) && (b, a) in n.links && c in n.views
    requires FlowShape(LossFlow(n, a, b), n.views.Keys)
    ensures var f := LossFlow(n, a, b);
            Matches(c, f.after[c][|f.stream[c]|], CutLinks(n.links, a, b))
  {
    Sides(n, a, b, c);
    assert CutLinks(n.links, a, b) == CutLinks(n.links, b, a);
    if Side(n.views[a], a, b, c) {
      LossSideEnds(n, a, b, c);
    } else if Side(n.views[b], b, a, c) {
      LossSideEnds(n, b, a, c);
    } else {
      Elsewhere(n, a, b, c);
    }
  }

  lemma LossOneLine(n: Net, a: string, b: string, o: string)
    requires Severable(n, a, b) && (b, a) in n.links && o in LossFlow(n, a, b).origins
    ensures o in LossFlow(n, a, b).stream && |LossFlow(n, a, b).stream[o]| == 1
  {
    LossOrigins(n, a, b);
  }

  lemma LossEndAt(n: Net, a: string, b: string, z: Net, k: map<string, nat>, c: string)
    requires Severable(n, a, b) && (b, a) in n.links && z.views.Keys == n.views.Keys && c in z.views
    requires During(z, LossFlow(n, a, b), CutLinks(n.links, a, b), k) && Quiet(z)
    ensures Matches(c, z.views[c], z.links)
  {
    var f, links := LossFlow(n, a, b), CutLinks(n.links, a, b);
    forall o | o in z.views && o in f.origins ensures |f.stream[o]| == 1 {
      LossOneLine(n, a, b, o);
    }
    QuietMeansDone(z, f, links, k, c);
    LossEndView(n, a, b, c);
  }

  lemma CutWellNamed(n: Net, a: string, b: string, z: Net)
    requires WellNamed(n) && z.views.Keys == n.views.Keys && z.links == CutLinks(n.links, a, b)
    ensures WellNamed(z)
  {
  }

  /** After a link is lost, deliveries in any order never lead to a refusal, end after a
      fixed number of steps, and once nothing is under way every bot's list is exactly
      the tree of what is left of its component, rooted at itself. */
  lemma LossConverges(n: Net, a: string, b: string, r: seq<Net>)
    requires Consistent(n) && (a, b) in n.links && a in n.views && b in n.views && a != b
    requires Run(r) && r[0] == LinkLost(n, a, b)
    ensures !r[|r| - 1].fault && r[|r| - 1].links == CutLinks(n.links, a, b)
    ensures |r| - 1 <= Work(LossFlow(n, a, b))
    ensures Quiet(r[|r| - 1]) ==> Consistent(r[|r| - 1])
  {
    var f, links, z := LossFlow(n, a, b), CutLinks(n.links, a, b), r[|r| - 1];
    LossStarts(n, a, b);
    var k := RunDuring(r, f, links, Start(f));
    RunBounded(z, f, links, k);
    if Quiet(z) {
      CutWellNamed(n, a, b, z);
      forall c | c in z.views ensures Matches(c, z.views[c], z.links) {
        LossEndAt(n, a, b, z, k, c);
      }
    }
  }
}
