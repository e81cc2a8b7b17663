/** A bot describes its list to a new neighbour, line by line; what the neighbour makes of it. */
module Replaying {
  import opened Forest
  import opened BotProtocol
  import opened LinkTree
  import opened Joining

  /** Handles lines from one neighbour in order, up to the first that is not believed. */
  ghost function Replay(me: string, v: View, links: set<string>, from: string, ms: seq<Msg>): Outcome
    decreases |ms|
  {
    if ms == [] then Forwarded(v)
    else
      match Handle(me, v, links, from, ms[0])
      case Forwarded(w) => Replay(me, w, links, from, ms[1..])
      case Ignored => Ignored
      case Rejected => Rejected
  }

  /** The peer's list once `b` has just been linked to it. */
  function Greeted(c: string, vc: View, b: string): View {
    vc + [Node(b, c, b, ())]
  }

  ghost predicate Strangers(c: string, vc: View, b: string, vb: View) {
    Comp(c, vc) !! Comp(b, vb)
  }

  lemma GreetedIsGraft(c: string, vc: View, b: string, vb: View)
    ensures Greeted(c, vc, b) == vc + Graft(b, JoinStream(c, b, vb)[..1])
  {
    assert JoinStream(c, b, vb)[..1] == [Nlinked(b, c)];
  }

  /** Whatever is left of the stream is grafted after what has been. */
  lemma {:induction false} RestReplays(c: string, vc: View, b: string, vb: View, links: set<string>, j: nat)
    requires Linked(c, vc) && Linked(b, vb) && Strangers(c, vc, b, vb)
    requires b in links && ValidName(c) && forall x :: x in Comp(b, vb) ==> ValidName(x)
    requires 1 <= j <= |vb| + 1
    ensures var s := JoinStream(c, b, vb);
            Replay(c, vc + Graft(b, s[..j]), links, b, s[j..]) == Forwarded(vc + Graft(b, s))
    decreases |vb| + 1 - j
  {
    var s := JoinStream(c, b, vb);
    if j == |vb| + 1 {
      assert s[..j] == s && s[j..] == [];
    } else {
      GraftHandled(c, vc, c, b, vb, b, links, j);
      RestReplays(c, vc, b, vb, links, j + 1);
      assert s[j..][0] == s[j] && s[j..][1..] == s[j + 1..];
    }
  }

  lemma GraftOfStream(c: string, vc: View, b: string, vb: View)
    ensures vc + Graft(b, JoinStream(c, b, vb)) == Greeted(c, vc, b) + Graft(b, Dump(vb))
  {
    var s := JoinStream(c, b, vb);
    assert Graft(b, s) == [Node(b, c, b, ())] + Graft(b, Dump(vb));
  }

  /** A believed line's bot was unknown. */
  lemma {:induction false} BelievedWereUnknown(me: string, v: View, links: set<string>, from: string, ms: seq<Msg>, i: nat)
    requires i < |ms| && forall k :: 0 <= k < |ms| ==> ms[k].Nlinked?
    requires Replay(me, v, links, from, ms).Forwarded?
    ensures ms[i].bot != me && ms[i].bot !in Ids(v)
    decreases |ms|
  {
    var w := Handle(me, v, links, from, ms[0]).view;
    if i > 0 {
      BelievedWereUnknown(me, w, links, from, ms[1..], i - 1);
      IdsConcat(v, [Node(ms[0].bot, ms[0].next, from, ())]);
    }
  }

  /** Feeding a well-formed list to the new neighbour: every line is believed exactly when no listed
      bot is known there already, and then the neighbour gains, in list order, the sender's whole
      tree under the sender's node, with the same parents and every first hop the sender. */
  lemma DumpReplays(c: string, vc: View, b: string, vb: View, links: set<string>)
    requires Linked(c, Greeted(c, vc, b)) && Linked(b, vb) && b in links
    requires ValidName(c) && forall x :: x in Comp(b, vb) ==> ValidName(x)
    ensures var r := Replay(c, Greeted(c, vc, b), links, b, Dump(vb));
            && (r.Forwarded? <==> Comp(c, vc) !! Ids(vb))
            && (r.Forwarded? ==> r.view == Greeted(c, vc, b) + Graft(b, Dump(vb)) && Linked(c, r.view))
  {
    var g := Greeted(c, vc, b);
    var r := Replay(c, g, links, b, Dump(vb));
    assert g[..|g| - 1] == vc;
    IdsConcat(vc, [Node(b, c, b, ())]);
    LinkedPrefix(c, g, |vc|);
    if Comp(c, vc) !! Ids(vb) {
      assert Linked(c, vc) && Strangers(c, vc, b, vb);
      var s := JoinStream(c, b, vb);
      GreetedIsGraft(c, vc, b, vb);
      assert s[1..] == Dump(vb);
      RestReplays(c, vc, b, vb, links, 1);
      GraftOfStream(c, vc, b, vb);
      GraftLinked(c, vc, c, b, vb, b, |s|);
      assert s[..|s|] == s;
    } else if r.Forwarded? {
      var x :| x in Comp(c, vc) && x in Ids(vb);
      var i :| 0 <= i < |vb| && vb[i].id == x;
      BelievedWereUnknown(c, g, links, b, Dump(vb), i);
      assert false;
    }
  }

  lemma NothingBelowNewcomer(c: string, vc: View, b: string)
    requires Linked(c, Greeted(c, vc, b))
    ensures Desc(Greeted(c, vc, b), b) == {}
  {
    var g := Greeted(c, vc, b);
    assert g[..|g| - 1] == vc;
    LinkedPrefix(c, g, |vc|);
    DescOfAbsent(c, vc, b);
  }

  /** The parent of the next grafted bot is the sender or was grafted before. */
  lemma UplinkGrafted(b: string, vb: View, n: nat)
    requires Linked(b, vb) && 0 < n <= |vb|
    ensures vb[n - 1].uplink == b || vb[n - 1].uplink in Ids(vb[..n - 1])
    ensures Ids(vb[..n]) == Ids(vb[..n - 1]) + {vb[n - 1].id}
  {
    ParentEarlier(b, vb, n - 1);
    IdsSnoc(vb[..n]);
    assert vb[..n][..n - 1] == vb[..n - 1];
    if vb[n - 1].uplink != b {
      var i :| 0 <= i < n - 1 && vb[i].id == vb[n - 1].uplink;
      assert vb[..n - 1][i] in vb[..n - 1];
    }
  }

  /** In the grafted list the bots below the sender are the bots the sender lists. */
  lemma {:induction false} GraftedBelow(c: string, vc: View, b: string, vb: View, n: nat)
    requires Linked(c, Greeted(c, vc, b)) && Linked(b, vb) && n <= |vb|
    ensures Desc(Greeted(c, vc, b) + Graft(b, Dump(vb)[..n]), b) == Ids(vb[..n])
  {
    var g := Greeted(c, vc, b);
    if n == 0 {
      assert g + Graft(b, Dump(vb)[..0]) == g;
      NothingBelowNewcomer(c, vc, b);
    } else {
      GraftedBelow(c, vc, b, vb, n - 1);
      UplinkGrafted(b, vb, n);
      GraftSnoc(b, Dump(vb), n - 1);
      var w := g + Graft(b, Dump(vb)[..n]);
      assert w[..|w| - 1] == g + Graft(b, Dump(vb)[..n - 1]);
    }
  }
}
