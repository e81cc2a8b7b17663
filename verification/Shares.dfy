/** One bot's share of the network: its handlers, fed with printed lines, do to the bot what the
    network's steps do to its view and to the queues of its links. */
module Shares {
  import opened Wrappers
  import opened Forest
  import opened BotProtocol
  import opened LinkTree
  import opened Network
  import opened Renaming
  import opened BotnetState

  // ------------------------------------------------------------- lines

  /** A line behind its command word: "n <bot> <next> <share and version>", "un <bot> <reason>". */
  function Params(m: Msg, tail: string): string {
    match m
    case Nlinked(bot, next) => bot + " " + (next + " " + tail)
    case Unlinked(bot) => bot + " " + tail
  }

  lemma {:induction false} WordEnds(w: string, rest: string)
    requires ' ' !in w && (rest == "" || rest[0] == ' ')
    ensures WordLength(w + rest) == |w|
  {
    if w == "" {
      assert w + rest == rest;
    } else {
      assert (w + rest)[1..] == w[1..] + rest;
      WordEnds(w[1..], rest);
    }
  }

  lemma {:induction false} WordHasNoBlank(s: string)
    ensures ' ' !in s[..WordLength(s)]
  {
    if s != "" && s[0] != ' ' {
      WordHasNoBlank(s[1..]);
      assert s[..WordLength(s)] == [s[0]] + s[1..][..WordLength(s[1..])];
    }
  }

  /** A non-empty name at the front of a line is split off as it was if and only if it has no blank. */
  lemma FirstWordIff(w: string, rest: string)
    requires w != ""
    ensures NewSplit(w + " " + rest).0 == w <==> ' ' !in w
    ensures ' ' !in w ==> NewSplit(w + " " + rest) == (w, rest)
  {
    var line := w + " " + rest;
    WordHasNoBlank(SkipSpaces(line));
    if ' ' !in w {
      assert line == w + (" " + rest) && line[0] == w[0] && SkipSpaces(line) == line;
      WordEnds(w, " " + rest);
      assert line[..|w|] == w && line[|w| + 1..] == rest;
    }
  }

  /** Blanks at the front of a line are skipped, and a word alone leaves nothing behind it. */
  lemma SplitEdges(w: string, line: string)
    ensures NewSplit(" " + line) == NewSplit(line)
    ensures w != "" && ' ' !in w ==> NewSplit(w) == (w, "")
  {
    assert (" " + line)[1..] == line;
    if w != "" && ' ' !in w {
      WordEnds(w, "");
      assert w + "" == w && SkipSpaces(w) == w && w[..|w|] == w;
    }
  }

  ghost predicate Word(name: string) {
    name != "" && ' ' !in name
  }

  ghost predicate Printable(m: Msg) {
    Word(m.bot) && (m.Nlinked? ==> Word(m.next))
  }

  /** A printed line is split back into its names. */
  lemma LineReads(m: Msg, tail: string)
    requires Printable(m)
    ensures NewSplit(Params(m, tail)).0 == m.bot
    ensures m.Nlinked? ==> NewSplit(NewSplit(Params(m, tail)).1).0 == m.next
  {
    match m
    case Nlinked(bot, next) =>
      FirstWordIff(bot, next + " " + tail);
      FirstWordIff(next, tail);
      assert next + " " + tail == next + (" " + tail);
    case Unlinked(bot) =>
      FirstWordIff(bot, tail);
  }

  // ------------------------------------------------------------- a share

  /** What is under way is the last that was sent. */
  ghost predicate EndsWith(out: seq<Msg>, q: seq<Msg>) {
    |q| <= |out| && out[|out| - |q|..] == q
  }

  lemma EndsWithMore(out: seq<Msg>, q: seq<Msg>, more: seq<Msg>)
    requires EndsWith(out, q)
    ensures EndsWith(out + more, q + more)
  {
    assert (out + more)[|out| - |q|..] == out[|out| - |q|..] + more;
  }

  lemma EndsWithLess(out: seq<Msg>, q: seq<Msg>)
    requires EndsWith(out, q) && q != []
    ensures EndsWith(out, q[1..])
  {
    assert out[|out| - |q|..][1..] == out[|out| - |q| + 1..];
  }

  ghost predicate OneLinkEach(dcc: seq<Peer>) {
    forall i, j :: 0 <= i < j < |dcc| && dcc[i].isBot && dcc[j].isBot ==> dcc[i].nick != dcc[j].nick
  }

  ghost predicate PeerOk(n: Net, me: string, x: Peer) {
    x.isBot ==> !x.leaf && EndsWith(x.out, Queue(n, me, x.nick))
  }

  /** The bot `me` shows its view, has its links, one connection each, and has sent what is under way. */
  ghost predicate Share(n: Net, me: string, v: View, dcc: seq<Peer>) {
    && me in n.views && n.views[me] == v
    && BotNicks(dcc) == Nbrs(n.links, me)
    && OneLinkEach(dcc)
    && (forall i {:trigger dcc[i]} :: 0 <= i < |dcc| ==> PeerOk(n, me, dcc[i]))
  }

  lemma LinkOf(dcc: seq<Peer>, i: nat)
    requires i < |dcc| && dcc[i].isBot
    ensures dcc[i].nick in BotNicks(dcc)
  {
  }

  lemma NbrLinked(links: Edges, c: string, p: string)
    ensures p in Nbrs(links, c) <==> (c, p) in links
  {
    if (c, p) in links { InNbrs(links, c, p); }
  }

  lemma BroadcastNicks(dcc: seq<Peer>, x: int, m: Msg)
    ensures BotNicks(Broadcast(dcc, x, m)) == BotNicks(dcc)
    ensures OneLinkEach(dcc) ==> OneLinkEach(Broadcast(dcc, x, m))
  {
    var d := Broadcast(dcc, x, m);
    forall s | s in BotNicks(dcc) ensures s in BotNicks(d) {
      var i :| 0 <= i < |dcc| && dcc[i].isBot && dcc[i].nick == s;
      assert d[i].isBot && d[i].nick == s;
    }
    forall s | s in BotNicks(d) ensures s in BotNicks(dcc) {
      var i :| 0 <= i < |d| && d[i].isBot && d[i].nick == s;
      assert dcc[i].isBot && dcc[i].nick == s;
    }
  }

  /** With one connection each, the first link to a neighbour is that connection. */
  lemma OnlyLinkIsFirst(dcc: seq<Peer>, idx: nat)
    requires OneLinkEach(dcc) && idx < |dcc| && dcc[idx].isBot
    ensures FirstLink(dcc, dcc[idx].nick, idx)
  {
  }

  // ------------------------------------------------------------- a delivery

  /** The bot that takes an accepted line, and what it sends on. */
  lemma ShareDelivered(n: Net, me: string, v: View, dcc: seq<Peer>, idx: nat)
    requires Share(n, me, v, dcc) && idx < |dcc| && dcc[idx].isBot && CanDeliver(n, dcc[idx].nick, me)
    requires Symmetric(n.links)
    requires Handle(me, v, BotNicks(dcc), dcc[idx].nick, Queue(n, dcc[idx].nick, me)[0]).Forwarded?
    ensures var p := dcc[idx].nick;
            var m := Queue(n, p, me)[0];
            Share(Deliver(n, p, me), me, Handle(me, v, BotNicks(dcc), p, m).view, Broadcast(dcc, idx, m))
  {
    var p := dcc[idx].nick;
    var m := Queue(n, p, me)[0];
    var n', d := Deliver(n, p, me), Broadcast(dcc, idx, m);
    BroadcastNicks(dcc, idx, m);
    forall i {:trigger d[i]} | 0 <= i < |d| ensures PeerOk(n', me, d[i]) {
      assert PeerOk(n, me, dcc[i]);
      if dcc[i].isBot {
        LinkOf(dcc, i);
        NbrLinked(n.links, me, dcc[i].nick);
        DeliverQueue(n, p, me, me, dcc[i].nick);
        if i != idx { EndsWithMore(dcc[i].out, Queue(n, me, dcc[i].nick), [m]); }
      }
    }
  }

  /** Everybody else's share is untouched by it. */
  lemma BystanderDelivered(n: Net, me: string, v: View, dcc: seq<Peer>, p: string, c: string)
    requires Share(n, me, v, dcc) && CanDeliver(n, p, c) && c != me
    ensures Share(Deliver(n, p, c), me, v, dcc)
  {
    var n' := Deliver(n, p, c);
    forall i {:trigger dcc[i]} | 0 <= i < |dcc| ensures PeerOk(n', me, dcc[i]) {
      assert PeerOk(n, me, dcc[i]);
      if dcc[i].isBot {
        LinkOf(dcc, i);
        NbrLinked(n.links, me, dcc[i].nick);
        if me == p && dcc[i].nick == c { EndsWithLess(dcc[i].out, Queue(n, me, c)); }
      }
    }
  }

  // ------------------------------------------------------------- a link comes up

  lemma UpNbrs(links: Edges, a: string, b: string, c: string)
    ensures Nbrs(links + {(a, b), (b, a)}, c)
            == Nbrs(links, c) + (if c == a then {b} else {}) + (if c == b then {a} else {})
  {
    var l := links + {(a, b), (b, a)};
    forall x ensures x in Nbrs(l, c) <==>
      x in Nbrs(links, c) + (if c == a then {b} else {}) + (if c == b then {a} else {}) {
      NbrLinked(l, c, x);
      NbrLinked(links, c, x);
    }
  }

  /** A neighbour is listed. */
  lemma NbrListed(n: Net, me: string, p: string)
    requires Consistent(n) && me in n.views && (me, p) in n.links
    ensures p in Ids(n.views[me]) && p != me && n.views[me] != []
  {
    var v := n.views[me];
    assert Matches(me, v, n.links);
    MatchEdge(me, v, n.links, me, p);
    var t :| t in v && ((t.id == me && t.uplink == p) || (t.id == p && t.uplink == me));
    LinkedAt(me, v, t);
  }

  lemma UpQueue(n: Net, a: string, b: string, y: string)
    requires CanLink(n, a, b) && y != b && (a, y) in n.links
    ensures Queue(LinkUp(n, a, b), a, y) == Queue(n, a, y) + [Nlinked(b, a)]
  {
  }

  /** The near end of a new link, after telling its other links and describing its list. */
  lemma ShareUp(n: Net, me: string, v: View, dcc: seq<Peer>, idx: nat)
    requires Consistent(n) && Share(n, me, v, dcc) && idx < |dcc| && !dcc[idx].isBot && !dcc[idx].leaf
    requires CanLink(n, me, dcc[idx].nick)
    ensures var b := dcc[idx].nick;
            Share(LinkUp(n, me, b), me, v + [Node(b, me, b, ())],
                  Broadcast(dcc, idx, Nlinked(b, me))[idx := Peer(b, true, false, dcc[idx].out + Dump(v))])
  {
    var b := dcc[idx].nick;
    var n', d := LinkUp(n, me, b), Broadcast(dcc, idx, Nlinked(b, me));
    var e := d[idx := Peer(b, true, false, dcc[idx].out + Dump(v))];
    BroadcastNicks(dcc, idx, Nlinked(b, me));
    UpNbrs(n.links, me, b, me);
    NbrLinked(n.links, me, b);
    if (me, b) in n.links { NbrListed(n, me, b); }
    JoinedNicks(d, idx, e);
    forall i {:trigger e[i]} | 0 <= i < |e| ensures PeerOk(n', me, e[i]) {
      assert PeerOk(n, me, dcc[i]);
      if i == idx {
        assert Queue(n', me, b) == Dump(v);
        assert (dcc[idx].out + Dump(v))[|dcc[idx].out|..] == Dump(v);
      } else if dcc[i].isBot {
        LinkOf(dcc, i);
        NbrLinked(n.links, me, dcc[i].nick);
        UpQueue(n, me, b, dcc[i].nick);
        EndsWithMore(dcc[i].out, Queue(n, me, dcc[i].nick), [Nlinked(b, me)]);
      }
    }
  }

  lemma JoinedNicks(d: seq<Peer>, idx: nat, e: seq<Peer>)
    requires OneLinkEach(d) && idx < |d| && !d[idx].isBot && |e| == |d| && e[idx].isBot && e[idx].nick !in BotNicks(d)
    requires forall i :: 0 <= i < |d| && i != idx ==> e[i] == d[i]
    ensures BotNicks(e) == BotNicks(d) + {e[idx].nick} && OneLinkEach(e)
  {
    forall s | s in BotNicks(d) + {e[idx].nick} ensures s in BotNicks(e) {
      if s == e[idx].nick {
        LinkOf(e, idx);
      } else {
        var i :| 0 <= i < |d| && d[i].isBot && d[i].nick == s;
        LinkOf(e, i);
      }
    }
    forall s | s in BotNicks(e) ensures s in BotNicks(d) + {e[idx].nick} {
      var i :| 0 <= i < |e| && e[i].isBot && e[i].nick == s;
      if i != idx { LinkOf(d, i); }
    }
    forall i, j | 0 <= i < j < |e| && e[i].isBot && e[j].isBot ensures e[i].nick != e[j].nick {
      if i != idx { LinkOf(d, i); }
      if j != idx { LinkOf(d, j); }
    }
  }

  /** It does not matter which end is named first. */
  lemma LinkUpEitherWay(n: Net, a: string, b: string)
    requires CanLink(n, a, b)
    ensures CanLink(n, b, a) && LinkUp(n, a, b) == LinkUp(n, b, a)
  {
    var x, y := LinkUp(n, a, b), LinkUp(n, b, a);
    assert x.links == y.links;
    assert x.views == y.views;
    assert x.queues == y.queues;
  }

  // ------------------------------------------------------------- a link is lost

  lemma DownNbrs(links: Edges, a: string, b: string, c: string)
    requires a != b
    ensures Nbrs(links - {(a, b), (b, a)}, c)
            == Nbrs(links, c) - (if c == a then {b} else {}) - (if c == b then {a} else {})
  {
    var l := links - {(a, b), (b, a)};
    forall x ensures x in Nbrs(l, c) <==>
      x in Nbrs(links, c) - (if c == a then {b} else {}) - (if c == b then {a} else {}) {
      NbrLinked(l, c, x);
      NbrLinked(links, c, x);
    }
  }

  lemma LeftNicks(d: seq<Peer>, idx: nat)
    requires OneLinkEach(d) && idx < |d| && d[idx].isBot
    ensures BotNicks(d[idx := LOST_PEER]) == BotNicks(d) - {d[idx].nick} && OneLinkEach(d[idx := LOST_PEER])
  {
    var e := d[idx := LOST_PEER];
    forall s | s in BotNicks(d) - {d[idx].nick} ensures s in BotNicks(e) {
      var i :| 0 <= i < |d| && d[i].isBot && d[i].nick == s;
      LinkOf(e, i);
    }
    forall s | s in BotNicks(e) ensures s in BotNicks(d) - {d[idx].nick} {
      var i :| 0 <= i < |e| && e[i].isBot && e[i].nick == s;
      LinkOf(d, i);
    }
  }

  /** The near end of a lost link, after telling its other links. */
  lemma ShareDown(n: Net, me: string, v: View, dcc: seq<Peer>, idx: nat)
    requires Consistent(n) && Share(n, me, v, dcc) && idx < |dcc| && dcc[idx].isBot && dcc[idx].nick in n.views
    ensures var b := dcc[idx].nick;
            && me != b
            && Share(LinkLost(n, me, b), me, Prune(v, b), Broadcast(dcc, idx, Unlinked(b))[idx := LOST_PEER])
  {
    var b := dcc[idx].nick;
    LinkOf(dcc, idx);
    NbrLinked(n.links, me, b);
    NbrListed(n, me, b);
    var n', d := LinkLost(n, me, b), Broadcast(dcc, idx, Unlinked(b));
    var e := d[idx := LOST_PEER];
    BroadcastNicks(dcc, idx, Unlinked(b));
    LeftNicks(d, idx);
    DownNbrs(n.links, me, b, me);
    forall i {:trigger e[i]} | 0 <= i < |e| ensures PeerOk(n', me, e[i]) {
      assert PeerOk(n, me, dcc[i]);
      if i != idx && dcc[i].isBot {
        LinkOf(dcc, i);
        NbrLinked(n.links, me, dcc[i].nick);
        EndsWithMore(dcc[i].out, Queue(n, me, dcc[i].nick), [Unlinked(b)]);
      }
    }
  }

  /** Bots at neither end of a link event keep their share. */
  lemma BystanderLinks(n: Net, me: string, v: View, dcc: seq<Peer>, a: string, b: string)
    requires Share(n, me, v, dcc) && me != a && me != b && a != b
    ensures CanLink(n, a, b) ==> Share(LinkUp(n, a, b), me, v, dcc)
    ensures a in n.views && b in n.views ==> Share(LinkLost(n, a, b), me, v, dcc)
  {
    UpNbrs(n.links, a, b, me);
    DownNbrs(n.links, a, b, me);
    forall i {:trigger dcc[i]} | 0 <= i < |dcc|
      ensures CanLink(n, a, b) ==> PeerOk(LinkUp(n, a, b), me, dcc[i])
      ensures a in n.views && b in n.views ==> PeerOk(LinkLost(n, a, b), me, dcc[i])
    {
      assert PeerOk(n, me, dcc[i]);
      if dcc[i].isBot {
        LinkOf(dcc, i);
        NbrLinked(n.links, me, dcc[i].nick);
      }
    }
  }

  // ------------------------------------------------------------- the handlers

  ghost predicate Represents(b: Botnet, n: Net)
    reads b, b.line, b.line.party
  {
    b.Valid() && Share(n, b.botnetnick, b.View(), b.dcc)
  }

  /** Handling a printed line that is accepted is this bot's share of its delivery. */
  method TakesLine(b: Botnet, ghost n: Net, idx: nat, m: Msg, tail: string)
    requires Represents(b, n) && Symmetric(n.links) && idx < |b.dcc| && b.dcc[idx].isBot
    requires CanDeliver(n, b.dcc[idx].nick, b.botnetnick) && m == Queue(n, b.dcc[idx].nick, b.botnetnick)[0]
    requires Printable(m) && Handle(b.botnetnick, b.View(), BotNicks(b.dcc), b.dcc[idx].nick, m).Forwarded?
    modifies b`tandbot, b`botTable, b`tands, b`dcc, b.line, b.line.party
    ensures Represents(b, old(Deliver(n, b.dcc[idx].nick, b.botnetnick)))
  {
    LineReads(m, tail);
    OnlyLinkIsFirst(b.dcc, idx);
    ShareDelivered(n, b.botnetnick, b.View(), b.dcc, idx);
    assert !b.dcc[idx].leaf by { assert PeerOk(n, b.botnetnick, b.dcc[idx]); }
    if m.Nlinked? {
      var accepted := b.BotNlinked(idx, Params(m, tail));
      assert accepted;
    } else {
      b.BotUnlinked(idx, Params(m, tail));
    }
  }

  /** A new direct link introducing itself is this bot's share of the link coming up. */
  method SeesLinkUp(b: Botnet, ghost n: Net, idx: nat)
    requires Represents(b, n) && Consistent(n) && idx < |b.dcc| && !b.dcc[idx].isBot && !b.dcc[idx].leaf
    requires b.dcc[idx].nick != "" && CanLink(n, b.botnetnick, b.dcc[idx].nick)
    modifies b`tandbot, b`botTable, b`tands, b`dcc, b.line, b.line.party
    ensures Represents(b, old(LinkUp(n, b.botnetnick, b.dcc[idx].nick)))
  {
    ghost var nick := b.dcc[idx].nick;
    b.FindBotFinds(nick);
    ViewLinked(b.botnetnick, b.tandbot);
    NobodyToTell(b, n, idx, Nlinked(nick, b.botnetnick));
    ShareUp(n, b.botnetnick, b.View(), b.dcc, idx);
    var linked := b.BotVersion(idx, HANDLEN);
    assert linked;
  }

  /** The end of a link is this bot's share of its loss. */
  method SeesLinkLost(b: Botnet, ghost n: Net, idx: nat)
    requires Represents(b, n) && Consistent(n) && idx < |b.dcc| && b.dcc[idx].isBot && b.dcc[idx].nick in n.views
    modifies b`tandbot, b`botTable, b`tands, b`dcc, b.line, b.line.party
    ensures old(b.botnetnick != b.dcc[idx].nick) && Represents(b, old(LinkLost(n, b.botnetnick, b.dcc[idx].nick)))
  {
    NobodyToTell(b, n, idx, Unlinked(b.dcc[idx].nick));
    ShareDown(n, b.botnetnick, b.View(), b.dcc, idx);
    var bots, users := b.EofDccBot(idx);
  }

  /** Without any listed bot there is no link to tell. */
  lemma NobodyToTell(b: Botnet, n: Net, idx: nat, m: Msg)
    requires Represents(b, n) && Consistent(n)
    ensures b.tands == 0 ==> Broadcast(b.dcc, idx, m) == b.dcc
  {
    if b.tands == 0 {
      ViewLength(b.botnetnick, b.tandbot);
      forall i | 0 <= i < |b.dcc| ensures !b.dcc[i].isBot {
        if b.dcc[i].isBot {
          LinkOf(b.dcc, i);
          NbrLinked(n.links, b.botnetnick, b.dcc[i].nick);
          NbrListed(n, b.botnetnick, b.dcc[i].nick);
        }
      }
    }
  }
}
