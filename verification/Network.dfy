/** A whole botnet: the links that are up, every bot's view, and one FIFO queue
    of topology messages per direction of a link. */
module Network {
  import opened Forest
  import opened BotProtocol
  import opened LinkTree

  /** `fault` records that some bot refused a line (loop, bogus link, fake alert). */
  datatype Net = Net(links: Edges, views: map<string, View>, queues: map<(string, string), seq<Msg>>, fault: bool)

  ghost function Queue(n: Net, x: string, y: string): seq<Msg> {
    if (x, y) in n.queues then n.queues[(x, y)] else []
  }

  ghost predicate Quiet(n: Net) {
    forall x, y :: (x, y) in n.links ==> Queue(n, x, y) == []
  }

  ghost predicate WellNamed(n: Net) {
    && Symmetric(n.links)
    && (forall x, y :: (x, y) in n.links ==> x in n.views && y in n.views)
    && (forall b :: b in n.views ==> ValidName(b))
  }

  /** Every bot's list is exactly its component's tree of links, rooted at itself. */
  ghost predicate AllMatch(n: Net) {
    forall b {:trigger Matches(b, n.views[b], n.links)} :: b in n.views ==> Matches(b, n.views[b], n.links)
  }

  ghost predicate Consistent(n: Net) {
    WellNamed(n) && AllMatch(n) && Quiet(n) && !n.fault
  }

  // ------------------------------------------------------------- steps

  /** Both ends must find the other one absent from their list. */
  ghost predicate CanLink(n: Net, a: string, b: string) {
    a in n.views && b in n.views && a != b && b !in Ids(n.views[a]) && a !in Ids(n.views[b])
  }

  /** The link a-b comes up: each end announces the other to its other links,
      describes its own list to the other end, and then lists the other end. */
  ghost function LinkUp(n: Net, a: string, b: string): Net
    requires CanLink(n, a, b)
  {
    var links := n.links + {(a, b), (b, a)};
    var queues := map e | e in links ::
      if e == (a, b) then Dump(n.views[a])
      else if e == (b, a) then Dump(n.views[b])
      else if e.0 == a then Queue(n, a, e.1) + [Nlinked(b, a)]
      else if e.0 == b then Queue(n, b, e.1) + [Nlinked(a, b)]
      else Queue(n, e.0, e.1);
    Net(links,
        n.views[a := n.views[a] + [Node(b, a, b, ())]][b := n.views[b] + [Node(a, b, a, ())]],
        queues, n.fault)
  }

  /** The link a-b is lost: each end tells its other links and drops the other end's subtree. */
  ghost function LinkLost(n: Net, a: string, b: string): Net
    requires a in n.views && b in n.views && a != b
  {
    var links := n.links - {(a, b), (b, a)};
    var queues := map e | e in links ::
      if e.0 == a then Queue(n, a, e.1) + [Unlinked(b)]
      else if e.0 == b then Queue(n, b, e.1) + [Unlinked(a)]
      else Queue(n, e.0, e.1);
    Net(links,
        n.views[a := Prune(n.views[a], b)][b := Prune(n.views[b], a)],
        queues, n.fault)
  }

  ghost predicate CanDeliver(n: Net, p: string, c: string) {
    !n.fault && (p, c) in n.links && c in n.views && Queue(n, p, c) != []
  }

  /** `c` takes the oldest line from `p`, acts on it, and passes an accepted one on to its other links. */
  ghost function Deliver(n: Net, p: string, c: string): Net
    requires CanDeliver(n, p, c)
  {
    var m := Queue(n, p, c)[0];
    var out := Handle(c, n.views[c], Nbrs(n.links, c), p, m);
    var queues := map e | e in n.links ::
      if e == (p, c) then Queue(n, p, c)[1..]
      else if e.0 == c && e.1 != p && out.Forwarded? then Queue(n, c, e.1) + [m]
      else Queue(n, e.0, e.1);
    Net(n.links, if out.Forwarded? then n.views[c := out.view] else n.views, queues, out.Rejected?)
  }

  /** Deliveries in any order, one after the other. */
  ghost predicate Run(r: seq<Net>) {
    && r != []
    && forall i :: 0 <= i < |r| - 1 ==> Delivers(r[i], r[i + 1])
  }

  ghost predicate Delivers(n: Net, n': Net) {
    exists p, c :: CanDeliver(n, p, c) && n' == Deliver(n, p, c)
  }

  // ------------------------------------------------------------- one wave of messages

  /** What one link event sends through the net.  Bot `c` will receive exactly the
      lines `stream[c]`, all from neighbour `from[c]`, and shows `after[c][j]` once
      it has taken `j` of them.  An origin has taken its first line in the event itself. */
  datatype Flow = Flow(
    origins: set<string>,
    stream: map<string, seq<Msg>>,
    from: map<string, string>,
    after: map<string, seq<View>>,
    rank: map<string, nat>)

  ghost predicate FlowShape(f: Flow, bots: set<string>) {
    && f.stream.Keys == bots && f.from.Keys == bots && f.after.Keys == bots && f.rank.Keys == bots
    && (forall c :: c in bots ==> |f.after[c]| == |f.stream[c]| + 1)
    && (forall c :: c in bots && c in f.origins ==> |f.stream[c]| >= 1)
  }

  ghost function First(f: Flow, c: string): nat {
    if c in f.origins then 1 else 0
  }

  /** Line `j` of bot `c` is acceptable at its moment, and leads to the next view. */
  ghost predicate HandledAt(f: Flow, links: Edges, bots: set<string>, c: string, j: nat)
    requires FlowShape(f, bots) && c in bots && j < |f.stream[c]|
  {
    (f.from[c], c) in links ==>
      Handle(c, f.after[c][j], Nbrs(links, c), f.from[c], f.stream[c][j]) == Forwarded(f.after[c][j + 1])
  }

  /** What `x` receives it passes on over x-y only to a bot that expects it from `x`. */
  ghost predicate PassedOn(f: Flow, bots: set<string>, x: string, y: string)
    requires FlowShape(f, bots)
  {
    && x in bots && y in bots && x != y
    && (f.stream[x] != [] && y != f.from[x] ==> f.from[y] == x && y !in f.origins && f.stream[y] == f.stream[x])
  }

  /** The wave reaches `c` over a link, from a bot nearer to the origin. */
  ghost predicate FedBy(f: Flow, links: Edges, bots: set<string>, c: string)
    requires FlowShape(f, bots) && c in bots
  {
    if c in f.origins then (f.from[c], c) in links ==> f.from[c] in f.origins
    else f.stream[c] != [] ==>
      && (f.from[c], c) in links && f.from[c] in bots
      && f.stream[f.from[c]] == f.stream[c] && f.rank[f.from[c]] < f.rank[c]
  }

  ghost predicate FlowOk(f: Flow, links: Edges, bots: set<string>) {
    && FlowShape(f, bots)
    && (forall c, j {:trigger HandledAt(f, links, bots, c, j)} ::
          c in bots && First(f, c) <= j < |f.stream[c]| ==> HandledAt(f, links, bots, c, j))
    && (forall x, y {:trigger PassedOn(f, bots, x, y)} :: (x, y) in links ==> PassedOn(f, bots, x, y))
    && (forall c {:trigger FedBy(f, links, bots, c)} :: c in bots ==> FedBy(f, links, bots, c))
  }

  /** Bot `c` has taken between its first line and as many as its feeder. */
  ghost predicate CountAt(f: Flow, bots: set<string>, k: map<string, nat>, c: string)
    requires FlowShape(f, bots) && k.Keys == bots && c in bots
  {
    && First(f, c) <= k[c] <= |f.stream[c]|
    && (c !in f.origins && f.stream[c] != [] && f.from[c] in bots ==> k[c] <= k[f.from[c]] <= |f.stream[c]|)
  }

  /** The lines under way from x to y when each bot c has taken k[c] lines. */
  ghost predicate QueueAt(q: seq<Msg>, f: Flow, bots: set<string>, k: map<string, nat>, x: string, y: string)
    requires FlowShape(f, bots) && k.Keys == bots && x in bots && y in bots && CountAt(f, bots, k, y)
  {
    q == if f.from[y] != x || f.stream[y] == [] then []
         else if y in f.origins then f.stream[y][k[y]..]
         else f.stream[y][k[y]..k[x]]
  }

  ghost predicate Counts(f: Flow, bots: set<string>, k: map<string, nat>)
    requires FlowShape(f, bots)
  {
    && k.Keys == bots
    && forall c {:trigger CountAt(f, bots, k, c)} :: c in bots ==> CountAt(f, bots, k, c)
  }

  ghost predicate Queues(n: Net, f: Flow, links: Edges, bots: set<string>, k: map<string, nat>)
    requires FlowShape(f, bots) && Counts(f, bots, k)
  {
    forall x, y {:trigger Queue(n, x, y)} :: (x, y) in links ==>
      x in bots && y in bots && CountAt(f, bots, k, y) && QueueAt(Queue(n, x, y), f, bots, k, x, y)
  }

  /** The net is part-way through the wave. */
  ghost predicate During(n: Net, f: Flow, links: Edges, k: map<string, nat>) {
    && FlowOk(f, links, n.views.Keys) && n.links == links && !n.fault
    && Counts(f, n.views.Keys, k)
    && (forall c {:trigger n.views[c]} :: c in n.views ==> k[c] < |f.after[c]| && n.views[c] == f.after[c][k[c]])
    && Queues(n, f, links, n.views.Keys, k)
  }

  lemma InNbrs(links: Edges, c: string, p: string)
    requires (c, p) in links
    ensures p in Nbrs(links, c)
  {
    var e := (c, p);
    assert e in links && e.0 == c;
  }

  /** The receiver of a possible delivery is due the line at the head of the queue, and accepts it. */
  lemma DeliverAccepted(n: Net, f: Flow, links: Edges, k: map<string, nat>, p: string, c: string)
    requires During(n, f, links, k) && CanDeliver(n, p, c)
    ensures p in n.views && p != c && f.from[c] == p && k[c] < |f.stream[c]| && Queue(n, p, c)[0] == f.stream[c][k[c]]
    ensures c !in f.origins ==> k[c] < k[p] && f.stream[p] == f.stream[c]
    ensures c in f.origins ==> p in f.origins
    ensures Handle(c, n.views[c], Nbrs(links, c), p, Queue(n, p, c)[0]) == Forwarded(f.after[c][k[c] + 1])
  {
    var bots := n.views.Keys;
    assert QueueAt(Queue(n, p, c), f, bots, k, p, c);
    assert CountAt(f, bots, k, c);
    assert PassedOn(f, bots, p, c);
    assert FedBy(f, links, bots, c);
    assert HandledAt(f, links, bots, c, k[c]);
  }

  lemma CountsAfter(f: Flow, links: Edges, bots: set<string>, k: map<string, nat>, p: string, c: string)
    requires FlowOk(f, links, bots) && Counts(f, bots, k) && c in bots && p in bots
    requires f.from[c] == p && k[c] < |f.stream[c]|
    requires c !in f.origins ==> k[c] < k[p] && f.stream[p] == f.stream[c]
    ensures Counts(f, bots, k[c := k[c] + 1])
  {
    var k' := k[c := k[c] + 1];
    assert k'.Keys == bots;
    forall d | d in bots ensures CountAt(f, bots, k', d) {
      assert CountAt(f, bots, k, d);
      assert CountAt(f, bots, k, c);
      assert FedBy(f, links, bots, d);
    }
  }

  /** What an accepted delivery does to the queue of the link x-y. */
  lemma DeliverQueue(n: Net, p: string, c: string, x: string, y: string)
    requires CanDeliver(n, p, c) && (x, y) in n.links
    requires Handle(c, n.views[c], Nbrs(n.links, c), p, Queue(n, p, c)[0]).Forwarded?
    ensures Queue(Deliver(n, p, c), x, y) ==
            if x == p && y == c then Queue(n, x, y)[1..]
            else if x == c && y != p then Queue(n, x, y) + [Queue(n, p, c)[0]]
            else Queue(n, x, y)
  {
  }

  lemma QueueAfter(f: Flow, links: Edges, bots: set<string>, k: map<string, nat>, p: string, c: string,
                   x: string, y: string, q: seq<Msg>, q': seq<Msg>)
    requires FlowShape(f, bots) && k.Keys == bots && p in bots && c in bots && x in bots && y in bots
    requires PassedOn(f, bots, x, y) && FedBy(f, links, bots, c) && FedBy(f, links, bots, p) && (p, c) in links
    requires p != c && f.from[c] == p && k[c] < |f.stream[c]|
    requires c !in f.origins ==> k[c] < k[p] && f.stream[p] == f.stream[c]
    requires c in f.origins ==> p in f.origins
    requires CountAt(f, bots, k, y) && QueueAt(q, f, bots, k, x, y)
    requires CountAt(f, bots, k[c := k[c] + 1], y)
    requires q' == if x == p && y == c then (if q == [] then [] else q[1..])
                   else if x == c && y != p then q + [f.stream[c][k[c]]]
                   else q
    ensures QueueAt(q', f, bots, k[c := k[c] + 1], x, y)
  {
    var k' := k[c := k[c] + 1];
    if x == p && y == c {
    } else if x == c && y != p {
      assert f.stream[y][k[y]..k[c]] + [f.stream[c][k[c]]] == f.stream[y][k[y]..k'[c]];
    }
  }

  /** The queue of the link x-y before a delivery, as the wave has it. */
  lemma QueueBefore(n: Net, f: Flow, links: Edges, k: map<string, nat>, x: string, y: string)
    requires During(n, f, links, k) && (x, y) in links
    ensures x in n.views && y in n.views && PassedOn(f, n.views.Keys, x, y)
    ensures CountAt(f, n.views.Keys, k, y) && QueueAt(Queue(n, x, y), f, n.views.Keys, k, x, y)
  {
    assert QueueAt(Queue(n, x, y), f, n.views.Keys, k, x, y);
    assert PassedOn(f, n.views.Keys, x, y);
  }

  /** A net that differs from one in the wave as an accepted delivery makes it differ is in the wave. */
  lemma DuringNext(n: Net, n': Net, f: Flow, links: Edges, k: map<string, nat>, p: string, c: string)
    requires During(n, f, links, k) && c in n.views && p in n.views && (p, c) in links
    requires p != c && f.from[c] == p && k[c] < |f.stream[c]|
    requires c !in f.origins ==> k[c] < k[p] && f.stream[p] == f.stream[c]
    requires c in f.origins ==> p in f.origins
    requires n'.links == links && !n'.fault && n'.views == n.views[c := f.after[c][k[c] + 1]]
    requires forall x, y {:trigger Queue(n', x, y)} :: (x, y) in links ==>
               Queue(n', x, y) == (if x == p && y == c then (if Queue(n, x, y) == [] then [] else Queue(n, x, y)[1..])
                                   else if x == c && y != p then Queue(n, x, y) + [f.stream[c][k[c]]]
                                   else Queue(n, x, y))
    ensures During(n', f, links, k[c := k[c] + 1]) && n'.views.Keys == n.views.Keys
  {
    var bots, k' := n.views.Keys, k[c := k[c] + 1];
    CountsAfter(f, links, bots, k, p, c);
    assert n'.views.Keys == bots;
    assert FedBy(f, links, bots, c) && FedBy(f, links, bots, p);
    forall x, y | (x, y) in links
      ensures x in bots && y in bots && CountAt(f, bots, k', y) && QueueAt(Queue(n', x, y), f, bots, k', x, y)
    {
      QueueBefore(n, f, links, k, x, y);
      assert CountAt(f, bots, k', y);
      QueueAfter(f, links, bots, k, p, c, x, y, Queue(n, x, y), Queue(n', x, y));
    }
  }

  /** Any delivery that is possible during the wave moves exactly its receiver on by one line. */
  lemma DeliverDuring(n: Net, f: Flow, links: Edges, k: map<string, nat>, p: string, c: string)
    requires During(n, f, links, k) && CanDeliver(n, p, c)
    ensures k[c] < |f.stream[c]| && During(Deliver(n, p, c), f, links, k[c := k[c] + 1])
    ensures Deliver(n, p, c).views.Keys == n.views.Keys
  {
    DeliverAccepted(n, f, links, k, p, c);
    var n' := Deliver(n, p, c);
    forall x, y | (x, y) in links
      ensures Queue(n', x, y) == (if x == p && y == c then (if Queue(n, x, y) == [] then [] else Queue(n, x, y)[1..])
                                  else if x == c && y != p then Queue(n, x, y) + [f.stream[c][k[c]]]
                                  else Queue(n, x, y))
    {
      DeliverQueue(n, p, c, x, y);
    }
    DuringNext(n, n', f, links, k, p, c);
  }

  /** With every queue empty, every bot has taken its whole stream. */
  lemma {:induction false} QuietMeansDone(n: Net, f: Flow, links: Edges, k: map<string, nat>, c: string)
    requires During(n, f, links, k) && Quiet(n) && c in n.views
    requires forall o :: o in n.views && o in f.origins ==> (f.from[o], o) in links || |f.stream[o]| == 1
    ensures k[c] == |f.stream[c]|
    decreases f.rank[c]
  {
    var bots := n.views.Keys;
    assert CountAt(f, bots, k, c);
    assert FedBy(f, links, bots, c);
    if f.stream[c] != [] && (f.from[c], c) in links {
      assert QueueAt(Queue(n, f.from[c], c), f, bots, k, f.from[c], c);
      if c !in f.origins {
        QuietMeansDone(n, f, links, k, f.from[c]);
      }
    }
  }

  // ------------------------------------------------------------- whole runs

  ghost function Total(k: map<string, nat>): nat {
    if k == map[] then 0
    else
      var c :| c in k;
      k[c] + Total(k - {c})
  }

  lemma {:induction false} TotalOf(k: map<string, nat>, c: string)
    requires c in k
    ensures Total(k) == k[c] + Total(k - {c})
  {
    var d :| d in k && Total(k) == k[d] + Total(k - {d});
    if d != c {
      TotalOf(k - {d}, c);
      TotalOf(k - {c}, d);
      assert k - {d} - {c} == k - {c} - {d};
    }
  }

  lemma TotalBump(k: map<string, nat>, c: string)
    requires c in k
    ensures Total(k[c := k[c] + 1]) == Total(k) + 1
  {
    TotalOf(k, c);
    TotalOf(k[c := k[c] + 1], c);
    assert k[c := k[c] + 1] - {c} == k - {c};
  }

  lemma {:induction false} TotalMonotone(k: map<string, nat>, l: map<string, nat>)
    requires k.Keys == l.Keys && forall c :: c in k ==> k[c] <= l[c]
    ensures Total(k) <= Total(l)
  {
    if k != map[] {
      var c :| c in k;
      TotalOf(k, c);
      TotalOf(l, c);
      TotalMonotone(k - {c}, l - {c});
    } else {
      assert l == map[];
    }
  }

  /** How many deliveries the wave needs in all. */
  ghost function Lengths(f: Flow): map<string, nat> {
    map c | c in f.stream :: |f.stream[c]|
  }

  lemma StepDuring(n: Net, n': Net, f: Flow, links: Edges, k: map<string, nat>) returns (k': map<string, nat>)
    requires During(n, f, links, k) && Delivers(n, n')
    ensures During(n', f, links, k') && Total(k') == Total(k) + 1 && n'.views.Keys == n.views.Keys
  {
    var p, c :| CanDeliver(n, p, c) && n' == Deliver(n, p, c);
    DeliverDuring(n, f, links, k, p, c);
    TotalBump(k, c);
    k' := k[c := k[c] + 1];
  }

  /** Along every run the wave stays on course, and each delivery adds one to the lines taken. */
  lemma {:induction false} RunDuring(r: seq<Net>, f: Flow, links: Edges, k: map<string, nat>) returns (k': map<string, nat>)
    requires Run(r) && During(r[0], f, links, k)
    ensures During(r[|r| - 1], f, links, k') && Total(k') == Total(k) + |r| - 1
    ensures r[|r| - 1].views.Keys == r[0].views.Keys
  {
    if |r| == 1 {
      k' := k;
    } else {
      var q := r[..|r| - 1];
      forall i | 0 <= i < |q| - 1 ensures Delivers(q[i], q[i + 1]) {
        assert Delivers(r[i], r[i + 1]);
      }
      var l := RunDuring(q, f, links, k);
      assert Delivers(r[|r| - 2], r[|r| - 2 + 1]);
      k' := StepDuring(r[|r| - 2], r[|r| - 1], f, links, l);
    }
  }

  lemma RunBounded(n: Net, f: Flow, links: Edges, k: map<string, nat>)
    requires During(n, f, links, k)
    ensures Total(k) <= Total(Lengths(f))
  {
    TotalMonotone(k, Lengths(f));
  }
}
