/** Whole histories of a botnet: links come and go, each change settling before the next. */
module Histories {
  import opened Forest
  import opened BotProtocol
  import opened LinkTree
  import opened Network
  import opened Joining
  import opened Losing

  datatype Event = Up(a: string, b: string) | Down(a: string, b: string)

  ghost predicate Possible(n: Net, e: Event) {
    match e
    case Up(a, b) => CanLink(n, a, b)
    case Down(a, b) => (a, b) in n.links && a in n.views && b in n.views && a != b
  }

  ghost function After(n: Net, e: Event): Net
    requires Possible(n, e)
  {
    match e
    case Up(a, b) => LinkUp(n, a, b)
    case Down(a, b) => LinkLost(n, a, b)
  }

  /** One event and the deliveries that follow it, in whatever order, until none is left. */
  datatype Era = Era(event: Event, run: seq<Net>)

  ghost predicate Settles(n: Net, e: Era) {
    Possible(n, e.event) && Run(e.run) && e.run[0] == After(n, e.event) && Quiet(e.run[|e.run| - 1])
  }

  ghost predicate History(n: Net, eras: seq<Era>)
    decreases |eras|
  {
    eras == [] || (Settles(n, eras[0]) && History(eras[0].run[|eras[0].run| - 1], eras[1..]))
  }

  ghost function End(n: Net, eras: seq<Era>): Net
    requires History(n, eras)
    decreases |eras|
  {
    if eras == [] then n else End(eras[0].run[|eras[0].run| - 1], eras[1..])
  }

  /** Bots that know nobody. */
  ghost function Strange(bots: set<string>): Net {
    Net({}, map b | b in bots :: [], map[], false)
  }

  lemma StrangeConsistent(bots: set<string>)
    requires forall b :: b in bots ==> ValidName(b)
    ensures Consistent(Strange(bots))
  {
  }

  lemma EraKeeps(n: Net, e: Era)
    requires Consistent(n) && Settles(n, e)
    ensures Consistent(e.run[|e.run| - 1])
  {
    match e.event
    case Up(a, b) => JoinConverges(n, a, b, e.run);
    case Down(a, b) => LossConverges(n, a, b, e.run);
  }

  lemma {:induction false} HistoryKeeps(n: Net, eras: seq<Era>)
    requires Consistent(n) && History(n, eras)
    ensures Consistent(End(n, eras))
    decreases |eras|
  {
    if eras != [] {
      EraKeeps(n, eras[0]);
      HistoryKeeps(eras[0].run[|eras[0].run| - 1], eras[1..]);
    }
  }

  /** From bots that know nobody, through any number of links and losses: no line is ever refused
      and every bot's list is exactly the tree of its component, rooted at itself. */
  lemma AlwaysTheTree(bots: set<string>, eras: seq<Era>, c: string)
    requires (forall b :: b in bots ==> ValidName(b)) && History(Strange(bots), eras)
    requires c in End(Strange(bots), eras).views
    ensures var n := End(Strange(bots), eras); !n.fault && Matches(c, n.views[c], n.links)
  {
    StrangeConsistent(bots);
    HistoryKeeps(Strange(bots), eras);
    var n := End(Strange(bots), eras);
    assert Matches(c, n.views[c], n.links);
  }

  /** As long as a line is under way, one can be delivered. */
  lemma NeverStuck(n: Net)
    requires !n.fault && !Quiet(n) && forall x, y :: (x, y) in n.links ==> y in n.views
    ensures exists p, c :: CanDeliver(n, p, c)
  {
    var x, y :| (x, y) in n.links && Queue(n, x, y) != [];
    assert CanDeliver(n, x, y);
  }
}
