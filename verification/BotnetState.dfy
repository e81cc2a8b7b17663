/** One bot's picture of the botnet: the list of other bots with its name index and
    counter, the party line, and the links to direct neighbours. */
module BotnetState {
  import opened Wrappers
  import opened Forest
  import opened BotProtocol
  import opened Renaming
  import opened PartyLine

  /** One dcc[] entry as far as the botnet is concerned: `isBot` means an established
      bot link, `leaf` the leaf flag, `out` the topology lines sent to it. */
  datatype Peer = Peer(nick: string, isBot: bool, leaf: bool, out: seq<Msg>)

  const LOST_PEER := Peer("", false, false, [])

  /** Every established link except number `x` gets the line `m`. */
  function Broadcast(dcc: seq<Peer>, x: int, m: Msg): seq<Peer> {
    seq(|dcc|, i requires 0 <= i < |dcc| =>
      if dcc[i].isBot && i != x then dcc[i].(out := dcc[i].out + [m]) else dcc[i])
  }

  ghost function BotNicks(dcc: seq<Peer>): set<string> {
    set i | 0 <= i < |dcc| && dcc[i].isBot :: dcc[i].nick
  }

  /** The first established link to `nick`, or -1. */
  ghost predicate FirstLink(dcc: seq<Peer>, nick: string, j: int) {
    if j == -1 then nick !in BotNicks(dcc)
    else 0 <= j < |dcc| && dcc[j].isBot && dcc[j].nick == nick
         && forall i :: 0 <= i < j ==> !(dcc[i].isBot && dcc[i].nick == nick)
  }

  function SkipSpaces(s: string): string {
    if s != "" && s[0] == ' ' then SkipSpaces(s[1..]) else s
  }

  function WordLength(s: string): (n: nat)
    ensures n <= |s| && (n < |s| ==> s[n] == ' ') && (s != "" && s[0] != ' ' ==> n > 0)
  {
    if s == "" || s[0] == ' ' then 0 else 1 + WordLength(s[1..])
  }

  /** The first word of a line and what follows its separator. */
  function NewSplit(line: string): (string, string) {
    var s := SkipSpaces(line);
    var n := WordLength(s);
    (s[..n], if n < |s| then s[n + 1..] else "")
  }

  /** A line that has a second word has a first one. */
  lemma {:induction false} FirstWordPresent(line: string)
    ensures NewSplit(line).0 == "" ==> NewSplit(NewSplit(line).1).0 == ""
  {
    SkippedStart(line);
  }

  lemma {:induction false} SkippedStart(s: string)
    ensures SkipSpaces(s) == "" || SkipSpaces(s)[0] != ' '
  {
    if s != "" && s[0] == ' ' { SkippedStart(s[1..]); }
  }

  ghost function NamesIn(ts: seq<Tand>, s: set<nat>): set<string> {
    set t | t in ts && t.id in s :: t.info
  }

  /** The names of a bot and of everything below it. */
  ghost function NamesBelow(ts: seq<Tand>, p: nat): set<string> {
    NamesIn(ts, SubtreeAt(ts, p))
  }

  class Botnet {
    const botnetnick: string
    const line: PartyLine
    var tandbot: seq<Tand>
    var botTable: map<string, nat>
    var tands: int
    var dcc: seq<Peer>

    /** The index and the counter agree with the list. */
    ghost predicate Indexed()
      reads this
    {
      IndexedBy(botnetnick, tandbot, botTable) && tands == |tandbot|
    }

    ghost predicate Valid()
      reads this, line, line.party
    {
      && Indexed() && Linked(ME, tandbot)
      && line.Valid()
      && (forall i :: 0 <= i < |dcc| && dcc[i].isBot ==> dcc[i].nick != "" && dcc[i].nick != botnetnick)
    }

    /** The list on the level of names. */
    ghost function View(): View
      reads this
    {
      ViewOf(botnetnick, tandbot)
    }

    constructor (me: string)
      ensures Valid() && botnetnick == me && View() == [] && dcc == [] && fresh(line) && fresh(line.party)
    {
      botnetnick := me;
      var l := new PartyLine();
      line := l;
      tandbot, botTable, tands, dcc := [], map[], 0, [];
    }

    function FindBot(who: string): nat
      reads this
    {
      Find(botTable, who)
    }

    ghost predicate Listed(p: nat)
      reads this
    {
      exists t :: t in tandbot && t.id == p
    }

    lemma FindBotFinds(who: string)
      requires Valid()
      ensures FindBot(who) == NULL ==> who !in Ids(View()) && forall t :: t in tandbot ==> t.info != who
      ensures FindBot(who) != NULL ==> exists t :: t in tandbot && t.id == FindBot(who) && t.info == who
      ensures FindBot(who) != ME
    {
      ViewLinked(botnetnick, tandbot);
      if who in botTable {
        var t :| t in tandbot && t.info == who;
        UniqueAt(botnetnick, tandbot, t);
      } else {
        forall t | t in tandbot ensures t.info != who { InInfos(tandbot, t); }
      }
    }

    /** Some address that no entry of the list occupies. */
    method AllocAddress() returns (p: nat)
      ensures p > ME && p !in Ids(tandbot)
    {
      p := ME + 1;
      for i := 0 to |tandbot|
        invariant p > ME && forall k :: 0 <= k < i ==> tandbot[k].id < p
      {
        if tandbot[i].id >= p { p := tandbot[i].id + 1; }
      }
    }

    /** Appends a bot; its first hop may be itself, its parent is looked up by name. */
    method AddBot(who: string, from: string, next: string) returns (ghost p: nat)
      modifies `tandbot, `botTable, `tands
      ensures p > ME && p !in Ids(old(tandbot))
      ensures botTable == old(botTable)[who := p]
      ensures tandbot == old(tandbot) + [Node(p, if next == botnetnick then ME else FindBot(next), FindBot(from), who)]
      ensures tands == old(tands) + 1
    {
      var a := AllocAddress();
      botTable := botTable[who := a];
      var via := FindBot(from);
      var uplink := if next == botnetnick then ME else FindBot(next);
      tandbot := tandbot + [Node(a, uplink, via, who)];
      tands := tands + 1;
      p := a;
    }

    /** Removes the entry of that name, if there is one. */
    method RemBot(who: string)
      requires Indexed()
      modifies `tandbot, `botTable, `tands
      ensures Indexed()
      ensures if who in old(botTable)
              then tandbot == Without(old(tandbot), {old(botTable)[who]})
              else tandbot == old(tandbot)
    {
      var i := 0;
      while i < |tandbot| && tandbot[i].info != who
        invariant i <= |tandbot| && forall k :: 0 <= k < i ==> tandbot[k].info != who
      {
        i := i + 1;
      }
      if i == |tandbot| {
        return;
      }
      RemoveIndexed(botnetnick, tandbot, botTable, i);
      botTable := botTable - {tandbot[i].info};
      tandbot := tandbot[..i] + tandbot[i + 1..];
      tands := tands - 1;
    }

    /** Removes everything below `who` and everybody on `who` and below. */
    method UnVia(who: nat)
      requires Valid() && (who == NULL || Listed(who))
      modifies `tandbot, `botTable, `tands, line, line.party
      ensures Valid() && line.party == old(line.party)
      ensures who == NULL ==> tandbot == old(tandbot) && line.Members() == old(line.Members())
      ensures who != NULL ==>
        && tandbot == Without(old(tandbot), Desc(old(tandbot), who))
        && line.Members() == Off(old(line.Members()), NamesIn(old(tandbot), Subtree(old(tandbot), who)))
      decreases Desc(tandbot, who), 0
    {
      if who == NULL {
        return;
      }
      ghost var ts0, ps0, w := tandbot, line.Members(), NodeOf(tandbot, who);
      line.RemPartyBot(BotName(who));
      var i := 0;
      ghost var gone: set<nat> := {};
      WithoutNone(ts0, {});
      assert NamesIn(ts0, {}) == {};
      while i < |tandbot|
        invariant Valid() && line.party == old(line.party) && i <= |tandbot|
        invariant Peeled(ts0, who, gone, tandbot)
        invariant NoChildIn(tandbot[..i], who)
        invariant line.Members() == Off(ps0, NamesIn(ts0, gone) + {w.info})
        decreases |tandbot| - i
      {
        if tandbot[i].uplink == who {
          ghost var cur, ms := tandbot, line.Members();
          ChildSmaller(ts0, who, gone, cur, i);
          DropBot(i);
          LeafNow(botnetnick, cur, i, tandbot);
          PeelStep(ts0, who, gone, cur, i, ps0, w.info, ms);
          gone := gone + Subtree(cur, cur[i].id);
        } else {
          NoChildSnoc(tandbot, i, who);
          i := i + 1;
        }
      }
      NoChildAll(tandbot, who);
      PeelDone(ts0, who, gone, tandbot);
      assert NamesIn(ts0, gone) + {w.info} == NamesIn(ts0, Subtree(ts0, who)) by {
        SubtreeNames(ts0, w);
      }
    }

    /** Removes everything below entry `i`, then entry `i`, which by then still stands at its
        place, so that its successor is the next entry to look at. */
    method DropBot(i: nat)
      requires Valid() && i < |tandbot|
      modifies `tandbot, `botTable, `tands, line, line.party
      ensures Valid() && line.party == old(line.party)
      ensures tandbot == Prune(old(tandbot), old(tandbot)[i].id)
      ensures line.Members() == Off(old(line.Members()), NamesIn(old(tandbot), Subtree(old(tandbot), old(tandbot)[i].id)))
      decreases Desc(tandbot, tandbot[i].id), 1
    {
      ghost var cur := tandbot;
      var bot := tandbot[i];
      UniqueAt(botnetnick, cur, bot);
      UnVia(bot.id);
      StillAt(cur, i);
      assert tandbot[i] == bot;
      InInfos(tandbot, bot);
      PruneTwoStep(cur, bot.id);
      RemBot(bot.info);
      LeafNow(botnetnick, cur, i, tandbot);
    }

    /** The number of bots at and below `bot`. */
    method BotsInSubtree(bot: nat) returns (nr: int)
      requires Valid() && (bot == NULL || Listed(bot))
      ensures nr == if bot == NULL then 0 else |Subtree(tandbot, bot)|
      decreases Desc(tandbot, bot)
    {
      if bot == NULL {
        return 0;
      }
      nr := 1;
      for i := 0 to |tandbot|
        invariant nr == 1 + |Covered(tandbot, bot, i)|
      {
        var b := tandbot[i];
        UniqueAt(botnetnick, tandbot, b);
        if b.info != "" && b.uplink == bot {
          ChildBelow(tandbot, bot, i);
          var n := BotsInSubtree(b.id);
          CoveredSize(tandbot, bot, i);
          nr := nr + n;
        }
      }
      CoveredAll(ME, tandbot, bot);
      DescIrreflexive(ME, tandbot, bot);
    }

    /** The number of people on one bot. */
    method UsersOn(bot: string) returns (nr: int)
      requires Valid()
      ensures nr == |On(line.Members(), {bot})|
    {
      nr := 0;
      for i := 0 to line.parties
        invariant nr == CountOn(line.party[..i], bot)
      {
        assert line.party[..i + 1][..i] == line.party[..i];
        if line.party[i].bot == bot {
          nr := nr + 1;
        }
      }
      CountOnIs(line.party[..line.parties], bot);
    }

    /** The number of people at and below `bot`. */
    method UsersInSubtree(bot: nat) returns (nr: int)
      requires Valid() && (bot == NULL || Listed(bot))
      ensures nr == if bot == NULL then 0 else |On(line.Members(), NamesIn(tandbot, Subtree(tandbot, bot)))|
      decreases Desc(tandbot, bot)
    {
      if bot == NULL {
        return 0;
      }
      nr := UsersOn(BotName(bot));
      SelfOnly(tandbot, bot);
      for i := 0 to |tandbot|
        invariant nr == |On(line.Members(), NamesIn(tandbot, {bot} + Covered(tandbot, bot, i)))|
      {
        var b := tandbot[i];
        UniqueAt(botnetnick, tandbot, b);
        if b.info != "" && b.uplink == bot {
          ChildBelow(tandbot, bot, i);
          var n := UsersInSubtree(b.id);
          UsersAdd(botnetnick, tandbot, bot, i, line.Members());
          nr := nr + n;
        }
      }
      CoveredAll(ME, tandbot, bot);
    }

    /** The index of the link through which `who` is reached, or -1. */
    method NextBotIdx(who: string) returns (j: int)
      requires Valid()
      ensures -1 <= j < |dcc|
      ensures NextBot(View(), BotNicks(dcc), who) == if j == -1 then None else Some(dcc[j].nick)
      ensures j >= 0 ==> FirstLink(dcc, dcc[j].nick, j)
    {
      FindBotFinds(who);
      LookupSound(View(), who);
      if who !in botTable {
        return -1;
      }
      ListedUnique(tandbot, FindBot(who));
      ghost var bot := NodeOf(tandbot, FindBot(who));
      assert bot.info == who;
      var via := ViaOf(FindBot(who));
      ViewFinds(botnetnick, tandbot, bot, via);
      j := 0;
      while j < |dcc|
        invariant 0 <= j <= |dcc|
        invariant forall i :: 0 <= i < j ==> !(dcc[i].isBot && dcc[i].nick == via)
      {
        if dcc[j].nick == via && dcc[j].isBot {
          assert via in BotNicks(dcc);
          return;
        }
        j := j + 1;
      }
      j := -1;
    }

    /** The name behind the `via` pointer of the entry at address `p`. */
    function ViaOf(p: nat): (name: string)
      reads this
      requires WellLinked(botnetnick, tandbot) && Listed(p)
      ensures forall t, d :: t in tandbot && t.id == p && d in tandbot && d.id == t.via ==> d.info == name
    {
      ListedUnique(tandbot, p);
      var t :| t in tandbot && t.id == p;
      PointersListed(botnetnick, tandbot, t);
      BotName(t.via)
    }

    /** Sends a topology line to every link but number `x`. */
    method SendTandBut(x: int, m: Msg)
      modifies `dcc
      ensures dcc == Broadcast(old(dcc), x, m)
    {
      for i := 0 to |dcc|
        invariant |dcc| == |old(dcc)|
        invariant forall k :: 0 <= k < |dcc| ==> dcc[k] == if k < i then Broadcast(old(dcc), x, m)[k] else old(dcc)[k]
      {
        if dcc[i].isBot && i != x {
          dcc := dcc[i := dcc[i].(out := dcc[i].out + [m])];
        }
      }
    }

    method BotnetSend(x: int, m: Msg)
      modifies `dcc
      ensures dcc == if tands > 0 then Broadcast(old(dcc), x, m) else old(dcc)
    {
      if tands > 0 {
        SendTandBut(x, m);
      }
    }

    /** Describes the whole list to link `z`, in list order. */
    method DumpLinks(z: nat)
      requires Valid() && z < |dcc|
      modifies `dcc
      ensures dcc == old(dcc)[z := old(dcc)[z].(out := old(dcc)[z].out + Dump(View()))]
    {
      ViewLength(botnetnick, tandbot);
      ghost var d0 := dcc;
      assert dcc[z].out + Dump(View())[..0] == dcc[z].out;
      for i := 0 to |tandbot|
        invariant dcc == d0[z := d0[z].(out := d0[z].out + Dump(View())[..i])]
      {
        var bot := tandbot[i];
        PointersListed(botnetnick, tandbot, bot);
        var p := if bot.uplink == ME then botnetnick else BotName(bot.uplink);
        ViewAt(botnetnick, tandbot, i, p);
        assert Dump(View())[..i + 1] == Dump(View())[..i] + [Nlinked(bot.info, p)];
        assert d0[z].out + Dump(View())[..i + 1] == dcc[z].out + [Nlinked(bot.info, p)];
        dcc := dcc[z := dcc[z].(out := dcc[z].out + [Nlinked(bot.info, p)])];
      }
      assert Dump(View())[..|tandbot|] == Dump(View());
    }

    /** Drops `nick` with everything and everybody below it. */
    method Unlink(nick: string)
      requires Valid() && nick != botnetnick
      modifies `tandbot, `botTable, `tands, line, line.party
      ensures Valid() && line.party == old(line.party)
      ensures View() == Prune(old(View()), nick)
      ensures line.Members() == Off(old(line.Members()), NamesBelow(old(tandbot), old(FindBot(nick))))
      ensures tandbot == Without(old(tandbot), SubtreeAt(old(tandbot), old(FindBot(nick))))
    {
      ghost var ts := tandbot;
      FindBotFinds(nick);
      var p := FindBot(nick);
      if p == NULL {
        UnlinkAbsent(botnetnick, ts, nick);
        assert NamesIn(ts, {}) == {};
        UnVia(p);
        RemBot(nick);
      } else {
        ghost var i :| 0 <= i < |ts| && ts[i].id == p && ts[i].info == nick;
        ghost var t := ts[i];
        ViewPrune(botnetnick, ts, t);
        UnVia(p);
        StillAt(ts, i);
        InInfos(tandbot, t);
        PruneTwoStep(ts, p);
        RemBot(nick);
      }
    }

    /** Gives up dcc entry `idx`; an established link takes its subtree along. */
    method LostDcc(idx: nat)
      requires Valid() && idx < |dcc|
      modifies `tandbot, `botTable, `tands, `dcc, line, line.party
      ensures Valid() && line.party == old(line.party)
      ensures dcc == old(dcc)[idx := LOST_PEER]
      ensures var gone := if old(dcc)[idx].isBot then SubtreeAt(old(tandbot), old(FindBot(dcc[idx].nick))) else {};
              && tandbot == Without(old(tandbot), gone)
              && line.Members() == Off(old(line.Members()), NamesIn(old(tandbot), gone))
      ensures View() == if old(dcc)[idx].isBot then Prune(old(View()), old(dcc)[idx].nick) else old(View())
    {
      if dcc[idx].isBot {
        Unlink(dcc[idx].nick);
      } else {
        WithoutNone(tandbot, {});
        assert NamesIn(tandbot, {}) == {};
      }
      dcc := dcc[idx := LOST_PEER];
    }

    /** How many bots and how many users go with the subtree at `p`. */
    method CountBelow(p: nat) returns (bots: int, users: int)
      requires Valid() && (p == NULL || exists t :: t in tandbot && t.id == p)
      ensures |Without(tandbot, SubtreeAt(tandbot, p))| == tands - bots
      ensures |Off(line.Members(), NamesIn(tandbot, SubtreeAt(tandbot, p)))| == line.parties - users
    {
      LostCounts(tandbot, p, line.Members());
      line.Counted();
      bots := BotsInSubtree(p);
      users := UsersInSubtree(p);
    }

    /** The link `idx` is gone: counts what is lost, tells the others, and drops it. */
    method EofDccBot(idx: nat) returns (bots: int, users: int)
      requires Valid() && idx < |dcc| && dcc[idx].isBot
      modifies `tandbot, `botTable, `tands, `dcc, line, line.party
      ensures Valid()
      ensures tands == old(tands) - bots && line.parties == old(line.parties) - users
      ensures line.Members() == Off(old(line.Members()), NamesBelow(old(tandbot), old(FindBot(dcc[idx].nick))))
      ensures View() == Prune(old(View()), old(dcc)[idx].nick)
      ensures dcc == (if old(tands) > 0 then Broadcast(old(dcc), idx, Unlinked(old(dcc)[idx].nick)) else old(dcc))[idx := LOST_PEER]
    {
      bots, users := CountBelow(FindBot(dcc[idx].nick));
      BotnetSend(idx, Unlinked(dcc[idx].nick));
      LostDcc(idx);
      line.Counted();
    }

    /** Lists a bot whose guards have been checked. */
    method ListBot(who: string, from: string, next: string)
      requires Valid() && who !in Infos(tandbot) && who != botnetnick && who != ""
      requires if next == botnetnick then from == who else next != who && from != who && NextHop(tandbot, next, from)
      modifies `tandbot, `botTable, `tands
      ensures Valid() && View() == old(View()) + [Node(who, next, from, ())]
    {
      ghost var ts, table := tandbot, botTable;
      ghost var p := AddBot(who, from, next);
      AddBotKeeps(botnetnick, ts, table, who, from, next, p);
    }

    /** A new direct link introduces itself. */
    method BotVersion(idx: nat, handlen: int) returns (linked: bool)
      requires Valid() && idx < |dcc| && !dcc[idx].isBot && dcc[idx].nick != ""
      modifies `tandbot, `botTable, `tands, `dcc, line, line.party
      ensures Valid() && line.Members() == old(line.Members())
      ensures linked <==> old(dcc)[idx].nick != botnetnick && old(dcc)[idx].nick !in old(botTable) && handlen == HANDLEN
      ensures var nick := old(dcc)[idx].nick;
              if linked
              then View() == old(View()) + [Node(nick, botnetnick, nick, ())]
                   && dcc == (if old(tands) > 0 then Broadcast(old(dcc), idx, Nlinked(nick, botnetnick)) else old(dcc))
                             [idx := Peer(nick, true, old(dcc)[idx].leaf, old(dcc)[idx].out + Dump(old(View())))]
              else View() == old(View()) && dcc == old(dcc)[idx := LOST_PEER]
    {
      var nick := dcc[idx].nick;
      FindBotFinds(nick);
      if FindBot(nick) != NULL || nick == botnetnick || handlen != HANDLEN {
        OffNobody(tandbot, line.Members());
        LostDcc(idx);
        return false;
      }
      BotnetSend(idx, Nlinked(nick, botnetnick));
      DumpLinks(idx);
      dcc := dcc[idx := dcc[idx].(isBot := true)];
      ListBot(nick, nick, botnetnick);
      linked := true;
    }

    /** The guards on an announced bot: known link direction, new and printable name, no leaf. */
    method Believable(idx: nat, newbot: string, next: string) returns (ok: bool)
      requires Valid() && idx < |dcc| && dcc[idx].isBot && (newbot == "" ==> next == "")
      ensures var accepts := Accepts(botnetnick, View(), BotNicks(dcc), dcc[idx].nick, dcc[idx].leaf, newbot, next);
              (ok ==> accepts && newbot != "") && (accepts && FirstLink(dcc, dcc[idx].nick, idx) ==> ok)
      ensures var from := dcc[idx].nick;
              ok <==> (
                && !dcc[idx].leaf && next != "" && newbot != botnetnick
                && (forall t :: t in tandbot ==> t.info != newbot)
                && |newbot| <= 32 && (forall k :: 0 <= k < |newbot| ==> 32 <= newbot[k] as int <= 126)
                && (exists t, w :: t in tandbot && w in tandbot && t.info == next && t.via == w.id && w.info == from)
                && (forall i :: 0 <= i < idx && dcc[i].isBot ==> dcc[i].nick != from))
    {
      FindBotFinds(newbot);
      ViewLinked(botnetnick, tandbot);
      if next == "" || FindBot(newbot) != NULL || newbot == botnetnick {
        return false;
      }
      var bogus := false;
      for k := 0 to |newbot|
        invariant bogus <==> exists c :: 0 <= c < k && (!GoodChar(newbot[c]) || c >= HANDLEN)
      {
        if !GoodChar(newbot[k]) || k >= HANDLEN { bogus := true; }
      }
      if |newbot| > HANDLEN { assert !GoodChar(newbot[HANDLEN]) || HANDLEN >= HANDLEN; }
      var j := NextBotIdx(next);
      Announced(botnetnick, tandbot, dcc, idx, newbot, next);
      if j != idx { bogus := true; }
      ok := !bogus && !dcc[idx].leaf;
    }

    /** Cuts off the neighbour `idx` after telling the others. */
    method CutOff(idx: nat)
      requires Valid() && idx < |dcc| && dcc[idx].isBot
      modifies `tandbot, `botTable, `tands, `dcc, line, line.party
      ensures Valid() && View() == Prune(old(View()), old(dcc)[idx].nick)
      ensures line.Members() == Off(old(line.Members()), NamesBelow(old(tandbot), old(FindBot(dcc[idx].nick))))
      ensures dcc == (if old(tands) > 0 then Broadcast(old(dcc), idx, Unlinked(old(dcc)[idx].nick)) else old(dcc))[idx := LOST_PEER]
    {
      BotnetSend(idx, Unlinked(dcc[idx].nick));
      LostDcc(idx);
    }

    /** Passes a believed announcement on and lists the bot. */
    method TakeIn(idx: nat, newbot: string, next: string)
      requires Valid() && idx < |dcc| && dcc[idx].isBot && newbot != ""
      requires Accepts(botnetnick, View(), BotNicks(dcc), dcc[idx].nick, dcc[idx].leaf, newbot, next)
      modifies `tandbot, `botTable, `tands, `dcc
      ensures Valid() && View() == old(View()) + [Node(newbot, next, old(dcc)[idx].nick, ())]
      ensures dcc == Broadcast(old(dcc), idx, Nlinked(newbot, next))
    {
      var from := dcc[idx].nick;
      ListedOnce(botnetnick, tandbot, BotNicks(dcc), newbot, next, from);
      BotnetSend(idx, Nlinked(newbot, next));
      ListBot(newbot, from, next);
    }

    /** "n <newbot> <next> ...": believe it, pass it on and list the bot, or cut the sender off. */
    method BotNlinked(idx: nat, par: string) returns (accepted: bool)
      requires Valid() && idx < |dcc| && dcc[idx].isBot
      modifies `tandbot, `botTable, `tands, `dcc, line, line.party
      ensures Valid()
      ensures var newbot, next := NewSplit(par).0, NewSplit(NewSplit(par).1).0;
              var from := old(dcc)[idx].nick;
              accepted <==> (
                && !old(dcc)[idx].leaf && next != "" && newbot != botnetnick
                && (forall t :: t in old(tandbot) ==> t.info != newbot)
                && |newbot| <= 32 && (forall k :: 0 <= k < |newbot| ==> 32 <= newbot[k] as int <= 126)
                && (exists t, w :: t in old(tandbot) && w in old(tandbot) && t.info == next && t.via == w.id && w.info == from)
                && (forall i :: 0 <= i < idx && old(dcc)[i].isBot ==> old(dcc)[i].nick != from))
      ensures var newbot, next := NewSplit(par).0, NewSplit(NewSplit(par).1).0;
              var from := old(dcc)[idx].nick;
              && (accepted ==> Accepts(botnetnick, old(View()), BotNicks(old(dcc)), from, old(dcc)[idx].leaf, newbot, next))
              && (FirstLink(old(dcc), from, idx)
                  && Accepts(botnetnick, old(View()), BotNicks(old(dcc)), from, old(dcc)[idx].leaf, newbot, next)
                  ==> accepted)
              && (accepted ==> View() == old(View()) + [Node(newbot, next, from, ())]
                               && dcc == Broadcast(old(dcc), idx, Nlinked(newbot, next))
                               && line.Members() == old(line.Members()))
              && (!accepted ==> View() == Prune(old(View()), from)
                                && line.Members() == Off(old(line.Members()), NamesBelow(old(tandbot), old(FindBot(from))))
                                && dcc == (if old(tands) > 0 then Broadcast(old(dcc), idx, Unlinked(from)) else old(dcc))[idx := LOST_PEER])
    {
      var newbot, rest := NewSplit(par).0, NewSplit(par).1;
      var next := NewSplit(rest).0;
      FirstWordPresent(par);
      var ok := Believable(idx, newbot, next);
      if ok {
        TakeIn(idx, newbot, next);
      } else {
        CutOff(idx);
      }
      accepted := ok;
    }

    /** Passes a believed loss on and drops the bot with everything below it. */
    method TakeOut(idx: nat, bot: string)
      requires Valid() && bot != botnetnick && tands > 0
      modifies `tandbot, `botTable, `tands, `dcc, line, line.party
      ensures Valid() && View() == Prune(old(View()), bot)
      ensures tandbot == Without(old(tandbot), SubtreeAt(old(tandbot), old(FindBot(bot))))
      ensures line.Members() == Off(old(line.Members()), NamesBelow(old(tandbot), old(FindBot(bot))))
      ensures dcc == Broadcast(old(dcc), idx, Unlinked(bot))
    {
      BotnetSend(idx, Unlinked(bot));
      Unlink(bot);
    }

    /** "un <bot> ...": believe it only from the link that leads to the bot. */
    method BotUnlinked(idx: nat, par: string)
      requires Valid() && idx < |dcc| && dcc[idx].isBot
      modifies `tandbot, `botTable, `tands, `dcc, line, line.party
      ensures Valid()
      ensures var bot := NewSplit(par).0;
              var from := old(dcc)[idx].nick;
              FirstLink(old(dcc), from, idx) ==>
                match Handle(botnetnick, old(View()), BotNicks(old(dcc)), from, Unlinked(bot))
                case Forwarded(v) => View() == v && dcc == Broadcast(old(dcc), idx, Unlinked(bot))
                                     && line.Members() == Off(old(line.Members()), NamesBelow(old(tandbot), old(FindBot(bot))))
                case _ => View() == old(View()) && dcc == old(dcc) && line.Members() == old(line.Members())
      ensures var bot := NewSplit(par).0;
              var from := old(dcc)[idx].nick;
              if (exists t, w :: t in old(tandbot) && w in old(tandbot) && t.info == bot && t.via == w.id && w.info == from)
                 && (forall i :: 0 <= i < idx && old(dcc)[i].isBot ==> old(dcc)[i].nick != from)
              then tandbot == Without(old(tandbot), SubtreeAt(old(tandbot), old(FindBot(bot))))
                   && dcc == Broadcast(old(dcc), idx, Unlinked(bot))
              else tandbot == old(tandbot) && dcc == old(dcc) && line.Members() == old(line.Members())
    {
      var bot := NewSplit(par).0;
      var i := NextBotIdx(bot);
      Downstream(botnetnick, tandbot, dcc, idx, bot, i);
      if i >= 0 && i != idx {
        // wrong direction: only an alert
      } else if i >= 0 {
        NotMyself(botnetnick, tandbot, BotNicks(dcc), bot);
        TakeOut(idx, bot);
      }
    }

    function BotName(p: nat): (name: string)
      reads this
      requires Linked(ME, tandbot) && Listed(p)
      ensures forall t :: t in tandbot && t.id == p ==> t.info == name
    {
      ListedUnique(tandbot, p);
      var t :| t in tandbot && t.id == p;
      t.info
    }
  }

  /** Names and addresses are unique, and the index maps exactly the listed names to their entries. */
  ghost predicate IndexedBy(me: string, ts: seq<Tand>, table: map<string, nat>) {
    && UniqueNames(me, ts)
    && table.Keys == Infos(ts)
    && (forall t :: t in ts ==> table[t.info] == t.id)
  }

  lemma {:induction false} DistinctIds(me: string, ts: seq<Tand>)
    requires UniqueNames(me, ts)
    ensures forall j, k :: 0 <= j < k < |ts| ==> ts[j].id != ts[k].id
  {
    if ts != [] {
      var p := ts[..|ts| - 1];
      DistinctIds(me, p);
      forall j | 0 <= j < |p| ensures ts[j].id != ts[|ts| - 1].id {
        InIds(p, p[j]);
      }
    }
  }

  /** Dropping one entry and its name keeps list and index together. */
  lemma RemoveIndexed(me: string, ts: seq<Tand>, table: map<string, nat>, i: nat)
    requires IndexedBy(me, ts, table) && i < |ts|
    ensures ts[..i] + ts[i + 1..] == Without(ts, {ts[i].id})
    ensures IndexedBy(me, Without(ts, {ts[i].id}), table - {ts[i].info})
  {
    var us, z := Without(ts, {ts[i].id}), ts[i];
    DistinctIds(me, ts);
    CutOut(ts, i);
    WithoutNames(me, ts, {z.id});
    OneNameLess(me, ts, z);
    assert (table - {z.info}).Keys == Infos(us);
  }

  lemma OneNameLess(me: string, ts: seq<Tand>, z: Tand)
    requires UniqueNames(me, ts) && z in ts
    ensures Infos(Without(ts, {z.id})) == Infos(ts) - {z.info}
    ensures forall t :: t in Without(ts, {z.id}) ==> t in ts
  {
    var us := Without(ts, {z.id});
    UniqueAt(me, ts, z);
    forall t ensures t in us <==> t in ts && t.id != z.id { WithoutMembers(ts, {z.id}, t); }
    forall x | x in Infos(ts) && x != z.info ensures x in Infos(us) {
      var t :| t in ts && t.info == x;
      assert t in us;
    }
  }

  /** `next` is listed behind the first hop `from`. */
  ghost predicate NextHop(ts: seq<Tand>, next: string, from: string) {
    exists u, d :: u in ts && d in ts && u.info == next && d.id == u.via && d.info == from
  }

  /** What the index answers. */
  function Find(table: map<string, nat>, who: string): nat {
    if who in table then table[who] else NULL
  }

  lemma AppendIndexed(me: string, ts: seq<Tand>, table: map<string, nat>, z: Tand)
    requires IndexedBy(me, ts, table) && NewName(me, ts, z)
    ensures IndexedBy(me, ts + [z], table[z.info := z.id])
  {
    var us := ts + [z];
    assert us[..|us| - 1] == ts;
    InfosSnoc(us);
    forall t | t in us ensures table[z.info := z.id][t.info] == t.id {
      InSnoc(us, t);
      assert t in ts ==> t.info in Infos(ts);
    }
  }

  /** With a new, non-empty name whose parent is me or a listed bot behind `from`, the list stays well-formed. */
  lemma AddBotKeeps(me: string, ts: seq<Tand>, table: map<string, nat>, who: string, from: string, next: string, p: nat)
    requires IndexedBy(me, ts, table) && Linked(ME, ts)
    requires who !in table && who != me && who != "" && p > ME && p !in Ids(ts)
    requires if next == me then from == who else next != who && from != who && NextHop(ts, next, from)
    ensures var table' := table[who := p];
            var ts' := ts + [Node(p, if next == me then ME else Find(table', next), Find(table', from), who)];
            && IndexedBy(me, ts', table') && Linked(ME, ts')
            && ViewOf(me, ts') == ViewOf(me, ts) + [Node(who, next, from, ())]
  {
    var table' := table[who := p];
    var z := Node(p, if next == me then ME else Find(table', next), Find(table', from), who);
    AppendIndexed(me, ts, table, z);
    if next != me {
      var u, d :| u in ts && d in ts && u.info == next && d.id == u.via && d.info == from;
      assert z.uplink == u.id && z.via == d.id;
      UniqueAt(me, ts, u);
    }
    assert Attached(ME, ts, z);
    var us := ts + [z];
    assert us[..|ts|] == ts;
    ViewAppend(me, ts, z);
    NamesAre(me, us);
    assert z in us;
    forall t | t in ts ensures t in us { }
  }

  /** Who counts as being on a bot or below it, and who stays when that bot is pruned. */
  lemma WhoGoes(ts: seq<Tand>, p: nat, ps: set<Party>, x: Party)
    requires x in ps
    ensures x in On(ps, NamesBelow(ts, p))
            <==> exists t :: t in ts && p != NULL && (t.id == p || t.id in Desc(ts, p)) && t.info == x.bot
    ensures x in Off(ps, NamesBelow(ts, p)) <==> x !in On(ps, NamesBelow(ts, p))
    ensures Off(ps, NamesBelow(ts, p)) <= ps && On(ps, NamesBelow(ts, p)) <= ps
  {
    if x.bot in NamesBelow(ts, p) {
      var t :| t in ts && t.id in SubtreeAt(ts, p) && t.info == x.bot;
    }
  }

  lemma OffNobody(ts: seq<Tand>, ps: set<Party>)
    ensures Off(ps, NamesIn(ts, {})) == ps && Without(ts, {}) == ts
  {
    WithoutNone(ts, {});
  }

  lemma LostCounts(ts: seq<Tand>, p: nat, ps: set<Party>)
    requires Linked(ME, ts) && (p == NULL || exists t :: t in ts && t.id == p)
    ensures |Without(ts, SubtreeAt(ts, p))| == |ts| - |SubtreeAt(ts, p)|
    ensures |Off(ps, NamesIn(ts, SubtreeAt(ts, p)))| == |ps| - |On(ps, NamesIn(ts, SubtreeAt(ts, p)))|
  {
    DescListed(ts, p);
    WithoutLength(ME, ts, SubtreeAt(ts, p));
    var bots := NamesIn(ts, SubtreeAt(ts, p));
    assert ps == Off(ps, bots) + On(ps, bots);
    assert Off(ps, bots) !! On(ps, bots);
  }

  /** A parent found behind a link is a listed bot, different from the new one. */
  lemma ListedOnce(me: string, ts: seq<Tand>, links: set<string>, newbot: string, next: string, from: string)
    requires WellLinked(me, ts) && NextBot(ViewOf(me, ts), links, next) == Some(from) && newbot !in Ids(ViewOf(me, ts))
    ensures newbot !in Infos(ts) && |ts| > 0
    ensures next != newbot && next != me && from != newbot && NextHop(ts, next, from)
  {
    var v := ViewOf(me, ts);
    LookupSound(v, next);
    ViewLinked(me, ts);
    NamesAre(me, ts);
    var i :| 0 <= i < |v| && v[i].id == next && v[i].via == from;
    var u := ts[i];
    UniqueAt(me, ts, u);
    PointersListed(me, ts, u);
    var d :| d in ts && d.id == u.via;
    InInfos(ts, u);
    InInfos(ts, d);
  }

  /** The direction of a listed bot is the name of its first hop, if there is a link to that. */
  lemma Direction(me: string, ts: seq<Tand>, links: set<string>, who: string, from: string)
    requires WellLinked(me, ts) && from in links
    ensures NextBot(ViewOf(me, ts), links, who) == Some(from)
            <==> exists t, w :: t in ts && w in ts && t.info == who && t.via == w.id && w.info == from
  {
    var v := ViewOf(me, ts);
    LookupSound(v, who);
    NamesAre(me, ts);
    ViewLinked(me, ts);
    if NextBot(v, links, who) == Some(from) {
      var i :| 0 <= i < |v| && v[i].id == who && v[i].via == from;
      PointersListed(me, ts, ts[i]);
      var w :| w in ts && w.id == ts[i].via;
      assert ts[i] in ts && w.info == from;
    }
    if t, w :| t in ts && w in ts && t.info == who && t.via == w.id && w.info == from {
      ListedUnique(ts, w.id);
      ViewFinds(me, ts, t, from);
    }
  }

  /** The first link to the first hop of a bot is number `idx` exactly when `idx` leads to that bot, and no
      earlier link has the same name. */
  lemma Downstream(me: string, ts: seq<Tand>, dcc: seq<Peer>, idx: nat, who: string, j: int)
    requires WellLinked(me, ts) && idx < |dcc| && dcc[idx].isBot && -1 <= j < |dcc|
    requires NextBot(ViewOf(me, ts), BotNicks(dcc), who) == if j == -1 then None else Some(dcc[j].nick)
    requires j >= 0 ==> FirstLink(dcc, dcc[j].nick, j)
    ensures j == idx <==>
              && (exists t, w :: t in ts && w in ts && t.info == who && t.via == w.id && w.info == dcc[idx].nick)
              && (forall i :: 0 <= i < idx && dcc[i].isBot ==> dcc[i].nick != dcc[idx].nick)
  {
    Direction(me, ts, BotNicks(dcc), who, dcc[idx].nick);
  }

  /** The guards on an announcement, in terms of the list itself. */
  lemma Announced(me: string, ts: seq<Tand>, dcc: seq<Peer>, idx: nat, newbot: string, next: string)
    requires WellLinked(me, ts) && idx < |dcc| && dcc[idx].isBot
    ensures Accepts(me, ViewOf(me, ts), BotNicks(dcc), dcc[idx].nick, dcc[idx].leaf, newbot, next)
            <==> && !dcc[idx].leaf && next != "" && newbot != me
                 && (forall t :: t in ts ==> t.info != newbot)
                 && |newbot| <= 32 && (forall k :: 0 <= k < |newbot| ==> 32 <= newbot[k] as int <= 126)
                 && (exists t, w :: t in ts && w in ts && t.info == next && t.via == w.id && w.info == dcc[idx].nick)
  {
    ViewLinked(me, ts);
    Direction(me, ts, BotNicks(dcc), next, dcc[idx].nick);
    forall t | t in ts ensures t.info in Infos(ts) { InInfos(ts, t); }
  }

  lemma NotMyself(me: string, ts: seq<Tand>, links: set<string>, bot: string)
    requires WellLinked(me, ts) && NextBot(ViewOf(me, ts), links, bot).Some?
    ensures bot != me && |ts| > 0
  {
    var v := ViewOf(me, ts);
    LookupSound(v, bot);
    ViewLinked(me, ts);
    LinkedPrefix(me, v, |v|);
  }

  // ------------------------------------------------------------- names behind pointers

  /** `p` and everything below it; nothing for the null pointer. */
  ghost function SubtreeAt(ts: seq<Tand>, p: nat): set<nat> {
    if p == NULL then {} else Subtree(ts, p)
  }

  lemma ViewLength(me: string, ts: seq<Tand>)
    ensures |ViewOf(me, ts)| == |ts|
  {
  }

  /** What the view shows for entry `i`. */
  lemma ViewAt(me: string, ts: seq<Tand>, i: nat, up: string)
    requires WellLinked(me, ts) && i < |ts|
    requires if ts[i].uplink == ME then up == me
             else exists u :: u in ts && u.id == ts[i].uplink && u.info == up
    ensures ViewOf(me, ts)[i].id == ts[i].info && ViewOf(me, ts)[i].uplink == up
  {
    NamesAre(me, ts);
  }

  lemma ViewFinds(me: string, ts: seq<Tand>, t: Tand, via: string)
    requires WellLinked(me, ts) && t in ts
    requires forall d :: d in ts && d.id == t.via ==> d.info == via
    ensures Lookup(ViewOf(me, ts), t.info).Some? && Lookup(ViewOf(me, ts), t.info).value.via == via
  {
    NamesAre(me, ts);
    PointersListed(me, ts, t);
    ViewLinked(me, ts);
    var v := ViewOf(me, ts);
    var i :| 0 <= i < |ts| && ts[i] == t;
    assert v[i] in v;
    LookupFinds(me, v, v[i]);
    var d :| d in ts && d.id == t.via;
  }

  lemma UnlinkAbsent(me: string, ts: seq<Tand>, nick: string)
    requires WellLinked(me, ts) && nick != me && nick !in Infos(ts)
    ensures Prune(ViewOf(me, ts), nick) == ViewOf(me, ts) && Without(ts, {}) == ts
  {
    ViewLinked(me, ts);
    DescOfAbsent(me, ViewOf(me, ts), nick);
    WithoutNone(ViewOf(me, ts), Subtree(ViewOf(me, ts), nick));
    WithoutNone(ts, {});
  }

  // ------------------------------------------------------------- counting

  lemma ChildBelow(ts: seq<Tand>, bot: nat, i: nat)
    requires Linked(ME, ts) && i < |ts| && ts[i].uplink == bot
    ensures Desc(ts, ts[i].id) < Desc(ts, bot)
  {
    DescStep(ME, ts, bot, ts[i]);
    DescTransitive(ME, ts, bot, ts[i].id);
    DescIrreflexive(ME, ts, ts[i].id);
  }

  lemma CoveredSize(ts: seq<Tand>, bot: nat, i: nat)
    requires Linked(ME, ts) && i < |ts| && ts[i].uplink == bot
    ensures |Covered(ts, bot, i + 1)| == |Covered(ts, bot, i)| + |Subtree(ts, ts[i].id)|
  {
    CoveredDisjoint(ME, ts, bot, i);
    assert Covered(ts, bot, i + 1) == Covered(ts, bot, i) + Subtree(ts, ts[i].id);
  }

  lemma SelfOnly(ts: seq<Tand>, bot: nat)
    requires Linked(ME, ts) && exists t :: t in ts && t.id == bot
    ensures NamesIn(ts, {bot} + Covered(ts, bot, 0)) == {NodeOf(ts, bot).info}
  {
    ListedUnique(ts, bot);
  }

  lemma UsersAdd(me: string, ts: seq<Tand>, bot: nat, i: nat, ps: set<Party>)
    requires WellLinked(me, ts) && i < |ts| && ts[i].uplink == bot
    ensures var a, b := {bot} + Covered(ts, bot, i), Subtree(ts, ts[i].id);
            |On(ps, NamesIn(ts, a + b))| == |On(ps, NamesIn(ts, a))| + |On(ps, NamesIn(ts, b))|
    ensures {bot} + Covered(ts, bot, i + 1) == {bot} + Covered(ts, bot, i) + Subtree(ts, ts[i].id)
  {
    var a, b := {bot} + Covered(ts, bot, i), Subtree(ts, ts[i].id);
    CoveredDisjoint(ME, ts, bot, i);
    LinkedAt(ME, ts, ts[i]);
    AncestorNotBelow(ME, ts, ts[i], bot);
    NamesApart(me, ts, a, b);
    assert NamesIn(ts, a + b) == NamesIn(ts, a) + NamesIn(ts, b);
    assert On(ps, NamesIn(ts, a + b)) == On(ps, NamesIn(ts, a)) + On(ps, NamesIn(ts, b));
    assert On(ps, NamesIn(ts, a)) !! On(ps, NamesIn(ts, b));
  }

  lemma NamesApart(me: string, ts: seq<Tand>, a: set<nat>, b: set<nat>)
    requires UniqueNames(me, ts) && a !! b
    ensures NamesIn(ts, a) !! NamesIn(ts, b)
  {
    forall x | x in NamesIn(ts, a) ensures x !in NamesIn(ts, b) {
      var t :| t in ts && t.id in a && t.info == x;
      UniqueAt(me, ts, t);
    }
  }

  // ------------------------------------------------------------- peeling off subtrees

  ghost function NodeOf(ts: seq<Tand>, p: nat): (t: Tand)
    requires exists t :: t in ts && t.id == p
    ensures t in ts && t.id == p
  {
    var t :| t in ts && t.id == p;
    t
  }

  lemma ListedUnique(ts: seq<Tand>, p: nat)
    requires Linked(ME, ts)
    ensures forall s, t :: s in ts && t in ts && s.id == p && t.id == p ==> s == t
  {
    forall s, t | s in ts && t in ts && s.id == p && t.id == p ensures s == t {
      UniqueIds(ME, ts, s, t);
    }
  }

  /** The people who are on none of the given bots. */
  ghost function Off(ps: set<Party>, bots: set<string>): set<Party> {
    set p | p in ps && p.bot !in bots
  }

  /** `cur` is `ts0` with some complete subtrees below `who` taken out. */
  ghost predicate Peeled(ts0: seq<Tand>, who: nat, gone: set<nat>, cur: seq<Tand>) {
    && Linked(ME, ts0) && who in Ids(ts0)
    && cur == Without(ts0, gone) && gone <= Desc(ts0, who) && Closed(ts0, gone)
  }

  ghost predicate NoChildIn(ts: seq<Tand>, who: nat) {
    forall t :: t in ts ==> t.uplink != who
  }

  lemma NoChildSnoc(ts: seq<Tand>, i: nat, who: nat)
    requires i < |ts| && NoChildIn(ts[..i], who) && ts[i].uplink != who
    ensures NoChildIn(ts[..i + 1], who)
  {
    assert ts[..i + 1] == ts[..i] + [ts[i]];
  }

  lemma NoChildAll(ts: seq<Tand>, who: nat)
    ensures NoChildIn(ts[..|ts|], who) ==> NoChildIn(ts, who)
  {
    assert ts[..|ts|] == ts;
  }

  lemma ChildSmaller(ts0: seq<Tand>, who: nat, gone: set<nat>, cur: seq<Tand>, i: nat)
    requires Peeled(ts0, who, gone, cur) && i < |cur| && cur[i].uplink == who
    ensures Desc(cur, cur[i].id) < Desc(ts0, who) && cur[i].id in Desc(ts0, who)
    ensures Desc(cur, cur[i].id) <= Desc(ts0, cur[i].id)
  {
    var c := cur[i];
    WithoutMembers(ts0, gone, c);
    DescStep(ME, ts0, who, c);
    DescTransitive(ME, ts0, who, c.id);
    DescShrinks(ME, ts0, gone, c.id);
    DescIrreflexive(ME, ts0, c.id);
  }

  lemma StillAt(cur: seq<Tand>, i: nat)
    requires Linked(ME, cur) && i < |cur|
    ensures i < |Without(cur, Desc(cur, cur[i].id))| && Without(cur, Desc(cur, cur[i].id))[i] == cur[i]
  {
    DescBehind(ME, cur, i);
    WithoutKeepsPrefix(cur, Desc(cur, cur[i].id), i + 1);
    assert Without(cur, Desc(cur, cur[i].id))[..i + 1][i] == cur[..i + 1][i];
  }

  lemma PruneTwoStep(cur: seq<Tand>, c: nat)
    ensures Without(Without(cur, Desc(cur, c)), {c}) == Prune(cur, c)
  {
    WithoutTwice(cur, Desc(cur, c), {c});
    assert Desc(cur, c) + {c} == Subtree(cur, c);
  }

  /** A whole subtree can go without leaving a dangling pointer or touching what precedes it. */
  lemma LeafNow(me: string, cur: seq<Tand>, i: nat, p: seq<Tand>)
    requires WellLinked(me, cur) && i < |cur| && p == Prune(cur, cur[i].id)
    ensures WellLinked(me, p)
    ensures i <= |p| < |cur| && p[..i] == cur[..i]
  {
    ViewPrune(me, cur, cur[i]);
    assert cur[i] in cur;
    DescListed(cur, cur[i].id);
    InIds(cur, cur[i]);
    WithoutLength(ME, cur, Subtree(cur, cur[i].id));
    DescBehind(ME, cur, i);
    assert cur[..i + 1][..i] == cur[..i];
    IdsSnoc(cur[..i + 1]);
    LinkedPrefix(ME, cur, i + 1);
    WithoutKeepsPrefix(cur, Subtree(cur, cur[i].id), i);
  }

  lemma PeelStep(ts0: seq<Tand>, who: nat, gone: set<nat>, cur: seq<Tand>, i: nat, ps0: set<Party>, name: string, ms: set<Party>)
    requires Peeled(ts0, who, gone, cur) && i < |cur| && cur[i].uplink == who && Linked(ME, cur)
    requires ms == Off(ps0, NamesIn(ts0, gone) + {name})
    ensures Peeled(ts0, who, gone + Subtree(cur, cur[i].id), Prune(cur, cur[i].id))
    ensures Off(ms, NamesIn(cur, Subtree(cur, cur[i].id))) == Off(ps0, NamesIn(ts0, gone + Subtree(cur, cur[i].id)) + {name})
  {
    PeelMore(ts0, who, gone, cur, i);
    PeelNames(ts0, who, gone, cur, i);
  }

  lemma PeelMore(ts0: seq<Tand>, who: nat, gone: set<nat>, cur: seq<Tand>, i: nat)
    requires Peeled(ts0, who, gone, cur) && i < |cur| && cur[i].uplink == who && Linked(ME, cur)
    ensures Peeled(ts0, who, gone + Subtree(cur, cur[i].id), Prune(cur, cur[i].id))
  {
    var c := cur[i].id;
    ChildSmaller(ts0, who, gone, cur, i);
    WithoutTwice(ts0, gone, Subtree(cur, c));
    forall t | t in ts0 && t.uplink in gone + Subtree(cur, c) ensures t.id in gone + Subtree(cur, c) {
      if t.id !in gone {
        WithoutMembers(ts0, gone, t);
        DescStep(ME, cur, c, t);
      }
    }
  }

  lemma PeelNames(ts0: seq<Tand>, who: nat, gone: set<nat>, cur: seq<Tand>, i: nat)
    requires Peeled(ts0, who, gone, cur) && i < |cur|
    ensures NamesIn(ts0, gone + Subtree(cur, cur[i].id)) == NamesIn(ts0, gone) + NamesIn(cur, Subtree(cur, cur[i].id))
  {
    var s := Subtree(cur, cur[i].id);
    forall t | t in cur ensures t in ts0 { WithoutMembers(ts0, gone, t); }
    forall t | t in ts0 && t.id in s && t.id !in gone ensures t in cur { WithoutMembers(ts0, gone, t); }
  }

  lemma PeelDone(ts0: seq<Tand>, who: nat, gone: set<nat>, cur: seq<Tand>)
    requires Peeled(ts0, who, gone, cur) && NoChildIn(cur, who)
    ensures gone == Desc(ts0, who)
  {
    forall t | t in ts0 && (t.uplink == who || t.uplink in gone) ensures t.id in gone {
      WithoutMembers(ts0, gone, t);
    }
    DescLeast(ts0, who, gone);
  }

  lemma SubtreeNames(ts0: seq<Tand>, w: Tand)
    requires Linked(ME, ts0) && w in ts0
    ensures NamesIn(ts0, Desc(ts0, w.id)) + {w.info} == NamesIn(ts0, Subtree(ts0, w.id))
  {
    ListedUnique(ts0, w.id);
  }

  lemma InInfos(ts: seq<Tand>, t: Tand)
    requires t in ts
    ensures t.info in Infos(ts)
  {
  }

  lemma InIds(ts: seq<Tand>, t: Tand)
    requires t in ts
    ensures t.id in Ids(ts)
  {
  }
}
