/** The table of people on the botnet's party line: a growable array in which a
    removed entry is overwritten by the last one. */
module PartyLine {

  datatype Party = Party(nick: string, bot: string, sock: int, chan: int, flag: char, from: string, timer: int, away: string)

  /** No two entries share bot and socket. */
  ghost predicate DistinctKeys(s: seq<Party>) {
    forall i, j :: 0 <= i < j < |s| ==> s[i].bot != s[j].bot || s[i].sock != s[j].sock
  }

  ghost function Elems(s: seq<Party>): set<Party> {
    set p | p in s
  }

  /** The people on any of the given bots. */
  ghost function On(ps: set<Party>, bots: set<string>): set<Party> {
    set p | p in ps && p.bot in bots
  }

  lemma {:induction false} ElemsSize(s: seq<Party>)
    requires DistinctKeys(s)
    ensures |Elems(s)| == |s|
  {
    if s != [] {
      var p, z := s[..|s| - 1], s[|s| - 1];
      ElemsSize(p);
      assert s == p + [z];
      assert Elems(s) == Elems(p) + {z};
    }
  }

  /** How many of the entries sit on `bot`. */
  ghost function CountOn(s: seq<Party>, bot: string): nat {
    if s == [] then 0
    else CountOn(s[..|s| - 1], bot) + if s[|s| - 1].bot == bot then 1 else 0
  }

  lemma {:induction false} CountOnIs(s: seq<Party>, bot: string)
    requires DistinctKeys(s)
    ensures CountOn(s, bot) == |On(Elems(s), {bot})|
  {
    if s != [] {
      var p, z := s[..|s| - 1], s[|s| - 1];
      CountOnIs(p, bot);
      assert s == p + [z];
      if z.bot == bot {
        assert On(Elems(s), {bot}) == On(Elems(p), {bot}) + {z};
      } else {
        assert On(Elems(s), {bot}) == On(Elems(p), {bot});
      }
    }
  }

  /** The last entry moved over entry `i`. */
  function Overwrite(s: seq<Party>, i: nat): seq<Party>
    requires i < |s|
  {
    s[i := s[|s| - 1]][..|s| - 1]
  }

  lemma OverwriteDrops(s: seq<Party>, i: nat)
    requires DistinctKeys(s) && i < |s|
    ensures DistinctKeys(Overwrite(s, i))
    ensures Elems(Overwrite(s, i)) == Elems(s) - {s[i]}
  {
    var n, r := |s| - 1, Overwrite(s, i);
    forall p | p in Elems(s) - {s[i]} ensures p in Elems(r) {
      var k :| 0 <= k < |s| && s[k] == p;
      if k == n { assert r[i] == p; } else { assert r[k] == p; }
    }
    forall p | p in Elems(r) ensures p in Elems(s) - {s[i]} {
      var k :| 0 <= k < |r| && r[k] == p;
      var k' := if k == i then n else k;
      assert s[k'] == p && k' != i;
    }
  }

  ghost predicate Is(p: Party, bot: string, sock: int) {
    p.bot == bot && p.sock == sock
  }

  /** The array contents once the entry of that bot and socket is gone. */
  ghost predicate Removed(s: seq<Party>, bot: string, sock: int, r: seq<Party>) {
    if exists i :: 0 <= i < |s| && Is(s[i], bot, sock)
    then exists i :: 0 <= i < |s| && Is(s[i], bot, sock) && r == Overwrite(s, i)
    else r == s
  }

  lemma RemovedElems(s: seq<Party>, bot: string, sock: int, r: seq<Party>)
    requires DistinctKeys(s) && Removed(s, bot, sock, r)
    ensures DistinctKeys(r) && Elems(r) == set p | p in s && !Is(p, bot, sock)
  {
    if exists i :: 0 <= i < |s| && Is(s[i], bot, sock) {
      var i :| 0 <= i < |s| && Is(s[i], bot, sock) && r == Overwrite(s, i);
      OverwriteDrops(s, i);
    }
  }

  class PartyLine {
    var party: array<Party>
    var parties: nat

    ghost predicate Valid()
      reads this, party
    {
      parties <= party.Length && DistinctKeys(party[..parties])
    }

    ghost function Members(): set<Party>
      reads this, party
      requires parties <= party.Length
    {
      Elems(party[..parties])
    }

    constructor ()
      ensures Valid() && fresh(party) && Members() == {} && parties == 0
    {
      party := new Party[0];
      parties := 0;
    }

    /** The counter is the number of people. */
    lemma Counted()
      requires Valid()
      ensures parties == |Members()|
    {
      ElemsSize(party[..parties]);
    }

    /** A new member, or a new channel for one already listed; the array doubles when full. */
    method AddParty(bot: string, nick: string, chan: int, flag: char, sock: int, from: string, now: int)
        returns (oldchan: int, idx: nat)
      requires Valid()
      modifies this, party
      ensures Valid() && (party == old(party) || fresh(party))
      ensures idx < parties && party[idx].bot == bot && party[idx].sock == sock
              && party[idx].chan == chan && party[idx].timer == now
      ensures from != "" ==> party[idx].from == from && party[idx].flag == if flag == ' ' then '-' else flag
      ensures if exists p :: p in old(Members()) && p.bot == bot && p.sock == sock
              then exists p :: p in old(Members()) && p.bot == bot && p.sock == sock && oldchan == p.chan
                               && Members() == old(Members()) - {p} + {party[idx]}
                               && party[idx].nick == p.nick && party[idx].away == p.away
                               && (from == "" ==> party[idx].from == p.from && party[idx].flag == p.flag)
              else oldchan == -1 && Members() == old(Members()) + {party[idx]}
                   && party[idx].nick == nick && party[idx].away == ""
                   && (from == "" ==> party[idx].from == "(unknown)" && party[idx].flag == ' ')
    {
      var i := 0;
      ghost var s := party[..parties];
      while i < parties
        invariant i <= parties && Valid() && party[..parties] == s
        invariant forall k :: 0 <= k < i ==> party[k].bot != bot || party[k].sock != sock
      {
        if party[i].bot == bot && party[i].sock == sock {
          oldchan := party[i].chan;
          idx := i;
          var p := party[i].(chan := chan, timer := now);
          if from != "" {
            p := p.(flag := if flag == ' ' then '-' else flag, from := from);
          }
          party[i] := p;
          assert party[..parties] == s[i := p];
          UpdateElems(s, i, p);
          assert s[i] in Elems(s);
          return;
        }
        i := i + 1;
      }
      if party.Length == 0 || parties == party.Length {
        var size := if party.Length == 0 then 1 else party.Length * 2;
        var q := new Party[size];
        forall k | 0 <= k < parties {
          q[k] := party[k];
        }
        party := q;
      }
      party[parties] := if from != ""
        then Party(nick, bot, sock, chan, if flag == ' ' then '-' else flag, from, now, "")
        else Party(nick, bot, sock, chan, ' ', "(unknown)", now, "");
      assert party[..parties] == s;
      idx := parties;
      parties := parties + 1;
      oldchan := -1;
      assert party[..parties] == s + [party[idx]];
      assert Elems(s + [party[idx]]) == Elems(s) + {party[idx]};
    }

    /** Removes the one entry of that bot and socket, if there is one. */
    method RemParty(bot: string, sock: int)
      requires Valid()
      modifies this, party
      ensures Valid() && party == old(party) && Removed(old(party[..parties]), bot, sock, party[..parties])
      ensures Members() == set p | p in old(Members()) && !Is(p, bot, sock)
    {
      ghost var s := party[..parties];
      ghost var h := -1;
      var i := 0;
      while i < parties
        invariant i <= |s| && parties <= party.Length && party == old(party) && -1 <= h < |s|
        invariant h == -1 ==> party[..parties] == s && forall k :: 0 <= k < i ==> !Is(s[k], bot, sock)
        invariant h >= 0 ==> Is(s[h], bot, sock) && party[..parties] == Overwrite(s, h)
      {
        if party[i].bot == bot && party[i].sock == sock {
          assert h == -1;
          parties := parties - 1;
          if i < parties {
            party[i] := party[parties];
          }
          assert party[..parties] == Overwrite(s, i);
          h := i;
        }
        i := i + 1;
      }
      RemovedElems(s, bot, sock, party[..parties]);
    }

    /** Removes everybody on `bot`; the entry moved into a hole is looked at again. */
    method RemPartyBot(bot: string)
      requires Valid()
      modifies this, party
      ensures Valid() && party == old(party)
      ensures Members() == set p | p in old(Members()) && p.bot != bot
    {
      var i := 0;
      while i < parties
        invariant 0 <= i <= parties && Valid() && party == old(party)
        invariant forall k :: 0 <= k < i ==> party[k].bot != bot
        invariant (set p | p in Members() && p.bot != bot) == (set p | p in old(Members()) && p.bot != bot)
        decreases parties - i
      {
        if party[i].bot == bot {
          ghost var s := party[..parties];
          assert Is(s[i], bot, s[i].sock);
          RemParty(bot, party[i].sock);
          ghost var h :| 0 <= h < |s| && Is(s[h], bot, s[i].sock) && party[..parties] == Overwrite(s, h);
          assert h == i;
          assert forall k :: 0 <= k < i ==> party[..parties][k] == s[k];
          i := i - 1;
        }
        i := i + 1;
      }
      assert forall p :: p in Members() ==> p.bot != bot;
    }
  }

  lemma UpdateElems(s: seq<Party>, i: nat, p: Party)
    requires DistinctKeys(s) && i < |s| && p.bot == s[i].bot && p.sock == s[i].sock
    ensures DistinctKeys(s[i := p]) && Elems(s[i := p]) == Elems(s) - {s[i]} + {p}
  {
    var r := s[i := p];
    forall q | q in Elems(s) - {s[i]} + {p} ensures q in Elems(r) {
      if q == p { assert r[i] == p; }
      else { var k :| 0 <= k < |s| && s[k] == q; assert r[k] == q; }
    }
    forall q | q in Elems(r) ensures q in Elems(s) - {s[i]} + {p} {
      var k :| 0 <= k < |r| && r[k] == q;
    }
  }
}
