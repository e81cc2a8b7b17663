/** The table of connections with its socket-to-index cache, and the relay of a party-line
    user to another bot. */
module DccTable {
  import opened DccPairs
  import opened Relays

  class DccTable {
    var dcc: seq<Entry>
    const sockMap: array<int>
    var sockMapInited: bool

    ghost predicate Valid()
      reads this
    {
      sockMap.Length == SOCK_MAP_SIZE && Sound(dcc)
    }

    constructor ()
      ensures Valid() && dcc == [] && !sockMapInited && fresh(sockMap)
    {
      dcc := [];
      sockMap := new int[SOCK_MAP_SIZE];
      sockMapInited := false;
    }

    // ----------------------------------------------------------- the socket cache

    /** What the cache says about a socket; nothing before its first use. */
    ghost function Cached(sock: int): int
      reads this, sockMap
      requires sockMap.Length == SOCK_MAP_SIZE
    {
      if sockMapInited && 0 <= sock < SOCK_MAP_SIZE then sockMap[sock] else -1
    }

    method EnsureInit()
      requires sockMap.Length == SOCK_MAP_SIZE
      modifies sockMap, `sockMapInited
      ensures sockMapInited && forall s :: Cached(s) == old(Cached(s))
    {
      if !sockMapInited {
        for i := 0 to sockMap.Length
          invariant forall k :: 0 <= k < i ==> sockMap[k] == -1
        {
          sockMap[i] := -1;
        }
        sockMapInited := true;
      }
    }

    method DccMapSet(sock: int, idx: int)
      requires sockMap.Length == SOCK_MAP_SIZE
      modifies sockMap, `sockMapInited
      ensures sockMapInited
      ensures forall s :: Cached(s) == if s == sock && 0 <= s < SOCK_MAP_SIZE then idx else old(Cached(s))
    {
      EnsureInit();
      if 0 <= sock < SOCK_MAP_SIZE {
        sockMap[sock] := idx;
      }
    }

    method DccMapClear(sock: int)
      requires sockMap.Length == SOCK_MAP_SIZE
      modifies sockMap
      ensures forall s :: Cached(s) == if s == sock then -1 else old(Cached(s))
    {
      if sockMapInited && 0 <= sock < SOCK_MAP_SIZE {
        sockMap[sock] := -1;
      }
    }

    /** Whatever the cache holds, the answer is an entry with that socket if and only if there is one;
        the cache is put right for that socket on the way. */
    method FindAnyIdx(z: int) returns (j: int)
      requires sockMap.Length == SOCK_MAP_SIZE
      modifies sockMap, `sockMapInited
      ensures j == -1 <==> forall k :: 0 <= k < |dcc| ==> dcc[k].sock != z
      ensures j != -1 ==> 0 <= j < |dcc| && dcc[j].sock == z
      ensures j != -1 && 0 <= z < SOCK_MAP_SIZE ==> Cached(z) == j
      ensures forall s :: s != z ==> Cached(s) == old(Cached(s))
    {
      EnsureInit();
      if 0 <= z < SOCK_MAP_SIZE {
        j := sockMap[z];
        if 0 <= j < |dcc| && dcc[j].sock == z {
          return;
        }
      }
      for i := 0 to |dcc|
        invariant forall k :: 0 <= k < i ==> dcc[k].sock != z
      {
        if dcc[i].sock == z {
          DccMapSet(z, i);
          assert dcc[i].sock == z;
          return i;
        }
      }
      j := -1;
    }

    method FindIdx(z: int) returns (j: int)
      requires sockMap.Length == SOCK_MAP_SIZE
      modifies sockMap, `sockMapInited
      ensures j == -1 <==>
                forall k :: 0 <= k < |dcc| && dcc[k].sock == z ==> dcc[k].kind !in {Chat, DnsRelay, DnsOther, Other(true)}
      ensures j != -1 ==> 0 <= j < |dcc| && dcc[j].sock == z && dcc[j].kind in {Chat, DnsRelay, DnsOther, Other(true)}
      ensures j != -1 && 0 <= z < SOCK_MAP_SIZE ==> Cached(z) == j
      ensures forall s :: s != z ==> Cached(s) == old(Cached(s))
    {
      EnsureInit();
      if 0 <= z < SOCK_MAP_SIZE {
        j := sockMap[z];
        if 0 <= j < |dcc| && dcc[j].sock == z && ValidIdx(dcc[j].kind) {
          assert dcc[j].sock == z;
          return;
        }
      }
      for i := 0 to |dcc|
        invariant forall k :: 0 <= k < i ==> !(dcc[k].sock == z && ValidIdx(dcc[k].kind))
      {
        if dcc[i].sock == z && ValidIdx(dcc[i].kind) {
          DccMapSet(z, i);
          assert dcc[i].sock == z && ValidIdx(dcc[i].kind);
          return i;
        }
      }
      j := -1;
    }

    // ----------------------------------------------------------- adding and removing entries

    /** Marks entry n as lost; it is removed later. */
    method LostDcc(n: int)
      requires sockMap.Length == SOCK_MAP_SIZE
      modifies `dcc, sockMap
      ensures dcc == if 0 <= n < |old(dcc)| then old(dcc)[n := LOST_ENTRY] else old(dcc)
    {
      if n < 0 || n >= |dcc| {
        return;
      }
      DccMapClear(dcc[n].sock);
      dcc := dcc[n := LOST_ENTRY];
    }

    /** Removes entry n; the last entry takes its place. */
    method RemoveDcc(n: nat)
      requires sockMap.Length == SOCK_MAP_SIZE && n < |dcc|
      modifies `dcc, sockMap, `sockMapInited
      ensures dcc == Compacted(old(dcc), n)
    {
      DccMapClear(dcc[n].sock);
      var last := |dcc| - 1;
      if n < last {
        DccMapSet(dcc[last].sock, n);
        dcc := dcc[n := dcc[last]];
      }
      dcc := dcc[..last];
      assert dcc == Compacted(old(dcc), n);
    }

    /** Leaves exactly the entries that are not lost. */
    method DccRemoveLost()
      requires sockMap.Length == SOCK_MAP_SIZE
      modifies `dcc, sockMap, `sockMapInited
      ensures forall k :: 0 <= k < |dcc| ==> !dcc[k].kind.Lost?
      ensures multiset(dcc) == Live(old(dcc))
      ensures Leads(old(dcc), dcc) && (old(Sound(dcc)) ==> Sound(dcc))
    {
      var i := 0;
      LeadsNowhere(dcc);
      while i < |dcc|
        invariant 0 <= i <= |dcc|
        invariant forall k :: 0 <= k < i ==> !dcc[k].kind.Lost?
        invariant Live(dcc) == Live(old(dcc))
        invariant Leads(old(dcc), dcc) && (old(Sound(dcc)) ==> Sound(dcc))
        decreases |dcc| - i
      {
        if dcc[i].kind.Lost? {
          RemoveLeads(old(dcc), dcc, i);
          RemoveDcc(i);
          i := i - 1;
        }
        i := i + 1;
      }
      NoneLost(dcc);
    }

    /** After the lost entries are gone, every other connection is found by its socket. */
    method FindAfterRemoval(e: Entry) returns (j: int)
      requires Valid() && e in dcc && Owns(e.kind)
      modifies `dcc, sockMap, `sockMapInited
      ensures Valid() && 0 <= j < |dcc| && dcc[j] == e && multiset(dcc) == Live(old(dcc))
    {
      ghost var i :| 0 <= i < |dcc| && dcc[i] == e;
      assert e.sock > 0;
      DccRemoveLost();
      LostOnesAt(old(dcc), e);
      assert e in multiset(dcc);
      ghost var k :| 0 <= k < |dcc| && dcc[k] == e;
      j := FindAnyIdx(e.sock);
      SocketIdentifies(dcc, j, k);
    }

    // ----------------------------------------------------------- relaying a user to another bot

    /** A party-line user asks to be relayed.  `reachable`: the bot is known, is not me and has an
        address; `room`: the table can grow; `sock` is what the system hands out, negative on failure. */
    method TandemRelay(idx: nat, reachable: bool, room: bool, sock: int)
      requires Valid() && idx < |dcc| && dcc[idx].kind.Chat?
      requires sock < 0 || (sock > 0 && forall k :: 0 <= k < |dcc| ==> dcc[k].sock != sock)
      modifies `dcc, sockMap
      ensures Valid() && Leads(old(dcc), dcc)
      ensures dcc == if !(reachable && room) then old(dcc)
                     else if sock < 0 then old(dcc) + [LOST_ENTRY]
                     else var u := old(dcc)[idx];
                          old(dcc)[idx := u.(kind := PreRelay, peer := sock, saved := u.status)]
                          + [Entry(sock, DnsRelay, u.sock, 0, 0)]
    {
      ghost var d := dcc;
      LeadsNowhere(d);
      if !reachable || !room {
        return;
      }
      var i := |dcc|;
      dcc := dcc + [Entry(0, DnsRelay, 0, 0, 0)];
      dcc := dcc[i := dcc[i].(sock := sock)];
      if dcc[i].sock < 0 {
        LostDcc(i);
        assert dcc == d + [LOST_ENTRY];
        Takes(d, NoSocket);
        return;
      }
      dcc := dcc[idx := dcc[idx].(kind := PreRelay, saved := dcc[idx].status)];
      dcc := dcc[idx := dcc[idx].(peer := dcc[i].sock)];
      dcc := dcc[i := dcc[i].(peer := dcc[idx].sock)];
      assert dcc == d[idx := dcc[idx]] + [dcc[i]];
      Takes(d, Start(idx, sock));
    }

    /** The user who waits for the far end with socket `sock`: the last such entry, or -1. */
    method FindWaitingUser(sock: int) returns (uidx: int)
      ensures uidx == -1 ==> forall k :: 0 <= k < |dcc| ==> !(dcc[k].kind.PreRelay? && dcc[k].peer == sock)
      ensures uidx != -1 ==> 0 <= uidx < |dcc| && dcc[uidx].kind.PreRelay? && dcc[uidx].peer == sock
    {
      uidx := -1;
      for i := 0 to |dcc|
        invariant uidx == -1 ==> forall k :: 0 <= k < i ==> !(dcc[k].kind.PreRelay? && dcc[k].peer == sock)
        invariant uidx != -1 ==> 0 <= uidx < i && dcc[uidx].kind.PreRelay? && dcc[uidx].peer == sock
      {
        if dcc[i].kind.PreRelay? && dcc[i].peer == sock {
          uidx := i;
        }
      }
    }

    /** The connection attempt failed: the user is back on the party line. */
    method FailedTandemRelay(idx: nat)
      requires Valid() && idx < |dcc| && (dcc[idx].kind.ForkRelay? || dcc[idx].kind.DnsRelay?)
      modifies `dcc, sockMap
      ensures Valid() && Leads(old(dcc), dcc)
      ensures exists u :: 0 <= u < |old(dcc)| && Pair(old(dcc)[u], old(dcc)[idx])
                          && dcc == old(dcc)[u := Restored(old(dcc)[u])][idx := LOST_ENTRY]
    {
      ghost var d := dcc;
      ghost var u := OneUserEnd(d, idx);
      var uidx := FindWaitingUser(dcc[idx].sock);
      assert uidx == u;
      dcc := dcc[uidx := Restored(dcc[uidx])];
      LostDcc(idx);
      Takes(d, Back(u, idx));
    }

    /** The name did not resolve. */
    method ResolveFailure(idx: nat)
      requires Valid() && idx < |dcc| && dcc[idx].kind.DnsRelay?
      modifies `dcc, sockMap
      ensures Valid() && Leads(old(dcc), dcc)
      ensures exists u :: 0 <= u < |old(dcc)| && Pair(old(dcc)[u], old(dcc)[idx])
                          && dcc == old(dcc)[u := Restored(old(dcc)[u])][idx := LOST_ENTRY]
    {
      ghost var d := dcc;
      ghost var u := OneUserEnd(d, idx);
      var uidx := -1;
      for i := 0 to |dcc|
        invariant uidx == -1 && forall k :: 0 <= k < i ==> !(dcc[k].kind.PreRelay? && dcc[k].peer == dcc[idx].sock)
      {
        if dcc[i].kind.PreRelay? && dcc[i].peer == dcc[idx].sock {
          uidx := i;
          break;
        }
      }
      assert uidx == u;
      dcc := dcc[uidx := Restored(dcc[uidx])];
      LostDcc(idx);
      Takes(d, Back(u, idx));
    }

    /** The name resolved to an IPv4 address; `started`: the connection attempt could be started. */
    method ResolveSuccess(idx: nat, started: bool)
      requires Valid() && idx < |dcc| && dcc[idx].kind.DnsRelay?
      modifies `dcc, sockMap
      ensures Valid() && Leads(old(dcc), dcc)
      ensures started ==> dcc == old(dcc)[idx := old(dcc)[idx].(kind := ForkRelay)]
      ensures !started ==> (exists u :: 0 <= u < |old(dcc)| && Pair(old(dcc)[u], old(dcc)[idx])
                                        && dcc == old(dcc)[u := Restored(old(dcc)[u])][idx := LOST_ENTRY])
    {
      ghost var d := dcc;
      var sock := dcc[idx].peer;
      dcc := dcc[idx := dcc[idx].(kind := ForkRelay)];
      dcc := dcc[idx := dcc[idx].(peer := sock)];
      assert dcc == d[idx := d[idx].(kind := ForkRelay)];
      Takes(d, Resolve(idx));
      if !started {
        ghost var e := dcc;
        FailedTandemRelay(idx);
        LeadsFurther(d, e, dcc);
        ghost var u' :| 0 <= u' < |e| && Pair(e[u'], e[idx]) && dcc == e[u' := Restored(e[u'])][idx := LOST_ENTRY];
        assert u' != idx && Pair(d[u'], d[idx]);
        assert dcc == d[u' := Restored(d[u'])][idx := LOST_ENTRY];
      }
    }

    /** The far end of a waiting user: first among the connecting entries by the user's socket,
        then among the resolving ones by the far end's. */
    method FindFarEnd(idx: nat) returns (tidx: int)
      requires Valid() && idx < |dcc| && dcc[idx].kind.PreRelay?
      ensures 0 <= tidx < |dcc| && Pair(dcc[idx], dcc[tidx])
    {
      ghost var far := OneFarEnd(dcc, idx);
      for i := 0 to |dcc|
        invariant forall k :: 0 <= k < i ==> !(dcc[k].kind.ForkRelay? && dcc[k].peer == dcc[idx].sock)
      {
        if dcc[i].kind.ForkRelay? && dcc[i].peer == dcc[idx].sock {
          return i;
        }
      }
      for i := 0 to |dcc|
        invariant forall k :: 0 <= k < i ==> !((dcc[k].kind.DnsRelay? || dcc[k].kind.DnsOther?) && dcc[k].sock == dcc[idx].peer)
      {
        if (dcc[i].kind.DnsRelay? || dcc[i].kind.DnsOther?) && dcc[i].sock == dcc[idx].peer {
          SocketIdentifies(dcc, i, far);
          return i;
        }
      }
      tidx := -1;
    }

    /** A line typed before the relay is up: only "*bye*" does anything. */
    method PreRelayInput(idx: nat, bye: bool)
      requires Valid() && idx < |dcc| && dcc[idx].kind.PreRelay?
      modifies `dcc, sockMap
      ensures Valid() && Leads(old(dcc), dcc)
      ensures !bye ==> dcc == old(dcc)
      ensures bye ==> exists t :: 0 <= t < |old(dcc)| && Pair(old(dcc)[idx], old(dcc)[t])
                          && dcc == old(dcc)[idx := Restored(old(dcc)[idx])][t := LOST_ENTRY]
    {
      ghost var d := dcc;
      LeadsNowhere(d);
      var tidx := FindFarEnd(idx);
      if bye {
        dcc := dcc[idx := Restored(dcc[idx])];
        LostDcc(tidx);
        Takes(d, Back(idx, tidx));
      }
    }

    /** The user left before the relay was up: both ends go. */
    method FailedPreRelay(idx: nat)
      requires Valid() && idx < |dcc| && dcc[idx].kind.PreRelay?
      modifies `dcc, sockMap
      ensures Valid() && Leads(old(dcc), dcc)
      ensures exists t :: 0 <= t < |old(dcc)| && Pair(old(dcc)[idx], old(dcc)[t])
                          && dcc == old(dcc)[idx := LOST_ENTRY][t := LOST_ENTRY]
    {
      ghost var d := dcc;
      var tidx := FindFarEnd(idx);
      var hi, lo := if idx > tidx then idx else tidx, if idx > tidx then tidx else idx;
      LostDcc(hi);
      LostDcc(lo);
      assert dcc == d[idx := LOST_ENTRY][tidx := LOST_ENTRY];
      Takes(d, Leave(idx, tidx));
    }

    /** The far end is connected: both ends switch to relaying, each naming the other's socket. */
    method ContTandemRelay(idx: nat)
      requires Valid() && idx < |dcc| && dcc[idx].kind.ForkRelay?
      modifies `dcc
      ensures Valid() && Leads(old(dcc), dcc)
      ensures exists u :: 0 <= u < |old(dcc)| && Pair(old(dcc)[u], old(dcc)[idx])
                          && dcc == old(dcc)[u := old(dcc)[u].(kind := Relaying)][idx := old(dcc)[idx].(kind := Relay)]
    {
      ghost var d := dcc;
      ghost var u := OneUserEnd(d, idx);
      var uidx := FindWaitingUser(dcc[idx].sock);
      assert uidx == u;
      dcc := dcc[idx := dcc[idx].(kind := Relay)];
      dcc := dcc[idx := dcc[idx].(peer := dcc[uidx].sock)];
      dcc := dcc[uidx := dcc[uidx].(peer := dcc[idx].sock)];
      dcc := dcc[uidx := dcc[uidx].(kind := Relaying)];
      assert dcc == d[u := d[u].(kind := Relaying)][idx := d[idx].(kind := Relay)];
      Takes(d, Connect(u, idx));
    }

    /** The other bot closed the connection: the user is back on the party line. */
    method EofDccRelay(idx: nat)
      requires Valid() && idx < |dcc| && dcc[idx].kind.Relay?
      modifies `dcc, sockMap
      ensures Valid() && Leads(old(dcc), dcc)
      ensures exists u :: 0 <= u < |old(dcc)| && Pair(old(dcc)[u], old(dcc)[idx])
                          && dcc == old(dcc)[u := Restored(old(dcc)[u])][idx := LOST_ENTRY]
    {
      ghost var d := dcc;
      ghost var u := OneUserEnd(d, idx);
      var j := 0;
      while j < |dcc| && dcc[j].sock != dcc[idx].peer
        invariant 0 <= j <= u
      {
        j := j + 1;
      }
      assert j == u;
      dcc := dcc[j := Restored(dcc[j])];
      LostDcc(idx);
      Takes(d, Back(u, idx));
    }

    /** The relayed user disconnected: both ends go.  The search has no bound of its own. */
    method EofDccRelaying(idx: nat)
      requires Valid() && idx < |dcc| && dcc[idx].kind.Relaying?
      modifies `dcc, sockMap
      ensures Valid() && Leads(old(dcc), dcc)
      ensures exists t :: 0 <= t < |old(dcc)| && Pair(old(dcc)[idx], old(dcc)[t])
                          && dcc == old(dcc)[idx := LOST_ENTRY][t := LOST_ENTRY]
    {
      ghost var d := dcc;
      ghost var far := OneFarEnd(d, idx);
      var x := dcc[idx].peer;
      LostDcc(idx);
      var j := 0;
      while dcc[j].sock != x || dcc[j].kind.ForkRelay?
        invariant 0 <= j <= far
        decreases far - j
      {
        j := j + 1;
      }
      SocketIdentifies(d, j, far);
      LostDcc(j);
      Takes(d, Leave(idx, far));
    }

    /** A line from the other bot goes to the relayed user.  The search has no bound of its own. */
    method DccRelay(idx: nat) returns (j: nat)
      requires Valid() && idx < |dcc| && dcc[idx].kind.Relay?
      ensures j < |dcc| && Pair(dcc[j], dcc[idx])
    {
      ghost var u := OneUserEnd(dcc, idx);
      j := 0;
      while dcc[j].sock != dcc[idx].peer || !dcc[j].kind.Relaying?
        invariant 0 <= j <= u
        decreases u - j
      {
        j := j + 1;
      }
      SocketIdentifies(dcc, j, u);
    }

    /** A line from the relayed user; "*bye*" ends the relay.  The search has no bound of its own. */
    method DccRelaying(idx: nat, bye: bool)
      requires Valid() && idx < |dcc| && dcc[idx].kind.Relaying?
      modifies `dcc, sockMap
      ensures Valid() && Leads(old(dcc), dcc)
      ensures !bye ==> dcc == old(dcc)
      ensures bye ==> exists t :: 0 <= t < |old(dcc)| && Pair(old(dcc)[idx], old(dcc)[t])
                          && dcc == old(dcc)[idx := Restored(old(dcc)[idx])][t := LOST_ENTRY]
    {
      ghost var d := dcc;
      LeadsNowhere(d);
      if !bye {
        return;
      }
      ghost var far := OneFarEnd(d, idx);
      var j := 0;
      while dcc[j].sock != dcc[idx].peer || !dcc[j].kind.Relay?
        invariant 0 <= j <= far
        decreases far - j
      {
        j := j + 1;
      }
      SocketIdentifies(d, j, far);
      dcc := dcc[idx := Restored(dcc[idx])];
      LostDcc(j);
      Takes(d, Back(idx, far));
    }

    // ----------------------------------------------------------- what else happens to the table

    /** Any other connection comes up, if the table has room or can grow. */
    method NewDcc(e: Entry, room: bool) returns (i: int)
      requires Valid() && !UserEnd(e.kind) && !FarEnd(e.kind) && !e.kind.Lost?
      requires if Owns(e.kind) then e.sock > 0 && forall k :: 0 <= k < |dcc| ==> dcc[k].sock != e.sock else e.sock == 0
      modifies `dcc
      ensures Valid() && Leads(old(dcc), dcc)
      ensures if room then i == |old(dcc)| && dcc == old(dcc) + [e] else i == -1 && dcc == old(dcc)
    {
      LeadsNowhere(dcc);
      if !room {
        return -1;
      }
      Takes(dcc, New(e));
      i := |dcc|;
      dcc := dcc + [e];
    }

    /** Any other connection is given up. */
    method LoseOther(idx: nat)
      requires Valid() && idx < |dcc| && !UserEnd(dcc[idx].kind) && !FarEnd(dcc[idx].kind)
      modifies `dcc, sockMap
      ensures Valid() && Leads(old(dcc), dcc) && dcc == old(dcc)[idx := LOST_ENTRY]
    {
      Takes(dcc, Lose(idx));
      LostDcc(idx);
    }

    /** Status bits of a connection change, by commands such as the one for echo. */
    method ChangeStatus(idx: nat, status: int)
      requires Valid() && idx < |dcc| && Owns(dcc[idx].kind)
      modifies `dcc
      ensures Valid() && Leads(old(dcc), dcc) && dcc == old(dcc)[idx := old(dcc)[idx].(status := status)]
    {
      Takes(dcc, Tune(idx, status));
      dcc := dcc[idx := dcc[idx].(status := status)];
    }
  }
}
