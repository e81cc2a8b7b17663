/** What makes a table of connections sound: sockets identify entries, and the two ends
    of a relayed party-line user find each other by socket number. */
module DccPairs {

  /** DNSWAIT entries are split by what they resolve for. */
  datatype Kind =
    | Chat | DnsRelay | ForkRelay | PreRelay | Relay | Relaying
    | DnsOther | Lost | Other(validIdx: bool)

  /** `peer` is the socket number of the other end: dns->ibuf or relay->sock, by kind;
      `saved` is the status a relayed user gets back. */
  datatype Entry = Entry(sock: int, kind: Kind, peer: int, status: int, saved: int)

  const LOST_ENTRY := Entry(-1, Lost, 0, 0, 0)
  const SOCK_MAP_SIZE := 65536

  predicate ValidIdx(k: Kind) {
    k.Chat? || k.DnsRelay? || k.DnsOther? || (k.Other? && k.validIdx)
  }

  /** Kinds that have a socket of their own. */
  predicate Owns(k: Kind) {
    !k.DnsOther? && !k.Lost?
  }

  /** Sockets in use are positive and different; entries without one carry none. */
  ghost predicate OwnSockets(d: seq<Entry>) {
    && (forall i {:trigger d[i]} :: 0 <= i < |d| ==> if Owns(d[i].kind) then d[i].sock > 0 else d[i].sock <= 0)
    && (forall i, j {:trigger d[i], d[j]} :: 0 <= i < j < |d| && d[i].sock > 0 ==> d[i].sock != d[j].sock)
  }

  /** The kind the other end of a relay has to have. */
  predicate Matching(user: Kind, far: Kind) {
    (user.PreRelay? && (far.DnsRelay? || far.ForkRelay?)) || (user.Relaying? && far.Relay?)
  }

  /** User end and far end of one relay point at each other by socket number. */
  predicate Pair(u: Entry, t: Entry) {
    Matching(u.kind, t.kind) && u.peer == t.sock && t.peer == u.sock
  }

  predicate UserEnd(k: Kind) { k.PreRelay? || k.Relaying? }

  predicate FarEnd(k: Kind) { k.DnsRelay? || k.ForkRelay? || k.Relay? }

  /** Every end of a relay has its other end in the table. */
  ghost predicate Paired(d: seq<Entry>) {
    && (forall u :: u in d && UserEnd(u.kind) ==> exists t :: t in d && Pair(u, t))
    && (forall t :: t in d && FarEnd(t.kind) ==> exists u :: u in d && Pair(u, t))
  }

  ghost predicate Sound(d: seq<Entry>) {
    OwnSockets(d) && Paired(d)
  }

  /** In a sound table a socket number in use identifies one entry. */
  lemma SocketIdentifies(d: seq<Entry>, i: nat, j: nat)
    requires OwnSockets(d) && i < |d| && j < |d| && d[i].sock == d[j].sock && d[i].sock > 0
    ensures i == j
  {
  }

  /** A user end has exactly one far end, and it is the only one that names that user. */
  lemma OneFarEnd(d: seq<Entry>, i: nat) returns (j: nat)
    requires Sound(d) && i < |d| && UserEnd(d[i].kind)
    ensures j < |d| && Pair(d[i], d[j])
    ensures forall k :: 0 <= k < |d| && Pair(d[i], d[k]) ==> k == j
    ensures forall k :: 0 <= k < |d| && FarEnd(d[k].kind) && d[k].peer == d[i].sock ==> k == j
  {
    assert d[i] in d;
    var t :| t in d && Pair(d[i], t);
    j :| 0 <= j < |d| && d[j] == t;
    forall k | 0 <= k < |d| && FarEnd(d[k].kind) && d[k].peer == d[i].sock ensures k == j {
      assert d[k] in d;
      var u :| u in d && Pair(u, d[k]);
      var i' :| 0 <= i' < |d| && d[i'] == u;
      SocketIdentifies(d, i, i');
      SocketIdentifies(d, k, j);
    }
  }

  lemma OneUserEnd(d: seq<Entry>, j: nat) returns (i: nat)
    requires Sound(d) && j < |d| && FarEnd(d[j].kind)
    ensures i < |d| && Pair(d[i], d[j])
    ensures forall k :: 0 <= k < |d| && UserEnd(d[k].kind) && d[k].peer == d[j].sock ==> k == i
  {
    assert d[j] in d;
    var u :| u in d && Pair(u, d[j]);
    i :| 0 <= i < |d| && d[i] == u;
    forall k | 0 <= k < |d| && UserEnd(d[k].kind) && d[k].peer == d[j].sock ensures k == i {
      assert d[k] in d;
      var t :| t in d && Pair(d[k], t);
      var j' :| 0 <= j' < |d| && d[j'] == t;
      SocketIdentifies(d, j, j');
      SocketIdentifies(d, i, k);
    }
  }

  // ------------------------------------------------------------- updates that keep the table sound

  /** An entry keeps its socket, or is given up. */
  predicate Successor(x: Entry, y: Entry) {
    y == LOST_ENTRY || (y.sock == x.sock && (Owns(x.kind) <==> Owns(y.kind)))
  }

  lemma SocketsKept(d: seq<Entry>, e: seq<Entry>)
    requires OwnSockets(d) && |d| == |e| && forall k :: 0 <= k < |d| ==> Successor(d[k], e[k])
    ensures OwnSockets(e)
  {
  }

  /** The two ends of one relay are nobody else's ends. */
  lemma PairIsolated(d: seq<Entry>, i: nat, j: nat, k: nat, l: nat)
    requires Sound(d) && i < |d| && j < |d| && k < |d| && l < |d| && Pair(d[i], d[j]) && Pair(d[k], d[l])
    ensures i != j && (k == i <==> l == j) && k != j && l != i
  {
    var far := OneFarEnd(d, i);
    var far' := OneFarEnd(d, k);
    var usr := OneUserEnd(d, j);
    var usr' := OneUserEnd(d, l);
  }

  /** Replacing the two ends i (user) and j (far) of one relay leaves all other relays alone. */
  lemma RewritePair(d: seq<Entry>, i: nat, j: nat, e: seq<Entry>)
    requires Sound(d) && i < |d| && j < |d| && |e| == |d| && Pair(d[i], d[j])
    requires forall k :: 0 <= k < |d| && k != i && k != j ==> e[k] == d[k]
    requires Successor(d[i], e[i]) && Successor(d[j], e[j])
    requires Pair(e[i], e[j]) || (!UserEnd(e[i].kind) && !FarEnd(e[i].kind) && !UserEnd(e[j].kind) && !FarEnd(e[j].kind))
    ensures Sound(e)
  {
    SocketsKept(d, e);
    forall x | x in e && UserEnd(x.kind) ensures exists y :: y in e && Pair(x, y) {
      var k :| 0 <= k < |e| && e[k] == x;
      if k == i {
        assert e[j] in e;
      } else if k != j {
        var l := OneFarEnd(d, k);
        PairIsolated(d, i, j, k, l);
        assert e[l] in e;
      }
    }
    forall x | x in e && FarEnd(x.kind) ensures exists y :: y in e && Pair(y, x) {
      var l :| 0 <= l < |e| && e[l] == x;
      if l == j {
        assert e[i] in e;
      } else if l != i {
        var k := OneUserEnd(d, l);
        PairIsolated(d, i, j, k, l);
        assert e[k] in e;
      }
    }
  }

  /** Replacing an entry that is no end of a relay. */
  lemma RewriteOther(d: seq<Entry>, i: nat, e: seq<Entry>)
    requires Sound(d) && i < |d| && |e| == |d| && !UserEnd(d[i].kind) && !FarEnd(d[i].kind)
    requires forall k :: 0 <= k < |d| && k != i ==> e[k] == d[k]
    requires Successor(d[i], e[i]) && !UserEnd(e[i].kind) && !FarEnd(e[i].kind)
    ensures Sound(e)
  {
    SocketsKept(d, e);
    forall x | x in e && UserEnd(x.kind) ensures exists y :: y in e && Pair(x, y) {
      var k :| 0 <= k < |e| && e[k] == x;
      var l := OneFarEnd(d, k);
      assert e[l] in e;
    }
    forall x | x in e && FarEnd(x.kind) ensures exists y :: y in e && Pair(y, x) {
      var l :| 0 <= l < |e| && e[l] == x;
      var k := OneUserEnd(d, l);
      assert e[k] in e;
    }
  }

  lemma AppendSocket(d: seq<Entry>, t: Entry)
    requires OwnSockets(d)
    requires if Owns(t.kind) then t.sock > 0 && forall k :: 0 <= k < |d| ==> d[k].sock != t.sock else t.sock <= 0
    ensures OwnSockets(d + [t])
  {
  }

  /** A user who is not relayed yet gets a far end on a fresh socket. */
  lemma StartPair(d: seq<Entry>, i: nat, u: Entry, t: Entry, e: seq<Entry>)
    requires Sound(d) && i < |d| && d[i].kind.Chat? && u.sock == d[i].sock && u.kind.PreRelay?
    requires Pair(u, t) && t.sock > 0 && Owns(t.kind) && forall k :: 0 <= k < |d| ==> d[k].sock != t.sock
    requires |e| == |d| + 1 && e[i] == u && e[|d|] == t && forall k :: 0 <= k < |d| && k != i ==> e[k] == d[k]
    ensures Paired(e)
  {
    forall x | x in e && UserEnd(x.kind) ensures exists y :: y in e && Pair(x, y) {
      var k :| 0 <= k < |e| && e[k] == x;
      if k == i {
        assert e[|d|] in e;
      } else {
        var l := OneFarEnd(d, k);
        assert e[l] in e;
      }
    }
    forall x | x in e && FarEnd(x.kind) ensures exists y :: y in e && Pair(y, x) {
      var l :| 0 <= l < |e| && e[l] == x;
      if l == |d| {
        assert e[i] in e;
      } else {
        var k := OneUserEnd(d, l);
        assert e[k] in e;
      }
    }
  }

  /** A new entry that is no end of a relay. */
  lemma AppendOther(d: seq<Entry>, x: Entry)
    requires Sound(d) && !UserEnd(x.kind) && !FarEnd(x.kind)
    requires if Owns(x.kind) then x.sock > 0 && forall k :: 0 <= k < |d| ==> d[k].sock != x.sock else x.sock <= 0
    ensures Sound(d + [x])
  {
    var e := d + [x];
    AppendSocket(d, x);
    forall y | y in e && UserEnd(y.kind) ensures exists z :: z in e && Pair(y, z) {
      var z :| z in d && Pair(y, z);
      assert z in e;
    }
    forall y | y in e && FarEnd(y.kind) ensures exists z :: z in e && Pair(z, y) {
      var z :| z in d && Pair(z, y);
      assert z in e;
    }
  }

  // ------------------------------------------------------------- compaction

  /** The entries that are not lost. */
  ghost function Live(d: seq<Entry>): multiset<Entry> {
    multiset(d) - LostOnes(d)
  }

  ghost function LostOnes(d: seq<Entry>): multiset<Entry> {
    if d == [] then multiset{}
    else LostOnes(d[..|d| - 1]) + if d[|d| - 1].kind.Lost? then multiset{d[|d| - 1]} else multiset{}
  }

  /** Entry n with the last entry moved over it. */
  function Compacted(d: seq<Entry>, n: nat): seq<Entry>
    requires n < |d|
  {
    d[n := d[|d| - 1]][..|d| - 1]
  }

  lemma CompactedBag(d: seq<Entry>, n: nat)
    requires n < |d|
    ensures multiset(Compacted(d, n)) == multiset(d) - multiset{d[n]}
  {
    var last := |d| - 1;
    assert d == d[..last] + [d[last]];
    if n < last {
      assert d[..last] == d[..n] + [d[n]] + d[n + 1..last];
      assert Compacted(d, n) == d[..n] + [d[last]] + d[n + 1..last];
    } else {
      assert Compacted(d, n) == d[..last];
    }
  }

  lemma {:induction false} NoneLost(d: seq<Entry>)
    requires forall k :: 0 <= k < |d| ==> !d[k].kind.Lost?
    ensures LostOnes(d) == multiset{} && Live(d) == multiset(d)
  {
    if d != [] { NoneLost(d[..|d| - 1]); }
  }

  lemma {:induction false} LostOnesAt(d: seq<Entry>, x: Entry)
    ensures LostOnes(d)[x] == if x.kind.Lost? then multiset(d)[x] else 0
  {
    if d != [] {
      LostOnesAt(d[..|d| - 1], x);
      assert d == d[..|d| - 1] + [d[|d| - 1]];
    }
  }

  lemma CompactLive(d: seq<Entry>, n: nat, x: Entry)
    requires n < |d| && d[n].kind.Lost?
    ensures Live(Compacted(d, n))[x] == Live(d)[x]
  {
    CompactedBag(d, n);
    LostOnesAt(d, x);
    LostOnesAt(Compacted(d, n), x);
  }

  lemma CompactMembers(d: seq<Entry>, n: nat, x: Entry)
    requires n < |d| && d[n].kind.Lost?
    ensures x in Compacted(d, n) ==> x in d
    ensures x in d && !x.kind.Lost? ==> x in Compacted(d, n)
  {
    CompactedBag(d, n);
    assert x in Compacted(d, n) <==> multiset(Compacted(d, n))[x] > 0;
    assert x in d <==> multiset(d)[x] > 0;
  }

  lemma CompactSound(d: seq<Entry>, n: nat)
    requires n < |d| && d[n].kind.Lost? && Sound(d)
    ensures Sound(Compacted(d, n))
  {
    var e := Compacted(d, n);
    CompactSockets(d, n);
    forall x | x in e && UserEnd(x.kind) ensures exists y :: y in e && Pair(x, y) {
      CompactMembers(d, n, x);
      var y :| y in d && Pair(x, y);
      CompactMembers(d, n, y);
    }
    forall x | x in e && FarEnd(x.kind) ensures exists y :: y in e && Pair(y, x) {
      CompactMembers(d, n, x);
      var y :| y in d && Pair(y, x);
      CompactMembers(d, n, y);
    }
  }

  lemma CompactLost(d: seq<Entry>, n: nat)
    requires n < |d| && d[n].kind.Lost?
    ensures Live(Compacted(d, n)) == Live(d)
  {
    forall x ensures Live(Compacted(d, n))[x] == Live(d)[x] {
      CompactLive(d, n, x);
    }
  }

  lemma CompactSockets(d: seq<Entry>, n: nat)
    requires OwnSockets(d) && n < |d|
    ensures OwnSockets(Compacted(d, n))
  {
    var e := Compacted(d, n);
    forall i, j | 0 <= i < j < |e| && e[i].sock > 0 ensures e[i].sock != e[j].sock {
      var i' := if i == n then |d| - 1 else i;
      var j' := if j == n then |d| - 1 else j;
      assert e[i] == d[i'] && e[j] == d[j'] && i' != j';
    }
  }
}
