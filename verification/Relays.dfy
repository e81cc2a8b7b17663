/** The table of connections as a state machine: relays are started, connected and ended, other
    connections come and go, in any order. */
module Relays {
  import opened DccPairs

  /** One change of the table.  `u` and `t` are the places of a relayed user and of its far end. */
  datatype Step =
    | New(x: Entry)
    | Tune(i: nat, status: int)
    | Lose(i: nat)
    | Remove(i: nat)
    | Start(u: nat, sock: int)
    | NoSocket
    | Resolve(t: nat)
    | Connect(u: nat, t: nat)
    | Back(u: nat, t: nat)
    | Leave(u: nat, t: nat)

  /** The socket is not in use. */
  ghost predicate Fresh(d: seq<Entry>, sock: int) {
    sock > 0 && forall k :: 0 <= k < |d| ==> d[k].sock != sock
  }

  ghost predicate Ends(d: seq<Entry>, u: nat, t: nat) {
    u < |d| && t < |d| && Pair(d[u], d[t])
  }

  ghost predicate Enabled(d: seq<Entry>, a: Step) {
    match a
    case New(x) => !UserEnd(x.kind) && !FarEnd(x.kind) && !x.kind.Lost? && if Owns(x.kind) then Fresh(d, x.sock) else x.sock == 0
    case Tune(i, status) => i < |d| && Owns(d[i].kind)
    case Lose(i) => i < |d| && !UserEnd(d[i].kind) && !FarEnd(d[i].kind)
    case Remove(i) => i < |d| && d[i].kind.Lost?
    case Start(u, sock) => u < |d| && d[u].kind.Chat? && Fresh(d, sock)
    case NoSocket => true
    case Resolve(t) => t < |d| && d[t].kind.DnsRelay?
    case Connect(u, t) => Ends(d, u, t) && d[t].kind.ForkRelay?
    case Back(u, t) => Ends(d, u, t)
    case Leave(u, t) => Ends(d, u, t)
  }

  /** A relayed user back on the party line, with the status it had before. */
  function Restored(u: Entry): Entry {
    u.(kind := Chat, status := u.saved)
  }

  function After(d: seq<Entry>, a: Step): seq<Entry>
    requires Enabled(d, a)
  {
    match a
    case New(x) => d + [x]
    case Tune(i, status) => d[i := d[i].(status := status)]
    case Lose(i) => d[i := LOST_ENTRY]
    case Remove(i) => Compacted(d, i)
    case Start(u, sock) =>
      d[u := d[u].(kind := PreRelay, peer := sock, saved := d[u].status)] + [Entry(sock, DnsRelay, d[u].sock, 0, 0)]
    case NoSocket => d + [LOST_ENTRY]
    case Resolve(t) => d[t := d[t].(kind := ForkRelay)]
    case Connect(u, t) => d[u := d[u].(kind := Relaying)][t := d[t].(kind := Relay)]
    case Back(u, t) => d[u := Restored(d[u])][t := LOST_ENTRY]
    case Leave(u, t) => d[u := LOST_ENTRY][t := LOST_ENTRY]
  }

  // ------------------------------------------------------------- every step keeps the table sound

  lemma StartSockets(d: seq<Entry>, i: nat, u: Entry, t: Entry)
    requires OwnSockets(d) && i < |d| && u.sock == d[i].sock && Owns(d[i].kind) && Owns(u.kind)
    requires Fresh(d, t.sock) && Owns(t.kind)
    ensures OwnSockets(d[i := u] + [t])
  {
    SocketsKept(d, d[i := u]);
    AppendSocket(d[i := u], t);
  }

  lemma StartKeeps(d: seq<Entry>, u: nat, sock: int)
    requires Sound(d) && Enabled(d, Start(u, sock))
    ensures Sound(After(d, Start(u, sock)))
  {
    var e := After(d, Start(u, sock));
    StartSockets(d, u, e[u], e[|d|]);
    StartPair(d, u, e[u], e[|d|], e);
  }

  /** Changing one entry without touching what relays go by. */
  lemma TouchKeeps(d: seq<Entry>, i: nat, y: Entry)
    requires Sound(d) && i < |d| && Successor(d[i], y) && y.sock == d[i].sock && y.peer == d[i].peer
    requires y.kind == d[i].kind || (d[i].kind.DnsRelay? && y.kind.ForkRelay?)
    ensures Sound(d[i := y])
  {
    if UserEnd(d[i].kind) {
      var t := OneFarEnd(d, i);
      RewritePair(d, i, t, d[i := y]);
    } else if FarEnd(d[i].kind) {
      var u := OneUserEnd(d, i);
      RewritePair(d, u, i, d[i := y]);
    } else {
      RewriteOther(d, i, d[i := y]);
    }
  }

  /** Changing both ends of one relay. */
  lemma EndsKeep(d: seq<Entry>, a: Step)
    requires Sound(d) && Enabled(d, a) && (a.Connect? || a.Back? || a.Leave?)
    ensures Sound(After(d, a))
  {
    RewritePair(d, a.u, a.t, After(d, a));
  }

  lemma StepKeeps(d: seq<Entry>, a: Step)
    requires Sound(d) && Enabled(d, a)
    ensures Sound(After(d, a))
  {
    match a
    case New(x) => AppendOther(d, x);
    case Tune(i, status) => TouchKeeps(d, i, d[i].(status := status));
    case Lose(i) => RewriteOther(d, i, After(d, a));
    case Remove(i) => CompactSound(d, i);
    case Start(u, sock) => StartKeeps(d, u, sock);
    case NoSocket => AppendOther(d, LOST_ENTRY);
    case Resolve(t) => TouchKeeps(d, t, d[t].(kind := ForkRelay));
    case _ => EndsKeep(d, a);
  }

  // ------------------------------------------------------------- every run

  ghost predicate Legal(d: seq<Entry>, steps: seq<Step>)
    decreases |steps|
  {
    steps == [] || (Enabled(d, steps[0]) && Legal(After(d, steps[0]), steps[1..]))
  }

  function Outcome(d: seq<Entry>, steps: seq<Step>): seq<Entry>
    requires Legal(d, steps)
    decreases |steps|
  {
    if steps == [] then d else Outcome(After(d, steps[0]), steps[1..])
  }

  /** However connections and relays come and go, every end of a relay has its one other end. */
  lemma {:induction false} RunKeeps(d: seq<Entry>, steps: seq<Step>)
    requires Sound(d) && Legal(d, steps)
    ensures Sound(Outcome(d, steps))
    decreases |steps|
  {
    if steps != [] {
      StepKeeps(d, steps[0]);
      RunKeeps(After(d, steps[0]), steps[1..]);
    }
  }

  /** Some run leads from the one table to the other. */
  ghost predicate Leads(d: seq<Entry>, e: seq<Entry>) {
    exists steps :: Legal(d, steps) && Outcome(d, steps) == e
  }

  lemma LeadsNowhere(d: seq<Entry>)
    ensures Leads(d, d)
  {
    assert Legal(d, []) && Outcome(d, []) == d;
  }

  lemma LeadsOn(d: seq<Entry>, a: Step, e: seq<Entry>)
    requires Enabled(d, a) && Leads(After(d, a), e)
    ensures Leads(d, e)
  {
    var steps :| Legal(After(d, a), steps) && Outcome(After(d, a), steps) == e;
    assert ([a] + steps)[1..] == steps;
    assert Legal(d, [a] + steps) && Outcome(d, [a] + steps) == e;
  }

  /** One step, and what it keeps. */
  lemma Takes(d: seq<Entry>, a: Step)
    requires Enabled(d, a)
    ensures Leads(d, After(d, a))
    ensures Sound(d) ==> Sound(After(d, a))
  {
    LeadsNowhere(After(d, a));
    LeadsOn(d, a, After(d, a));
    if Sound(d) { StepKeeps(d, a); }
  }

  lemma {:induction false} LegalConcat(d: seq<Entry>, s: seq<Step>, t: seq<Step>)
    requires Legal(d, s) && Legal(Outcome(d, s), t)
    ensures Legal(d, s + t) && Outcome(d, s + t) == Outcome(Outcome(d, s), t)
    decreases |s|
  {
    if s == [] {
      assert s + t == t;
    } else {
      assert (s + t)[1..] == s[1..] + t;
      LegalConcat(After(d, s[0]), s[1..], t);
    }
  }

  lemma LeadsFurther(d: seq<Entry>, e: seq<Entry>, f: seq<Entry>)
    requires Leads(d, e) && Leads(e, f)
    ensures Leads(d, f)
  {
    var s :| Legal(d, s) && Outcome(d, s) == e;
    var t :| Legal(e, t) && Outcome(e, t) == f;
    LegalConcat(d, s, t);
  }

  /** One more lost entry removed. */
  lemma RemoveLeads(d0: seq<Entry>, d: seq<Entry>, i: nat)
    requires Leads(d0, d) && i < |d| && d[i].kind.Lost?
    ensures Leads(d0, Compacted(d, i)) && Live(Compacted(d, i)) == Live(d)
    ensures Sound(d) ==> Sound(Compacted(d, i))
  {
    CompactLost(d, i);
    Takes(d, Remove(i));
    LeadsFurther(d0, d, Compacted(d, i));
  }

  /** Every table any run can lead to is sound. */
  lemma AlwaysSound(d: seq<Entry>)
    requires Leads([], d)
    ensures Sound(d)
  {
    var steps :| Legal([], steps) && Outcome([], steps) == d;
    RunKeeps([], steps);
  }

  // ------------------------------------------------------------- users come back as they went

  predicate IsUser(x: Entry) {
    x.kind.Chat? || UserEnd(x.kind)
  }

  /** The status a user has on the party line, or will have there again. */
  function Home(x: Entry): int {
    if UserEnd(x.kind) then x.saved else x.status
  }

  /** The table has that user, with that status at home. */
  ghost predicate Has(d: seq<Entry>, sock: int, home: int) {
    exists i :: 0 <= i < |d| && d[i].sock == sock && IsUser(d[i]) && Home(d[i]) == home
  }

  ghost predicate InUse(d: seq<Entry>, sock: int) {
    exists i :: 0 <= i < |d| && d[i].sock == sock
  }

  /** The step does not change the status of that user while it is on the party line. */
  ghost predicate LeavesAlone(d: seq<Entry>, a: Step, sock: int) {
    a.Tune? && a.i < |d| && d[a.i].sock == sock ==> !d[a.i].kind.Chat?
  }

  /** An entry the step leaves where it was, if it is a user, is still one, with the same status at home. */
  ghost predicate SameUser(x: Entry, y: Entry) {
    x.sock == y.sock && (IsUser(x) ==> IsUser(y) && Home(y) == Home(x))
  }

  lemma GrowAt(d: seq<Entry>, a: Step, k: nat)
    requires Enabled(d, a) && (a.New? || a.Start? || a.NoSocket?) && k < |After(d, a)| && After(d, a)[k].sock > 0
    ensures if k < |d| then SameUser(d[k], After(d, a)[k]) else Fresh(d, After(d, a)[k].sock)
  {
  }

  lemma StaysPut(d: seq<Entry>, a: Step, k: nat)
    requires Enabled(d, a) && !(a.New? || a.Start? || a.NoSocket? || a.Remove?) && k < |After(d, a)| && After(d, a)[k].sock > 0
    ensures k < |d| && d[k].sock == After(d, a)[k].sock
  {
  }

  lemma ChangeAt(d: seq<Entry>, a: Step, k: nat)
    requires Sound(d) && Enabled(d, a) && !(a.New? || a.Start? || a.NoSocket? || a.Remove?)
    requires k < |d| && After(d, a)[k].sock > 0 && LeavesAlone(d, a, d[k].sock)
    ensures SameUser(d[k], After(d, a)[k])
  {
  }

  lemma StepKeepsUser(d: seq<Entry>, a: Step, sock: int, home: int)
    requires Sound(d) && Enabled(d, a) && sock > 0 && Has(d, sock, home) && InUse(After(d, a), sock) && LeavesAlone(d, a, sock)
    ensures Has(After(d, a), sock, home)
  {
    var i :| 0 <= i < |d| && d[i].sock == sock && IsUser(d[i]) && Home(d[i]) == home;
    var e := After(d, a);
    var k :| 0 <= k < |e| && e[k].sock == sock;
    if a.Remove? {
      CompactMembers(d, a.i, e[k]);
      var j :| 0 <= j < |d| && d[j] == e[k];
      SocketIdentifies(d, i, j);
    } else {
      if a.New? || a.Start? || a.NoSocket? { GrowAt(d, a, k); } else { StaysPut(d, a, k); ChangeAt(d, a, k); }
      SocketIdentifies(d, i, k);
    }
  }

  /** The socket stays in use all along, and nobody else changes that user's status on the party line. */
  ghost predicate Stays(d: seq<Entry>, steps: seq<Step>, sock: int)
    requires Legal(d, steps)
    decreases |steps|
  {
    InUse(d, sock) && (steps == [] || (LeavesAlone(d, steps[0], sock) && Stays(After(d, steps[0]), steps[1..], sock)))
  }

  /** Over every run, a user whose connection lasts is on the party line or in a relay, and whenever it is
      back on the party line it has the status it left with, whatever became of it in between. */
  lemma {:induction false} UserComesBack(d: seq<Entry>, steps: seq<Step>, sock: int, home: int)
    requires Sound(d) && Legal(d, steps) && sock > 0 && Has(d, sock, home) && Stays(d, steps, sock)
    ensures Has(Outcome(d, steps), sock, home)
    decreases |steps|
  {
    if steps != [] {
      var e := After(d, steps[0]);
      StepKeeps(d, steps[0]);
      assert InUse(e, sock);
      StepKeepsUser(d, steps[0], sock, home);
      UserComesBack(e, steps[1..], sock, home);
    }
  }
}
