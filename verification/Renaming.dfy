/** From pointers to names: the same list with every address replaced by the name behind it. */
module Renaming {
  import opened Forest
  import opened BotProtocol

  /** One allocated entry: its address, the addresses it points at, and its name. */
  type Tand = Node<nat, string>

  /** The null pointer, and the sentinel that means "linked to me". */
  const NULL: nat := 0
  const ME: nat := 1

  ghost function Names(me: string, ts: seq<Tand>): map<nat, string> {
    if ts == [] then map[ME := me]
    else Names(me, ts[..|ts| - 1])[ts[|ts| - 1].id := ts[|ts| - 1].info]
  }

  ghost function Infos(ts: seq<Tand>): set<string> {
    set t | t in ts :: t.info
  }

  /** Names are unique, non-empty and never our own; addresses are unique real addresses. */
  ghost predicate UniqueNames(me: string, ts: seq<Tand>) {
    ts == [] || (UniqueNames(me, ts[..|ts| - 1]) && NewName(me, ts[..|ts| - 1], ts[|ts| - 1]))
  }

  ghost predicate NewName(me: string, ts: seq<Tand>, z: Tand) {
    z.info != me && z.info != "" && z.info !in Infos(ts) && z.id > ME && z.id !in Ids(ts)
  }

  ghost predicate Injective(f: map<nat, string>) {
    forall x, y :: x in f && y in f && f[x] == f[y] ==> x == y
  }

  ghost predicate Covers(f: map<nat, string>, me: string, ts: seq<Tand>) {
    && ME in f && f[ME] == me
    && (forall t :: t in ts ==> t.id in f && f[t.id] == t.info)
    && (forall t :: t in ts ==> t.uplink in f && t.via in f)
  }

  ghost function Name(f: map<nat, string>, p: nat): string {
    if p in f then f[p] else ""
  }

  ghost function Rename(f: map<nat, string>, ts: seq<Tand>): View {
    seq(|ts|, i requires 0 <= i < |ts| => Node(ts[i].info, Name(f, ts[i].uplink), Name(f, ts[i].via), ()))
  }

  ghost function ViewOf(me: string, ts: seq<Tand>): View {
    Rename(Names(me, ts), ts)
  }

  ghost predicate WellLinked(me: string, ts: seq<Tand>) {
    Linked(ME, ts) && UniqueNames(me, ts)
  }

  lemma InfosSnoc(ts: seq<Tand>)
    requires ts != []
    ensures Infos(ts) == Infos(ts[..|ts| - 1]) + {ts[|ts| - 1].info}
  {
    assert ts == ts[..|ts| - 1] + [ts[|ts| - 1]];
    forall x | x in Infos(ts[..|ts| - 1]) + {ts[|ts| - 1].info} ensures x in Infos(ts) {
      assert ts[|ts| - 1] in ts;
    }
    forall x | x in Infos(ts) ensures x in Infos(ts[..|ts| - 1]) + {ts[|ts| - 1].info} {
      var t :| t in ts && t.info == x;
      InSnoc(ts, t);
    }
  }

  lemma {:induction false} UniqueAt(me: string, ts: seq<Tand>, t: Tand)
    requires UniqueNames(me, ts) && t in ts
    ensures t.info != me && t.info != "" && t.id > ME
    ensures forall s :: s in ts && (s.info == t.info || s.id == t.id) ==> s == t
  {
    InSnoc(ts, t);
    var p, z := ts[..|ts| - 1], ts[|ts| - 1];
    if t in p {
      UniqueAt(me, p, t);
    }
    forall s | s in ts && (s.info == t.info || s.id == t.id) ensures s == t {
      InSnoc(ts, s);
      if s in p && t !in p {
        assert false;
      } else if t in p && s !in p {
        assert false;
      }
    }
  }

  lemma {:induction false} NamesAre(me: string, ts: seq<Tand>)
    requires WellLinked(me, ts)
    ensures Names(me, ts).Keys == Ids(ts) + {ME}
    ensures Names(me, ts)[ME] == me && forall t :: t in ts ==> t.id in Names(me, ts) && Names(me, ts)[t.id] == t.info
  {
    if ts != [] {
      var p, z := ts[..|ts| - 1], ts[|ts| - 1];
      NamesAre(me, p);
      IdsSnoc(ts);
      forall t | t in ts ensures t.id in Names(me, ts) && Names(me, ts)[t.id] == t.info {
        InSnoc(ts, t);
        assert t in p ==> t.id in Ids(p);
      }
    }
  }

  lemma PointersListed(me: string, ts: seq<Tand>, t: Tand)
    requires Linked(ME, ts) && t in ts
    ensures t.uplink in Ids(ts) + {ME} && t.via in Ids(ts)
  {
    LinkedAt(ME, ts, t);
    ViaDirect(ME, ts, t);
  }

  lemma NamesInjective(me: string, ts: seq<Tand>)
    requires WellLinked(me, ts)
    ensures Injective(Names(me, ts))
  {
    NamesAre(me, ts);
    var f := Names(me, ts);
    forall x, y | x in f && y in f && f[x] == f[y] ensures x == y {
      if x != ME {
        var s :| s in ts && s.id == x;
        UniqueAt(me, ts, s);
        if y != ME { var t :| t in ts && t.id == y; }
      } else if y != ME {
        var t :| t in ts && t.id == y;
        UniqueAt(me, ts, t);
      }
    }
  }

  lemma NamesCover(me: string, ts: seq<Tand>)
    requires WellLinked(me, ts)
    ensures Covers(Names(me, ts), me, ts) && Injective(Names(me, ts))
  {
    NamesAre(me, ts);
    NamesInjective(me, ts);
    forall t | t in ts ensures t.uplink in Names(me, ts) && t.via in Names(me, ts) {
      PointersListed(me, ts, t);
    }
  }

  lemma CoversPrefix(f: map<nat, string>, me: string, ts: seq<Tand>)
    requires ts != [] && Covers(f, me, ts)
    ensures Covers(f, me, ts[..|ts| - 1])
    ensures Rename(f, ts) == Rename(f, ts[..|ts| - 1]) + Rename(f, [ts[|ts| - 1]])
    ensures Rename(f, ts)[..|ts| - 1] == Rename(f, ts[..|ts| - 1])
  {
    forall t | t in ts[..|ts| - 1] ensures t in ts { InSnoc(ts, t); }
  }

  lemma {:induction false} RenamedIds(f: map<nat, string>, me: string, ts: seq<Tand>)
    requires Covers(f, me, ts)
    ensures Ids(Rename(f, ts)) == Infos(ts)
  {
    var v := Rename(f, ts);
    forall x | x in Ids(v) ensures x in Infos(ts) {
      var i :| 0 <= i < |v| && v[i].id == x;
      assert ts[i] in ts;
    }
    forall x | x in Infos(ts) ensures x in Ids(v) {
      var i :| 0 <= i < |ts| && ts[i].info == x;
      assert v[i] in v;
    }
  }

  lemma {:induction false} RenamedLinked(f: map<nat, string>, me: string, ts: seq<Tand>)
    requires Covers(f, me, ts) && Injective(f) && Linked(ME, ts)
    ensures Linked(me, Rename(f, ts))
  {
    if ts != [] {
      var p, z := ts[..|ts| - 1], ts[|ts| - 1];
      CoversPrefix(f, me, ts);
      RenamedLinked(f, me, p);
      RenamedIds(f, me, p);
      var v, y := Rename(f, p), Rename(f, ts)[|ts| - 1];
      assert z in ts;
      if z.uplink != ME {
        var u :| u in p && u.id == z.uplink && u.via == z.via;
        var i :| 0 <= i < |p| && p[i] == u;
        assert v[i] in v && v[i].id == y.uplink && v[i].via == y.via;
      }
      assert Attached(me, v, y);
    }
  }

  lemma InIds(ts: seq<Tand>, t: Tand)
    requires t in ts
    ensures t.id in Ids(ts)
  {
  }

  ghost function Image(f: map<nat, string>, s: set<nat>): set<string> {
    set x | x in s :: Name(f, x)
  }

  lemma {:induction false} RenamedDesc(f: map<nat, string>, me: string, ts: seq<Tand>, w: nat)
    requires Covers(f, me, ts) && Injective(f) && w in f
    ensures Desc(Rename(f, ts), f[w]) == Image(f, Desc(ts, w))
    ensures forall x :: x in Desc(ts, w) ==> x in f
  {
    if ts != [] {
      CoversPrefix(f, me, ts);
      RenamedDesc(f, me, ts[..|ts| - 1], w);
      assert ts[|ts| - 1] in ts;
    }
  }

  lemma {:induction false} RenamedWithout(f: map<nat, string>, me: string, ts: seq<Tand>, gone: set<nat>)
    requires Covers(f, me, ts) && Injective(f) && forall x :: x in gone ==> x in f
    ensures Rename(f, Without(ts, gone)) == Without(Rename(f, ts), Image(f, gone))
  {
    if ts != [] {
      var p, z := ts[..|ts| - 1], ts[|ts| - 1];
      CoversPrefix(f, me, ts);
      RenamedWithout(f, me, p, gone);
      assert z in ts;
      var rest := Without(p, gone);
      if z.id !in gone {
        assert Rename(f, rest + [z]) == Rename(f, rest) + Rename(f, [z]);
      }
    }
  }

  /** Two name tables that agree on what a list mentions give the same view. */
  lemma RenameAgree(f: map<nat, string>, g: map<nat, string>, me: string, ts: seq<Tand>)
    requires Covers(f, me, ts) && Covers(g, me, ts)
    requires forall x :: x in f && x in g ==> f[x] == g[x]
    ensures Rename(f, ts) == Rename(g, ts)
  {
    forall i | 0 <= i < |ts| ensures Rename(f, ts)[i] == Rename(g, ts)[i] {
      assert ts[i] in ts;
    }
  }

  /** The view of a well-linked list is linked. */
  lemma ViewLinked(me: string, ts: seq<Tand>)
    requires WellLinked(me, ts)
    ensures Linked(me, ViewOf(me, ts)) && Ids(ViewOf(me, ts)) == Infos(ts)
  {
    NamesCover(me, ts);
    RenamedLinked(Names(me, ts), me, ts);
    RenamedIds(Names(me, ts), me, ts);
  }

  lemma WithoutUnique(me: string, ts: seq<Tand>, gone: set<nat>)
    requires WellLinked(me, ts) && Closed(ts, gone) && ME !in gone
    ensures WellLinked(me, Without(ts, gone))
  {
    WithoutLinked(ME, ts, gone);
    WithoutNames(me, ts, gone);
  }

  lemma {:induction false} WithoutNames(me: string, ts: seq<Tand>, gone: set<nat>)
    requires UniqueNames(me, ts)
    ensures UniqueNames(me, Without(ts, gone))
  {
    if ts != [] {
      var p, z := ts[..|ts| - 1], ts[|ts| - 1];
      WithoutNames(me, p, gone);
      var rest := Without(p, gone);
      if z.id !in gone {
        forall t | t in rest ensures t in p { WithoutMembers(p, gone, t); }
        assert (rest + [z])[..|rest|] == rest;
        assert NewName(me, rest, z);
      }
    }
  }

  /** Pruning a subtree by address is pruning it by name. */
  lemma ViewPrune(me: string, ts: seq<Tand>, t: Tand)
    requires WellLinked(me, ts) && t in ts
    ensures WellLinked(me, Prune(ts, t.id)) && ViewOf(me, Prune(ts, t.id)) == Prune(ViewOf(me, ts), t.info)
  {
    var f, gone := Names(me, ts), Subtree(ts, t.id);
    DescClosed(ME, ts, t.id);
    LinkedPrefix(ME, ts, |ts|);
    DescListed(ts, t.id);
    InIds(ts, t);
    WithoutUnique(me, ts, gone);
    NamesCover(me, ts);
    RenamedDesc(f, me, ts, t.id);
    RenamedWithout(f, me, ts, gone);
    assert Image(f, gone) == Subtree(ViewOf(me, ts), t.info);
    var ts' := Prune(ts, t.id);
    NamesCover(me, ts');
    forall u | u in ts' ensures u in ts { WithoutMembers(ts, gone, u); }
    AgreeOn(me, ts, ts');
    RenameAgree(f, Names(me, ts'), me, ts');
  }

  lemma AgreeOn(me: string, ts: seq<Tand>, ts': seq<Tand>)
    requires WellLinked(me, ts) && WellLinked(me, ts') && forall u :: u in ts' ==> u in ts
    ensures forall x :: x in Names(me, ts) && x in Names(me, ts') ==> Names(me, ts)[x] == Names(me, ts')[x]
  {
    NamesAre(me, ts);
    NamesAre(me, ts');
    forall x | x in Names(me, ts) && x in Names(me, ts') ensures Names(me, ts)[x] == Names(me, ts')[x] {
      if x != ME {
        var u :| u in ts' && u.id == x;
      }
    }
  }

  /** Appending an entry appends its renamed form. */
  lemma ViewAppend(me: string, ts: seq<Tand>, t: Tand)
    requires WellLinked(me, ts) && Attached(ME, ts, t)
    requires NewName(me, ts, t)
    ensures WellLinked(me, ts + [t])
    ensures var names := Names(me, ts + [t]);
            ViewOf(me, ts + [t]) == ViewOf(me, ts) + [Node(t.info, Name(names, t.uplink), Name(names, t.via), ())]
  {
    var us := ts + [t];
    assert us[..|us| - 1] == ts;
    NamesCover(me, ts);
    NamesCover(me, us);
    forall u | u in ts ensures u in us { }
    AgreeOn(me, us, ts);
    CoversPrefix(Names(me, us), me, us);
    RenameAgree(Names(me, ts), Names(me, us), me, ts);
  }
}
