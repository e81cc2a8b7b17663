/** The database mirror of the user list: a full rebuild, an incremental update, and
    exactly when the two leave the same tables. */
module UserStore {
  import opened Keys

  /** One user as far as the mirror is concerned: `record` is the text kept in the users table. */
  datatype User = User(handle: Key, record: Val, hosts: seq<Key>, accounts: seq<Key>, dirty: bool)

  datatype Ignore = Ignore(mask: Key, val: Val)

  /** Which of the two index tables. */
  datatype Index = Hosts | Accounts

  function Names(u: User, x: Index): seq<Key> {
    match x
    case Hosts => u.hosts
    case Accounts => u.accounts
  }

  /** Handles are different, NUL-free and short enough to be keys. */
  ghost predicate ProperList(ul: seq<User>) {
    && (forall i :: 0 <= i < |ul| ==> 0 !in ul[i].handle && KeyOk(ul[i].handle))
    && (forall i, j :: 0 <= i < j < |ul| ==> ul[i].handle != ul[j].handle)
  }

  // ------------------------------------------------------------- the two branches, as maps

  ghost function PutNames(m: map<Key, Val>, handle: Key, names: seq<Key>): map<Key, Val> {
    if names == [] then m
    else PutMap(PutNames(m, handle, names[..|names| - 1]), HandlePrefix(handle) + names[|names| - 1], [])
  }

  ghost function FullUsers(ul: seq<User>): map<Key, Val> {
    if ul == [] then map[]
    else PutMap(FullUsers(ul[..|ul| - 1]), ul[|ul| - 1].handle, ul[|ul| - 1].record)
  }

  ghost function FullIndex(ul: seq<User>, x: Index): map<Key, Val> {
    if ul == [] then map[]
    else PutNames(FullIndex(ul[..|ul| - 1], x), ul[|ul| - 1].handle, Names(ul[|ul| - 1], x))
  }

  ghost function FullIgnores(ig: seq<Ignore>): map<Key, Val> {
    if ig == [] then map[]
    else PutMap(FullIgnores(ig[..|ig| - 1]), ig[|ig| - 1].mask, ig[|ig| - 1].val)
  }

  ghost function IncUsers(m: map<Key, Val>, ul: seq<User>): map<Key, Val> {
    if ul == [] then m
    else
      var z := ul[|ul| - 1];
      var rest := IncUsers(m, ul[..|ul| - 1]);
      if z.dirty then PutMap(rest, z.handle, z.record) else rest
  }

  ghost function IncIndex(m: map<Key, Val>, ul: seq<User>, x: Index): map<Key, Val> {
    if ul == [] then m
    else
      var z := ul[|ul| - 1];
      var rest := IncIndex(m, ul[..|ul| - 1], x);
      if z.dirty then PutNames(WithoutHandle(rest, z.handle), z.handle, Names(z, x)) else rest
  }

  // ------------------------------------------------------------- what each branch leaves at one key

  ghost predicate SameAt(a: map<Key, Val>, b: map<Key, Val>, k: Key) {
    (k in a <==> k in b) && (k in a && k in b ==> a[k] == b[k])
  }

  ghost predicate Under(k: Key, handle: Key) {
    HasPrefix(k, HandlePrefix(handle))
  }

  /** `k` is an entry this user puts into the index. */
  ghost predicate Owns(u: User, x: Index, k: Key) {
    KeyOk(k) && exists n :: n in Names(u, x) && k == HandlePrefix(u.handle) + n
  }

  lemma {:induction false} PutNamesAt(m: map<Key, Val>, handle: Key, names: seq<Key>, k: Key)
    ensures var own := KeyOk(k) && exists n :: n in names && k == HandlePrefix(handle) + n;
            var r := PutNames(m, handle, names);
            (own ==> k in r && r[k] == [] && Under(k, handle)) && (!own ==> SameAt(r, m, k))
  {
    if names != [] {
      var p, z := names[..|names| - 1], names[|names| - 1];
      PutNamesAt(m, handle, p, k);
      assert names == p + [z];
      PrefixOwn(handle, z);
      if exists n :: n in p && k == HandlePrefix(handle) + n {
        var n :| n in p && k == HandlePrefix(handle) + n;
        assert n in names;
      }
      if exists n :: n in names && k == HandlePrefix(handle) + n {
        var n :| n in names && k == HandlePrefix(handle) + n;
        assert n in p || n == z;
      }
    }
  }

  lemma ProperPrefix(ul: seq<User>)
    requires ul != [] && ProperList(ul)
    ensures ProperList(ul[..|ul| - 1])
    ensures forall u :: u in ul[..|ul| - 1] ==> u in ul && u.handle != ul[|ul| - 1].handle
    ensures forall u :: u in ul <==> u in ul[..|ul| - 1] || u == ul[|ul| - 1]
  {
    assert ul == ul[..|ul| - 1] + [ul[|ul| - 1]];
  }

  lemma {:induction false} FullIndexAt(ul: seq<User>, x: Index, k: Key)
    requires ProperList(ul)
    ensures k in FullIndex(ul, x) <==> exists u :: u in ul && Owns(u, x, k)
    ensures k in FullIndex(ul, x) ==> FullIndex(ul, x)[k] == []
  {
    if ul != [] {
      var p, z := ul[..|ul| - 1], ul[|ul| - 1];
      ProperPrefix(ul);
      FullIndexAt(p, x, k);
      PutNamesAt(FullIndex(p, x), z.handle, Names(z, x), k);
      if Owns(z, x, k) { assert z in ul; }
    }
  }

  lemma OwnsUnder(u: User, x: Index, k: Key)
    requires Owns(u, x, k)
    ensures Under(k, u.handle)
  {
    var n :| n in Names(u, x) && k == HandlePrefix(u.handle) + n;
    PrefixOwn(u.handle, n);
  }

  ghost predicate UnderDirty(ul: seq<User>, k: Key) {
    exists u :: u in ul && u.dirty && Under(k, u.handle)
  }

  /** An incremental update rebuilds what belongs to dirty users and leaves the rest as it was. */
  lemma {:induction false} IncIndexAt(m: map<Key, Val>, ul: seq<User>, x: Index, k: Key)
    requires ProperList(ul)
    ensures if UnderDirty(ul, k) then SameAt(IncIndex(m, ul, x), FullIndex(ul, x), k)
            else SameAt(IncIndex(m, ul, x), m, k)
  {
    if ul != [] {
      var p, z := ul[..|ul| - 1], ul[|ul| - 1];
      ProperPrefix(ul);
      IncIndexAt(m, p, x, k);
      FullIndexAt(p, x, k);
      FullIndexAt(ul, x, k);
      var rest := IncIndex(m, p, x);
      PutNamesAt(WithoutHandle(rest, z.handle), z.handle, Names(z, x), k);
      PutNamesAt(FullIndex(p, x), z.handle, Names(z, x), k);
      assert z in ul;
      if Under(k, z.handle) {
        // nobody else's run holds this key
        forall u | u in p ensures !Under(k, u.handle) && !Owns(u, x, k) {
          if Under(k, u.handle) { HandlesApart(u.handle, z.handle, k); }
          if Owns(u, x, k) { OwnsUnder(u, x, k); }
        }
      }
    }
  }

  lemma {:induction false} FullUsersAt(ul: seq<User>, k: Key)
    requires ProperList(ul)
    ensures k in FullUsers(ul) <==> exists u :: u in ul && u.handle == k
    ensures forall u :: u in ul && u.handle == k ==> k in FullUsers(ul) && FullUsers(ul)[k] == u.record
  {
    if ul != [] {
      ProperPrefix(ul);
      FullUsersAt(ul[..|ul| - 1], k);
    }
  }

  lemma {:induction false} IncUsersAt(m: map<Key, Val>, ul: seq<User>, k: Key)
    requires ProperList(ul)
    ensures if exists u :: u in ul && u.dirty && u.handle == k then SameAt(IncUsers(m, ul), FullUsers(ul), k)
            else SameAt(IncUsers(m, ul), m, k)
  {
    if ul != [] {
      ProperPrefix(ul);
      IncUsersAt(m, ul[..|ul| - 1], k);
    }
  }

  // ------------------------------------------------------------- when the branches agree

  /** What an index table holds for clean users is what a rebuild would put there ... */
  ghost predicate CleanIndexAgrees(m: map<Key, Val>, ul: seq<User>, x: Index) {
    forall u, k :: u in ul && !u.dirty && Under(k, u.handle) ==> SameAt(m, FullIndex(ul, x), k)
  }

  /** ... and every key belongs to a listed user. */
  ghost predicate IndexListed(m: map<Key, Val>, ul: seq<User>) {
    forall k :: k in m ==> exists u :: u in ul && Under(k, u.handle)
  }

  ghost predicate CleanUsersAgree(m: map<Key, Val>, ul: seq<User>) {
    forall u :: u in ul && !u.dirty ==> SameAt(m, FullUsers(ul), u.handle)
  }

  ghost predicate UsersListed(m: map<Key, Val>, ul: seq<User>) {
    forall k :: k in m ==> exists u :: u in ul && u.handle == k
  }

  /** The incremental branch leaves an index table as the full rebuild would if and only if its
      entries for clean users agree with the list and no entry belongs to an unlisted handle. */
  lemma IndexBranchesAgree(m: map<Key, Val>, ul: seq<User>, x: Index)
    requires ProperList(ul)
    ensures IncIndex(m, ul, x) == FullIndex(ul, x) <==> CleanIndexAgrees(m, ul, x) && IndexListed(m, ul)
  {
    var inc, full := IncIndex(m, ul, x), FullIndex(ul, x);
    if inc == full {
      forall u, k | u in ul && !u.dirty && Under(k, u.handle) ensures SameAt(m, full, k) {
        IncIndexAt(m, ul, x, k);
        if UnderDirty(ul, k) {
          var d :| d in ul && d.dirty && Under(k, d.handle);
          HandlesApart(u.handle, d.handle, k);
          SameHandle(ul, u, d);
        }
      }
      forall k | k in m ensures exists u :: u in ul && Under(k, u.handle) {
        IncIndexAt(m, ul, x, k);
        FullIndexAt(ul, x, k);
        if !UnderDirty(ul, k) {
          var u :| u in ul && Owns(u, x, k);
          OwnsUnder(u, x, k);
        }
      }
    }
    if CleanIndexAgrees(m, ul, x) && IndexListed(m, ul) {
      forall k ensures SameAt(inc, full, k) {
        AgreeAt(m, ul, x, k);
      }
      SameEverywhere(inc, full);
    }
  }

  lemma SameHandle(ul: seq<User>, u: User, d: User)
    requires ProperList(ul) && u in ul && d in ul && u.handle == d.handle
    ensures u == d
  {
    var i :| 0 <= i < |ul| && ul[i] == u;
    var j :| 0 <= j < |ul| && ul[j] == d;
  }

  lemma AgreeAt(m: map<Key, Val>, ul: seq<User>, x: Index, k: Key)
    requires ProperList(ul) && CleanIndexAgrees(m, ul, x) && IndexListed(m, ul)
    ensures SameAt(IncIndex(m, ul, x), FullIndex(ul, x), k)
  {
    IncIndexAt(m, ul, x, k);
    FullIndexAt(ul, x, k);
    if !UnderDirty(ul, k) {
      if exists u :: u in ul && Under(k, u.handle) {
        var u :| u in ul && Under(k, u.handle);
        assert SameAt(m, FullIndex(ul, x), k);
      } else if k in FullIndex(ul, x) {
        var u :| u in ul && Owns(u, x, k);
        OwnsUnder(u, x, k);
      }
    }
  }

  lemma SameEverywhere(a: map<Key, Val>, b: map<Key, Val>)
    requires forall k :: SameAt(a, b, k)
    ensures a == b
  {
    assert forall k :: k in a ==> SameAt(a, b, k);
    assert forall k :: k in b ==> SameAt(a, b, k);
  }

  /** Likewise for the users table. */
  lemma UsersBranchesAgree(m: map<Key, Val>, ul: seq<User>)
    requires ProperList(ul)
    ensures IncUsers(m, ul) == FullUsers(ul) <==> CleanUsersAgree(m, ul) && UsersListed(m, ul)
  {
    var inc, full := IncUsers(m, ul), FullUsers(ul);
    if inc == full {
      forall u | u in ul && !u.dirty ensures SameAt(m, full, u.handle) {
        IncUsersAt(m, ul, u.handle);
        if exists d :: d in ul && d.dirty && d.handle == u.handle {
          var d :| d in ul && d.dirty && d.handle == u.handle;
          SameHandle(ul, u, d);
        }
      }
      forall k | k in m ensures exists u :: u in ul && u.handle == k {
        IncUsersAt(m, ul, k);
        FullUsersAt(ul, k);
      }
    }
    if CleanUsersAgree(m, ul) && UsersListed(m, ul) {
      forall k ensures SameAt(inc, full, k) {
        IncUsersAt(m, ul, k);
        FullUsersAt(ul, k);
      }
      SameEverywhere(inc, full);
    }
  }

  // ------------------------------------------------------------- keeping the premise

  /** The tables as the mirror expects to find them before an incremental save. */
  datatype Tables = Tables(users: map<Key, Val>, hosts: map<Key, Val>, accounts: map<Key, Val>)

  ghost predicate InSync(t: Tables, ul: seq<User>) {
    && CleanUsersAgree(t.users, ul) && UsersListed(t.users, ul)
    && CleanIndexAgrees(t.hosts, ul, Hosts) && IndexListed(t.hosts, ul)
    && CleanIndexAgrees(t.accounts, ul, Accounts) && IndexListed(t.accounts, ul)
  }

  ghost function FullTables(ul: seq<User>): Tables {
    Tables(FullUsers(ul), FullIndex(ul, Hosts), FullIndex(ul, Accounts))
  }

  ghost function IncTables(t: Tables, ul: seq<User>): Tables {
    Tables(IncUsers(t.users, ul), IncIndex(t.hosts, ul, Hosts), IncIndex(t.accounts, ul, Accounts))
  }

  /** All three tables come out the same in both branches if and only if they were in sync. */
  lemma BranchesAgree(t: Tables, ul: seq<User>)
    requires ProperList(ul)
    ensures IncTables(t, ul) == FullTables(ul) <==> InSync(t, ul)
  {
    UsersBranchesAgree(t.users, ul);
    IndexBranchesAgree(t.hosts, ul, Hosts);
    IndexBranchesAgree(t.accounts, ul, Accounts);
  }

  ghost function Cleaned(ul: seq<User>): seq<User> {
    seq(|ul|, i requires 0 <= i < |ul| => ul[i].(dirty := false))
  }

  lemma {:induction false} CleanedFull(ul: seq<User>, x: Index)
    ensures FullIndex(Cleaned(ul), x) == FullIndex(ul, x) && FullUsers(Cleaned(ul)) == FullUsers(ul)
  {
    if ul != [] {
      CleanedFull(ul[..|ul| - 1], x);
      assert Cleaned(ul)[..|ul| - 1] == Cleaned(ul[..|ul| - 1]);
    }
  }

  lemma FullListed(ul: seq<User>, x: Index)
    requires ProperList(ul)
    ensures UsersListed(FullUsers(ul), ul) && IndexListed(FullIndex(ul, x), ul)
  {
    forall k | k in FullUsers(ul) ensures exists u :: u in ul && u.handle == k { FullUsersAt(ul, k); }
    forall k | k in FullIndex(ul, x) ensures exists u :: u in ul && Under(k, u.handle) {
      FullIndexAt(ul, x, k);
      var u :| u in ul && Owns(u, x, k);
      OwnsUnder(u, x, k);
    }
  }

  lemma CleanedListed(t: map<Key, Val>, ul: seq<User>)
    ensures UsersListed(t, ul) ==> UsersListed(t, Cleaned(ul))
    ensures IndexListed(t, ul) ==> IndexListed(t, Cleaned(ul))
  {
    forall u | u in ul ensures u.(dirty := false) in Cleaned(ul) {
      var i :| 0 <= i < |ul| && ul[i] == u;
      assert Cleaned(ul)[i] == u.(dirty := false);
    }
    if UsersListed(t, ul) {
      forall k | k in t ensures exists u :: u in Cleaned(ul) && u.handle == k {
        var u :| u in ul && u.handle == k;
        assert u.(dirty := false) in Cleaned(ul);
      }
    }
    if IndexListed(t, ul) {
      forall k | k in t ensures exists u :: u in Cleaned(ul) && Under(k, u.handle) {
        var u :| u in ul && Under(k, u.handle);
        assert u.(dirty := false) in Cleaned(ul);
      }
    }
  }

  lemma CommitIndex(ul: seq<User>, x: Index)
    requires ProperList(ul)
    ensures CleanIndexAgrees(FullIndex(ul, x), Cleaned(ul), x) && IndexListed(FullIndex(ul, x), Cleaned(ul))
  {
    CleanedFull(ul, x);
    FullListed(ul, x);
    CleanedListed(FullIndex(ul, x), ul);
  }

  lemma CommitUsers(ul: seq<User>)
    requires ProperList(ul)
    ensures CleanUsersAgree(FullUsers(ul), Cleaned(ul)) && UsersListed(FullUsers(ul), Cleaned(ul))
  {
    CleanedFull(ul, Hosts);
    FullListed(ul, Hosts);
    CleanedListed(FullUsers(ul), ul);
  }

  /** A committed save, incremental or full, leaves the tables in sync with the cleaned list. */
  lemma CommitRestoresSync(ul: seq<User>)
    requires ProperList(ul)
    ensures InSync(FullTables(ul), Cleaned(ul)) && ProperList(Cleaned(ul))
  {
    CommitUsers(ul);
    CommitIndex(ul, Hosts);
    CommitIndex(ul, Accounts);
  }

  /** Whoever was added or changed is marked dirty. */
  ghost predicate ChangedAreDirty(ul: seq<User>, vl: seq<User>) {
    forall v :: v in vl && !v.dirty ==> v in ul
  }

  ghost predicate Lists(ul: seq<User>, handle: Key) {
    exists u :: u in ul && u.handle == handle
  }

  /** What a rebuild puts under a listed handle depends on that user alone. */
  lemma OnlyOwner(ul: seq<User>, u: User, x: Index, k: Key)
    requires ProperList(ul) && u in ul && Under(k, u.handle)
    ensures k in FullIndex(ul, x) <==> Owns(u, x, k)
    ensures k in FullIndex(ul, x) ==> FullIndex(ul, x)[k] == []
  {
    FullIndexAt(ul, x, k);
    if exists v :: v in ul && Owns(v, x, k) {
      var v :| v in ul && Owns(v, x, k);
      OwnsUnder(v, x, k);
      HandlesApart(u.handle, v.handle, k);
      SameHandle(ul, u, v);
    }
  }

  ghost predicate HoldsUnder(m: map<Key, Val>, handle: Key) {
    exists k :: k in m && Under(k, handle)
  }

  /** Some table still holds something of that handle. */
  ghost predicate Remembers(t: Tables, handle: Key) {
    handle in t.users || HoldsUnder(t.hosts, handle) || HoldsUnder(t.accounts, handle)
  }

  lemma NobodysKeys(m: map<Key, Val>, vl: seq<User>, handle: Key)
    requires ProperList(vl) && 0 !in handle && !Lists(vl, handle) && IndexListed(m, vl)
    ensures !HoldsUnder(m, handle)
  {
    if k :| k in m && Under(k, handle) {
      var v :| v in vl && Under(k, v.handle);
      HandlesApart(v.handle, handle, k);
    }
  }

  /** Clean users that were there before agree with a table as they did. */
  lemma CleanStay(t: Tables, ul: seq<User>, vl: seq<User>)
    requires ProperList(ul) && ProperList(vl) && InSync(t, ul) && ChangedAreDirty(ul, vl)
    ensures CleanUsersAgree(t.users, vl) && CleanIndexAgrees(t.hosts, vl, Hosts) && CleanIndexAgrees(t.accounts, vl, Accounts)
  {
    forall u | u in vl && !u.dirty ensures SameAt(t.users, FullUsers(vl), u.handle) {
      assert SameAt(t.users, FullUsers(ul), u.handle);
      FullUsersAt(ul, u.handle);
      FullUsersAt(vl, u.handle);
    }
    CleanStayIndex(t.hosts, ul, vl, Hosts);
    CleanStayIndex(t.accounts, ul, vl, Accounts);
  }

  lemma CleanStayIndex(m: map<Key, Val>, ul: seq<User>, vl: seq<User>, x: Index)
    requires ProperList(ul) && ProperList(vl) && CleanIndexAgrees(m, ul, x) && ChangedAreDirty(ul, vl)
    ensures CleanIndexAgrees(m, vl, x)
  {
    forall u, k | u in vl && !u.dirty && Under(k, u.handle) ensures SameAt(m, FullIndex(vl, x), k) {
      assert SameAt(m, FullIndex(ul, x), k);
      OnlyOwner(ul, u, x, k);
      OnlyOwner(vl, u, x, k);
    }
  }

  /** Keys of handles that are still listed, or of which nothing is held, belong to somebody. */
  lemma StillListed(m: map<Key, Val>, ul: seq<User>, vl: seq<User>)
    requires IndexListed(m, ul) && forall u :: u in ul && !Lists(vl, u.handle) ==> !HoldsUnder(m, u.handle)
    ensures IndexListed(m, vl)
  {
    forall k | k in m ensures exists v :: v in vl && Under(k, v.handle) {
      var u :| u in ul && Under(k, u.handle);
      assert Lists(vl, u.handle);
      var v :| v in vl && v.handle == u.handle;
    }
  }

  /** Any change of the list, additions, edits, renames and removals together, in which whoever was added
      or changed is marked dirty: tables in sync stay in sync if and only if they hold nothing of the
      handles that are no longer listed. */
  lemma EditsKeepSyncIff(t: Tables, ul: seq<User>, vl: seq<User>)
    requires ProperList(ul) && ProperList(vl) && InSync(t, ul) && ChangedAreDirty(ul, vl)
    ensures InSync(t, vl) <==> forall u :: u in ul && !Lists(vl, u.handle) ==> !Remembers(t, u.handle)
  {
    CleanStay(t, ul, vl);
    if InSync(t, vl) {
      forall u | u in ul && !Lists(vl, u.handle) ensures !Remembers(t, u.handle) {
        NobodysKeys(t.hosts, vl, u.handle);
        NobodysKeys(t.accounts, vl, u.handle);
      }
    }
    if forall u :: u in ul && !Lists(vl, u.handle) ==> !Remembers(t, u.handle) {
      StillListed(t.hosts, ul, vl);
      StillListed(t.accounts, ul, vl);
      forall k | k in t.users ensures exists v :: v in vl && v.handle == k {
        var u :| u in ul && u.handle == k;
        assert Lists(vl, u.handle);
      }
    }
  }

  /** The same for what the next incremental save leaves. */
  lemma EditsAgreeIff(t: Tables, ul: seq<User>, vl: seq<User>)
    requires ProperList(ul) && ProperList(vl) && InSync(t, ul) && ChangedAreDirty(ul, vl)
    ensures IncTables(t, vl) == FullTables(vl) <==> forall u :: u in ul && !Lists(vl, u.handle) ==> !Remembers(t, u.handle)
  {
    EditsKeepSyncIff(t, ul, vl);
    BranchesAgree(t, vl);
  }

  /** Where no handle is given up, marking the changed users dirty is enough. */
  lemma EditsKeepSync(t: Tables, ul: seq<User>, vl: seq<User>)
    requires ProperList(ul) && ProperList(vl) && InSync(t, ul) && ChangedAreDirty(ul, vl)
    requires forall u :: u in ul ==> Lists(vl, u.handle)
    ensures InSync(t, vl)
  {
    EditsKeepSyncIff(t, ul, vl);
  }

  // ------------------------------------------------------------- a change that is not marked

  /** The two records put the same entries into an index. */
  ghost predicate SameEntries(u: User, v: User, x: Index) {
    forall k :: Owns(u, x, k) <==> Owns(v, x, k)
  }

  lemma SwappedList(ul: seq<User>, i: nat, v: User)
    requires ProperList(ul) && i < |ul| && v.handle == ul[i].handle
    ensures ProperList(ul[i := v]) && v in ul[i := v]
    ensures forall u :: u in ul[i := v] && u != v ==> u in ul && u.handle != v.handle
    ensures forall u :: u in ul ==> Lists(ul[i := v], u.handle)
  {
    var vl := ul[i := v];
    assert vl[i] == v;
    forall u | u in vl && u != v ensures u in ul && u.handle != v.handle {
      var k :| 0 <= k < |vl| && vl[k] == u;
      assert ul[k] == u;
    }
    forall u | u in ul ensures Lists(vl, u.handle) {
      var k :| 0 <= k < |ul| && ul[k] == u;
      assert vl[k] in vl && vl[k].handle == u.handle;
    }
  }

  lemma UnmarkedUsers(m: map<Key, Val>, ul: seq<User>, i: nat, v: User)
    requires ProperList(ul) && i < |ul| && v.handle == ul[i].handle && !v.dirty && !ul[i].dirty && CleanUsersAgree(m, ul)
    ensures CleanUsersAgree(m, ul[i := v]) <==> v.record == ul[i].record
  {
    var vl := ul[i := v];
    SwappedList(ul, i, v);
    assert ul[i] in ul;
    FullUsersAt(ul, v.handle);
    FullUsersAt(vl, v.handle);
    assert SameAt(m, FullUsers(ul), ul[i].handle);
    if v.record == ul[i].record {
      forall u | u in vl && !u.dirty ensures SameAt(m, FullUsers(vl), u.handle) {
        if u != v {
          assert SameAt(m, FullUsers(ul), u.handle);
          FullUsersAt(ul, u.handle);
          FullUsersAt(vl, u.handle);
        }
      }
    }
  }

  lemma UnmarkedIndex(m: map<Key, Val>, ul: seq<User>, i: nat, v: User, x: Index)
    requires ProperList(ul) && i < |ul| && v.handle == ul[i].handle && !v.dirty && !ul[i].dirty && CleanIndexAgrees(m, ul, x)
    ensures CleanIndexAgrees(m, ul[i := v], x) <==> SameEntries(ul[i], v, x)
  {
    var vl := ul[i := v];
    SwappedList(ul, i, v);
    assert ul[i] in ul;
    if CleanIndexAgrees(m, vl, x) {
      forall k ensures Owns(ul[i], x, k) <==> Owns(v, x, k) {
        if Owns(ul[i], x, k) { OwnsUnder(ul[i], x, k); }
        if Owns(v, x, k) { OwnsUnder(v, x, k); }
        if Under(k, v.handle) {
          assert SameAt(m, FullIndex(ul, x), k) && SameAt(m, FullIndex(vl, x), k);
          OnlyOwner(ul, ul[i], x, k);
          OnlyOwner(vl, v, x, k);
        }
      }
    }
    if SameEntries(ul[i], v, x) {
      forall u, k | u in vl && !u.dirty && Under(k, u.handle) ensures SameAt(m, FullIndex(vl, x), k) {
        var o := if u == v then ul[i] else u;
        assert SameAt(m, FullIndex(ul, x), k);
        OnlyOwner(ul, o, x, k);
        OnlyOwner(vl, u, x, k);
      }
    }
  }

  /** A clean user changed without being marked: the tables stay in sync, and the next incremental save
      agrees with a rebuild, if and only if its record and its entries are the same. */
  lemma UnmarkedEditIff(t: Tables, ul: seq<User>, i: nat, v: User)
    requires ProperList(ul) && InSync(t, ul) && i < |ul| && v.handle == ul[i].handle && !v.dirty && !ul[i].dirty
    ensures ProperList(ul[i := v])
    ensures IncTables(t, ul[i := v]) == FullTables(ul[i := v]) <==> InSync(t, ul[i := v])
    ensures InSync(t, ul[i := v]) <==>
              v.record == ul[i].record && SameEntries(ul[i], v, Hosts) && SameEntries(ul[i], v, Accounts)
  {
    var vl := ul[i := v];
    SwappedList(ul, i, v);
    BranchesAgree(t, vl);
    UnmarkedUsers(t.users, ul, i, v);
    UnmarkedIndex(t.hosts, ul, i, v, Hosts);
    UnmarkedIndex(t.accounts, ul, i, v, Accounts);
    StillListed(t.hosts, ul, vl);
    StillListed(t.accounts, ul, vl);
    forall k | k in t.users ensures exists w :: w in vl && w.handle == k {
      var u :| u in ul && u.handle == k;
      assert Lists(vl, u.handle);
    }
  }

  // ------------------------------------------------------------- a handle is changed

  /** `change_handle`: the record gets the new handle and is marked dirty. */
  ghost function Renamed(ul: seq<User>, i: nat, h: Key): seq<User>
    requires i < |ul|
  {
    ul[i := ul[i].(handle := h, dirty := true)]
  }

  lemma RenamedLists(ul: seq<User>, i: nat, h: Key)
    requires ProperList(ul) && i < |ul| && ProperList(Renamed(ul, i, h))
    ensures ChangedAreDirty(ul, Renamed(ul, i, h))
    ensures forall u :: u in ul && u != ul[i] ==> Lists(Renamed(ul, i, h), u.handle)
    ensures Lists(Renamed(ul, i, h), ul[i].handle) <==> h == ul[i].handle
  {
    var vl := Renamed(ul, i, h);
    forall v | v in vl && !v.dirty ensures v in ul {
      var k :| 0 <= k < |vl| && vl[k] == v;
      assert k != i && ul[k] == v;
    }
    forall u | u in ul && u != ul[i] ensures Lists(vl, u.handle) {
      var k :| 0 <= k < |ul| && ul[k] == u;
      assert vl[k] == u;
    }
    assert vl[i] in vl;
    forall v | v in vl ensures v.handle == ul[i].handle ==> h == ul[i].handle {
      var k :| 0 <= k < |vl| && vl[k] == v;
      if k != i { assert vl[k] == ul[k]; }
    }
  }

  /** Renaming a user keeps the sync, and the branches agreeing, if and only if the handle stays the same
      or no table holds anything of the old one: the records of the old handle are nobody's to delete. */
  lemma RenameKeepsSyncIff(t: Tables, ul: seq<User>, i: nat, h: Key)
    requires ProperList(ul) && InSync(t, ul) && i < |ul| && ProperList(Renamed(ul, i, h))
    ensures InSync(t, Renamed(ul, i, h)) <==> h == ul[i].handle || !Remembers(t, ul[i].handle)
    ensures IncTables(t, Renamed(ul, i, h)) == FullTables(Renamed(ul, i, h)) <==> h == ul[i].handle || !Remembers(t, ul[i].handle)
  {
    var vl := Renamed(ul, i, h);
    RenamedLists(ul, i, h);
    EditsKeepSyncIff(t, ul, vl);
    BranchesAgree(t, vl);
    assert ul[i] in ul;
  }

  /** A handle that was just saved is remembered. */
  lemma SavedIsRemembered(ul: seq<User>, i: nat)
    requires ProperList(ul) && i < |ul|
    ensures Remembers(FullTables(ul), ul[i].handle)
  {
    FullUsersAt(ul, ul[i].handle);
    assert ul[i] in ul;
  }

  ghost function Dropped(ul: seq<User>, i: nat): seq<User>
    requires i < |ul|
  {
    ul[..i] + ul[i + 1..]
  }

  ghost function WithoutUser(t: Tables, handle: Key): Tables {
    Tables(t.users - {handle}, WithoutHandle(t.hosts, handle), WithoutHandle(t.accounts, handle))
  }

  /** Dropping a user together with its records keeps the sync. */
  lemma DeleteKeepsSync(t: Tables, ul: seq<User>, i: nat)
    requires ProperList(ul) && InSync(t, ul) && i < |ul|
    ensures InSync(WithoutUser(t, ul[i].handle), Dropped(ul, i))
  {
    var vl, h := Dropped(ul, i), ul[i].handle;
    assert forall k :: 0 <= k < |vl| ==> vl[k] == ul[if k < i then k else k + 1];
    assert ProperList(vl);
    assert ul == ul[..i] + [ul[i]] + ul[i + 1..];
    assert forall u :: u in vl ==> u in ul && u.handle != h;
    assert forall u :: u in ul && u != ul[i] ==> u in vl;
    DeleteUsers(t.users, ul, vl, ul[i]);
    DeleteIndex(t.hosts, ul, vl, ul[i], Hosts);
    DeleteIndex(t.accounts, ul, vl, ul[i], Accounts);
  }

  lemma DroppedIsProper(ul: seq<User>, i: nat)
    requires ProperList(ul) && i < |ul|
    ensures ProperList(Dropped(ul, i)) && ChangedAreDirty(ul, Dropped(ul, i))
    ensures forall u :: u in ul ==> (Lists(Dropped(ul, i), u.handle) <==> u != ul[i])
  {
    var vl := Dropped(ul, i);
    assert forall k :: 0 <= k < |vl| ==> vl[k] == ul[if k < i then k else k + 1];
    forall u | u in ul ensures Lists(vl, u.handle) <==> u != ul[i] {
      var k :| 0 <= k < |ul| && ul[k] == u;
      if k != i { assert vl[if k < i then k else k - 1] == u; }
    }
  }

  lemma RememberedBreaks(t: Tables, ul: seq<User>, i: nat)
    requires ProperList(ul) && i < |ul| && Remembers(t, ul[i].handle)
    ensures !InSync(t, Dropped(ul, i))
  {
    var vl, h := Dropped(ul, i), ul[i].handle;
    DroppedIsProper(ul, i);
    assert ul[i] in ul && !Lists(vl, h);
    if InSync(t, vl) {
      NobodysKeys(t.hosts, vl, h);
      NobodysKeys(t.accounts, vl, h);
    }
  }

  /** Dropping a user from the list without deleting its records: tables in sync stay in sync, and the
      next incremental save agrees with a rebuild, if and only if no table holds anything of the handle.
      Where one does, they disagree whatever the tables were before. */
  lemma ForgottenUserStays(t: Tables, ul: seq<User>, i: nat)
    requires ProperList(ul) && i < |ul|
    ensures ProperList(Dropped(ul, i))
    ensures InSync(t, ul) ==> (InSync(t, Dropped(ul, i)) <==> !Remembers(t, ul[i].handle))
    ensures InSync(t, ul) ==> (IncTables(t, Dropped(ul, i)) == FullTables(Dropped(ul, i)) <==> !Remembers(t, ul[i].handle))
    ensures Remembers(t, ul[i].handle) ==> IncTables(t, Dropped(ul, i)) != FullTables(Dropped(ul, i))
  {
    var vl, h := Dropped(ul, i), ul[i].handle;
    DroppedIsProper(ul, i);
    BranchesAgree(t, vl);
    if Remembers(t, h) { RememberedBreaks(t, ul, i); }
    if InSync(t, ul) {
      EditsKeepSyncIff(t, ul, vl);
      assert ul[i] in ul;
    }
  }

  lemma DeleteUsers(m: map<Key, Val>, ul: seq<User>, vl: seq<User>, g: User)
    requires ProperList(ul) && ProperList(vl) && (forall u :: u in vl ==> u in ul && u.handle != g.handle)
    requires forall u :: u in ul && u != g ==> u in vl
    requires CleanUsersAgree(m, ul) && UsersListed(m, ul)
    ensures CleanUsersAgree(m - {g.handle}, vl) && UsersListed(m - {g.handle}, vl)
  {
    forall u | u in vl && !u.dirty ensures SameAt(m - {g.handle}, FullUsers(vl), u.handle) {
      assert SameAt(m, FullUsers(ul), u.handle);
      FullUsersAt(ul, u.handle);
      FullUsersAt(vl, u.handle);
    }
    forall k | k in m - {g.handle} ensures exists v :: v in vl && v.handle == k {
      var u :| u in ul && u.handle == k;
    }
  }

  lemma DeleteIndex(m: map<Key, Val>, ul: seq<User>, vl: seq<User>, g: User, x: Index)
    requires ProperList(ul) && ProperList(vl) && (forall u :: u in vl ==> u in ul && u.handle != g.handle)
    requires g in ul && forall u :: u in ul && u != g ==> u in vl
    requires CleanIndexAgrees(m, ul, x) && IndexListed(m, ul)
    ensures CleanIndexAgrees(WithoutHandle(m, g.handle), vl, x) && IndexListed(WithoutHandle(m, g.handle), vl)
  {
    var m' := WithoutHandle(m, g.handle);
    forall u, k | u in vl && !u.dirty && Under(k, u.handle) ensures SameAt(m', FullIndex(vl, x), k) {
      assert SameAt(m, FullIndex(ul, x), k);
      OnlyOwner(ul, u, x, k);
      OnlyOwner(vl, u, x, k);
      if Under(k, g.handle) { HandlesApart(u.handle, g.handle, k); }
    }
    forall k | k in m' ensures exists v :: v in vl && Under(k, v.handle) {
      var u :| u in ul && Under(k, u.handle);
      assert u != g;
    }
  }

  /** A rebuild, or an update of tables in sync, leaves the mirror of the cleaned list. */
  lemma SaveMirrors(t: Tables, ul: seq<User>)
    ensures FullTables(Cleaned(ul)) == FullTables(ul)
    ensures ProperList(ul) ==> InSync(FullTables(ul), Cleaned(ul)) && (InSync(t, ul) ==> IncTables(t, ul) == FullTables(ul))
  {
    CleanedFull(ul, Hosts);
    CleanedFull(ul, Accounts);
    if ProperList(ul) {
      BranchesAgree(t, ul);
      CommitRestoresSync(ul);
    }
  }

  // ------------------------------------------------------------- what a mirror holds, entry by entry

  /** The users table has one entry per user with its record; the index tables have one empty entry per
      host mask and per account that fits a key: the handle, a NUL, and the name. */
  ghost predicate Mirrors(t: Tables, ul: seq<User>) {
    && (forall k :: k in t.users <==> exists u :: u in ul && u.handle == k)
    && (forall u :: u in ul ==> u.handle in t.users && t.users[u.handle] == u.record)
    && (forall k :: k in t.hosts <==> 1 <= |k| <= 511 && exists u, n :: u in ul && n in u.hosts && k == u.handle + [0] + n)
    && (forall k :: k in t.accounts <==> 1 <= |k| <= 511 && exists u, n :: u in ul && n in u.accounts && k == u.handle + [0] + n)
    && (forall k :: k in t.hosts ==> t.hosts[k] == []) && (forall k :: k in t.accounts ==> t.accounts[k] == [])
  }

  /** One entry per ignore mask that fits a key, with the value of the last ignore of that mask. */
  ghost predicate MirrorsIgnores(m: map<Key, Val>, ig: seq<Ignore>) {
    && (forall k :: k in m <==> 1 <= |k| <= 511 && exists e :: e in ig && e.mask == k)
    && (forall i :: 0 <= i < |ig| && 1 <= |ig[i].mask| <= 511 && (forall j :: i < j < |ig| ==> ig[j].mask != ig[i].mask)
          ==> ig[i].mask in m && m[ig[i].mask] == ig[i].val)
  }

  lemma HostsHold(ul: seq<User>, k: Key)
    requires ProperList(ul)
    ensures k in FullTables(ul).hosts <==> 1 <= |k| <= 511 && exists u, n :: u in ul && n in u.hosts && k == u.handle + [0] + n
    ensures k in FullTables(ul).hosts ==> FullTables(ul).hosts[k] == []
  {
    FullIndexAt(ul, Hosts, k);
    if u, n :| u in ul && n in u.hosts && k == u.handle + [0] + n {
      assert n in Names(u, Hosts) && k == HandlePrefix(u.handle) + n;
      assert 1 <= |k| <= 511 ==> Owns(u, Hosts, k);
    }
  }

  lemma AccountsHold(ul: seq<User>, k: Key)
    requires ProperList(ul)
    ensures k in FullTables(ul).accounts <==> 1 <= |k| <= 511 && exists u, n :: u in ul && n in u.accounts && k == u.handle + [0] + n
    ensures k in FullTables(ul).accounts ==> FullTables(ul).accounts[k] == []
  {
    FullIndexAt(ul, Accounts, k);
    if u, n :| u in ul && n in u.accounts && k == u.handle + [0] + n {
      assert n in Names(u, Accounts) && k == HandlePrefix(u.handle) + n;
      assert 1 <= |k| <= 511 ==> Owns(u, Accounts, k);
    }
  }

  /** A rebuild mirrors the list, field by field. */
  lemma RebuildMirrors(ul: seq<User>)
    requires ProperList(ul)
    ensures Mirrors(FullTables(ul), ul)
  {
    forall k ensures k in FullUsers(ul) <==> exists u :: u in ul && u.handle == k { FullUsersAt(ul, k); }
    forall u | u in ul ensures u.handle in FullUsers(ul) && FullUsers(ul)[u.handle] == u.record { FullUsersAt(ul, u.handle); }
    forall k
      ensures k in FullTables(ul).hosts <==> 1 <= |k| <= 511 && exists u, n :: u in ul && n in u.hosts && k == u.handle + [0] + n
      ensures k in FullTables(ul).hosts ==> FullTables(ul).hosts[k] == []
    {
      HostsHold(ul, k);
    }
    forall k
      ensures k in FullTables(ul).accounts <==> 1 <= |k| <= 511 && exists u, n :: u in ul && n in u.accounts && k == u.handle + [0] + n
      ensures k in FullTables(ul).accounts ==> FullTables(ul).accounts[k] == []
    {
      AccountsHold(ul, k);
    }
  }

  lemma {:induction false} IgnoreAt(ig: seq<Ignore>, k: Key)
    ensures k in FullIgnores(ig) <==> 1 <= |k| <= 511 && exists e :: e in ig && e.mask == k
  {
    if ig != [] {
      var p, z := ig[..|ig| - 1], ig[|ig| - 1];
      IgnoreAt(p, k);
      assert ig == p + [z] && z in ig;
    }
  }

  lemma {:induction false} IgnoreLast(ig: seq<Ignore>, i: nat)
    requires i < |ig| && 1 <= |ig[i].mask| <= 511 && forall j :: i < j < |ig| ==> ig[j].mask != ig[i].mask
    ensures ig[i].mask in FullIgnores(ig) && FullIgnores(ig)[ig[i].mask] == ig[i].val
  {
    if i < |ig| - 1 {
      IgnoreLast(ig[..|ig| - 1], i);
      assert ig[|ig| - 1].mask != ig[i].mask;
    }
  }

  lemma IgnoresHold(ig: seq<Ignore>)
    ensures MirrorsIgnores(FullIgnores(ig), ig)
  {
    forall k ensures k in FullIgnores(ig) <==> 1 <= |k| <= 511 && exists e :: e in ig && e.mask == k { IgnoreAt(ig, k); }
    forall i | 0 <= i < |ig| && 1 <= |ig[i].mask| <= 511 && (forall j :: i < j < |ig| ==> ig[j].mask != ig[i].mask)
      ensures ig[i].mask in FullIgnores(ig) && FullIgnores(ig)[ig[i].mask] == ig[i].val
    {
      IgnoreLast(ig, i);
    }
  }

  // ------------------------------------------------------------- the store

  class Store {
    var users: seq<Rec>
    var hosts: seq<Rec>
    var accounts: seq<Rec>
    var ignores: seq<Rec>
    var userlist: seq<User>
    var ignoreList: seq<Ignore>
    var fullResync: bool

    ghost predicate Valid()
      reads this
    {
      Sorted(users) && Sorted(hosts) && Sorted(accounts) && Sorted(ignores)
    }

    ghost function Db(): Tables
      reads this
    {
      Tables(Contents(users), Contents(hosts), Contents(accounts))
    }

    constructor ()
      ensures Valid() && fullResync && userlist == [] && ignoreList == [] && Db() == Tables(map[], map[], map[])
    {
      users, hosts, accounts, ignores, userlist, ignoreList, fullResync := [], [], [], [], [], [], true;
    }

    method PutAll(t: seq<Rec>, handle: Key, names: seq<Key>) returns (r: seq<Rec>)
      requires Sorted(t)
      ensures Sorted(r) && Contents(r) == PutNames(Contents(t), handle, names)
    {
      r := t;
      for i := 0 to |names|
        invariant Sorted(r) && Contents(r) == PutNames(Contents(t), handle, names[..i])
      {
        assert names[..i + 1][..i] == names[..i];
        r := Put(r, HandlePrefix(handle) + names[i], []);
      }
      assert names[..|names|] == names;
    }

    /** Drops and rebuilds the three user tables. */
    method Rebuild()
      modifies `users, `hosts, `accounts
      ensures Sorted(users) && Sorted(hosts) && Sorted(accounts) && Db() == FullTables(userlist)
    {
      users, hosts, accounts := [], [], [];
      for i := 0 to |userlist|
        invariant Sorted(users) && Sorted(hosts) && Sorted(accounts) && Db() == FullTables(userlist[..i])
      {
        var u := userlist[i];
        assert userlist[..i + 1][..i] == userlist[..i];
        users := Put(users, u.handle, u.record);
        hosts := PutAll(hosts, u.handle, u.hosts);
        accounts := PutAll(accounts, u.handle, u.accounts);
      }
      assert userlist[..|userlist|] == userlist;
    }

    /** Brings the entries of dirty users up to date. */
    method Update()
      requires Sorted(users) && Sorted(hosts) && Sorted(accounts)
      modifies `users, `hosts, `accounts
      ensures Sorted(users) && Sorted(hosts) && Sorted(accounts) && Db() == IncTables(old(Db()), userlist)
    {
      for i := 0 to |userlist|
        invariant Sorted(users) && Sorted(hosts) && Sorted(accounts) && Db() == IncTables(old(Db()), userlist[..i])
      {
        var u := userlist[i];
        assert userlist[..i + 1][..i] == userlist[..i];
        if u.dirty {
          users := Put(users, u.handle, u.record);
          hosts := DeleteUserEntries(hosts, u.handle);
          accounts := DeleteUserEntries(accounts, u.handle);
          hosts := PutAll(hosts, u.handle, u.hosts);
          accounts := PutAll(accounts, u.handle, u.accounts);
        }
      }
      assert userlist[..|userlist|] == userlist;
    }

    /** Ignores are dropped and rebuilt in both branches. */
    method RebuildIgnores()
      modifies `ignores
      ensures Sorted(ignores) && Contents(ignores) == FullIgnores(ignoreList)
    {
      ignores := [];
      for i := 0 to |ignoreList|
        invariant Sorted(ignores) && Contents(ignores) == FullIgnores(ignoreList[..i])
      {
        assert ignoreList[..i + 1][..i] == ignoreList[..i];
        ignores := Put(ignores, ignoreList[i].mask, ignoreList[i].val);
      }
      assert ignoreList[..|ignoreList|] == ignoreList;
    }

    method ClearDirty()
      modifies `userlist
      ensures userlist == Cleaned(old(userlist))
    {
      for i := 0 to |userlist|
        invariant |userlist| == |old(userlist)|
        invariant forall k :: 0 <= k < |userlist| ==>
                    userlist[k] == if k < i then old(userlist)[k].(dirty := false) else old(userlist)[k]
      {
        userlist := userlist[i := userlist[i].(dirty := false)];
      }
    }

    /** Whether no listed user is clean. */
    method AllDirty() returns (all: bool)
      ensures all <==> forall u :: u in userlist ==> u.dirty
    {
      for i := 0 to |userlist|
        invariant forall k :: 0 <= k < i ==> userlist[k].dirty
      {
        if !userlist[i].dirty {
          return false;
        }
      }
      all := true;
    }

    /** Removes one user's record and index entries in one transaction. */
    method DelUser(handle: Key, committed: bool)
      requires Valid()
      modifies `users, `hosts, `accounts
      ensures Valid() && Db() == if committed then WithoutUser(old(Db()), handle) else old(Db())
    {
      var users0, hosts0, accounts0 := users, hosts, accounts;
      users := Del(users, handle);
      hosts := DeleteUserEntries(hosts, handle);
      accounts := DeleteUserEntries(accounts, handle);
      if !committed {
        users, hosts, accounts := users0, hosts0, accounts0;
      }
    }

    /** Gives a listed user a new handle; whether the handle is admissible is checked elsewhere. */
    method ChangeHandle(i: nat, h: Key)
      requires i < |userlist|
      modifies `userlist
      ensures userlist == Renamed(old(userlist), i, h)
    {
      userlist := userlist[i := userlist[i].(handle := h)];
      userlist := userlist[i := userlist[i].(dirty := true)];
    }

    /** The branch decision and the table updates of a save. */
    method WriteTables()
      requires Valid()
      modifies `users, `hosts, `accounts, `ignores, `fullResync
      ensures Valid() && Contents(ignores) == FullIgnores(ignoreList) && !fullResync
      ensures Db() == if old(fullResync) || forall u :: u in userlist ==> u.dirty
                      then FullTables(userlist) else IncTables(old(Db()), userlist)
    {
      var full := fullResync;
      if !full {
        full := AllDirty();
      }
      if full {
        Rebuild();
        RebuildIgnores();
        fullResync := false;
      } else {
        Update();
        RebuildIgnores();
      }
    }

    /** The transaction itself: all tables are written, then kept or taken back as a whole. */
    method Transaction(committed: bool)
      requires Valid()
      modifies this
      ensures Valid() && ignoreList == old(ignoreList) && !fullResync
      ensures var full := old(fullResync) || forall u :: u in old(userlist) ==> u.dirty;
              if committed
              then Db() == (if full then FullTables(old(userlist)) else IncTables(old(Db()), old(userlist)))
                   && Contents(ignores) == FullIgnores(ignoreList) && userlist == Cleaned(old(userlist))
              else Db() == old(Db()) && Contents(ignores) == old(Contents(ignores)) && userlist == old(userlist)
    {
      var users0, hosts0, accounts0, ignores0 := users, hosts, accounts, ignores;
      WriteTables();
      if committed {
        ClearDirty();
      } else {
        users, hosts, accounts, ignores := users0, hosts0, accounts0, ignores0;
      }
    }

    /** Writes the user list in one transaction; `begun` and `committed` are what the database
        answers.  The request for a full rebuild is withdrawn before the outcome is known. */
    method Persist(begun: bool, committed: bool)
      requires Valid()
      modifies this
      ensures Valid() && ignoreList == old(ignoreList)
      ensures var full := old(fullResync) || forall u :: u in old(userlist) ==> u.dirty;
              && (begun && committed ==>
                    && Db() == (if full then FullTables(old(userlist)) else IncTables(old(Db()), old(userlist)))
                    && Contents(ignores) == FullIgnores(ignoreList)
                    && userlist == Cleaned(old(userlist)))
              && (!(begun && committed) ==> Db() == old(Db()) && Contents(ignores) == old(Contents(ignores)) && userlist == old(userlist))
              && fullResync == (old(fullResync) && !begun)
      ensures begun && committed && old(ProperList(userlist))
              && old(fullResync || (forall u :: u in userlist ==> u.dirty) || InSync(Db(), userlist))
              ==> Db() == FullTables(userlist) && InSync(Db(), userlist)
    {
      SaveMirrors(Db(), userlist);
      if begun {
        Transaction(committed);
      }
    }

    /** A save: what comes of it, entry by entry. */
    method SaveUsers(begun: bool, committed: bool)
      requires Valid()
      modifies this
      ensures Valid() && ignoreList == old(ignoreList) && fullResync == (old(fullResync) && !begun)
      ensures !(begun && committed) ==> Db() == old(Db()) && Contents(ignores) == old(Contents(ignores)) && userlist == old(userlist)
      ensures begun && committed && old(ProperList(userlist))
              && old(fullResync || (forall u :: u in userlist ==> u.dirty) || InSync(Db(), userlist))
              ==> Mirrors(Db(), old(userlist)) && InSync(Db(), userlist)
      ensures begun && committed ==>
                MirrorsIgnores(Contents(ignores), ignoreList)
                && |userlist| == |old(userlist)| && forall i :: 0 <= i < |userlist| ==> userlist[i] == old(userlist)[i].(dirty := false)
    {
      IgnoresHold(ignoreList);
      if ProperList(userlist) {
        RebuildMirrors(userlist);
        BranchesAgree(Db(), userlist);
      }
      Persist(begun, committed);
    }
  }

  /** A full rebuild that fails to commit is not asked for again: unless the tables happened to be
      in sync (or every user is dirty), the next save, though committed, does not mirror the list. */
  method FailedRebuildIsForgotten(s: Store)
    requires s.Valid() && s.fullResync && ProperList(s.userlist)
    requires exists u :: u in s.userlist && !u.dirty
    modifies s
    ensures s.Db() == FullTables(s.userlist) <==> old(InSync(s.Db(), s.userlist))
  {
    BranchesAgree(s.Db(), s.userlist);
    CleanedFull(s.userlist, Hosts);
    CleanedFull(s.userlist, Accounts);
    s.Persist(true, false);
    s.Persist(true, true);
  }

  /** The list after a save and a rename has a clean user if and only if it has another user. */
  lemma CleanAfterRename(ul: seq<User>, i: nat, h: Key)
    requires i < |ul|
    ensures (forall u :: u in Renamed(Cleaned(ul), i, h) ==> u.dirty) <==> |ul| == 1
  {
    var vl := Renamed(Cleaned(ul), i, h);
    if |ul| > 1 {
      var k := if i == 0 then 1 else 0;
      assert vl[k] in vl && !vl[k].dirty;
    }
  }

  /** What a save finds in the tables and in the list after a committed save and a rename. */
  lemma RenamedAfterSave(ul: seq<User>, i: nat, h: Key)
    requires ProperList(ul) && i < |ul| && ProperList(Renamed(ul, i, h))
    ensures var vl := Renamed(Cleaned(ul), i, h);
            IncTables(FullTables(ul), vl) == FullTables(vl) <==> h == ul[i].handle
    ensures FullTables(Cleaned(Renamed(Cleaned(ul), i, h))) == FullTables(Renamed(Cleaned(ul), i, h))
  {
    var cl := Cleaned(ul);
    var vl := Renamed(cl, i, h);
    assert forall k :: 0 <= k < |ul| ==> vl[k].handle == Renamed(ul, i, h)[k].handle;
    SaveMirrors(FullTables(ul), ul);
    SaveMirrors(FullTables(ul), vl);
    CommitRestoresSync(ul);
    RenameKeepsSyncIff(FullTables(ul), cl, i, h);
    SavedIsRemembered(cl, i);
  }

  method SaveAndRename(s: Store, i: nat, h: Key)
    requires s.Valid() && ProperList(s.userlist) && i < |s.userlist|
    requires s.fullResync || (forall u :: u in s.userlist ==> u.dirty) || InSync(s.Db(), s.userlist)
    modifies s
    ensures s.Valid() && !s.fullResync
    ensures s.Db() == FullTables(old(s.userlist)) && s.userlist == Renamed(Cleaned(old(s.userlist)), i, h)
  {
    SaveMirrors(s.Db(), s.userlist);
    s.Persist(true, true);
    s.ChangeHandle(i, h);
  }

  /** A save, a rename and another save, all committed: the tables mirror the list if and only if the
      handle stayed the same or nobody else is listed, so that the second save was a rebuild. */
  method RenameIsForgotten(s: Store, i: nat, h: Key)
    requires s.Valid() && ProperList(s.userlist) && i < |s.userlist| && ProperList(Renamed(s.userlist, i, h))
    requires s.fullResync || (forall u :: u in s.userlist ==> u.dirty) || InSync(s.Db(), s.userlist)
    modifies s
    ensures s.Db() == FullTables(s.userlist) <==> h == old(s.userlist)[i].handle || |old(s.userlist)| == 1
  {
    RenamedAfterSave(s.userlist, i, h);
    CleanAfterRename(s.userlist, i, h);
    SaveAndRename(s, i, h);
    s.Persist(true, true);
  }
}
