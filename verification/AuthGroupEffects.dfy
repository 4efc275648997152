/** What an auth-group call leaves behind, on the fields of the store, and whom the guards let through. */
module AuthGroupEffects {
  import opened Text
  import opened Authority

  /** The writes in order, up to the first that fails. */
  function Perform(st: Store, now: int, ops: seq<Op>): (r: (Store, bool))
    decreases ops
  {
    if ops == [] then (st, true)
    else if !Succeeds(st, ops[0]) then (st, false)
    else Perform(Execute(st, now, ops[0]), now, ops[1..])
  }

  lemma {:induction false} PerformAppend(st: Store, now: int, xs: seq<Op>, ys: seq<Op>)
    ensures Perform(st, now, xs + ys) ==
            if Perform(st, now, xs).1 then Perform(Perform(st, now, xs).0, now, ys) else Perform(st, now, xs)
    decreases xs
  {
    if xs == [] {
      assert xs + ys == ys;
    } else {
      assert (xs + ys)[1..] == xs[1..] + ys;
      if Succeeds(st, xs[0]) {
        PerformAppend(Execute(st, now, xs[0]), now, xs[1..], ys);
      }
    }
  }

  lemma PerformOne(st: Store, now: int, op: Op)
    ensures Perform(st, now, [op]) == (Execute(st, now, op), Succeeds(st, op))
  {
    assert [op][1..] == [];
  }

  /** One more listed user: nothing new to write, or one more binding. */
  lemma BindOneMore(first: Store, now: int, users: seq<nat>, u: nat, g: nat, key: string, st: Store)
    requires Perform(first, now, NewBinds(users, g, key)) == (st, true)
    ensures u == 0 || u in NonZero(users) ==>
              NewBinds(users + [u], g, key) == NewBinds(users, g, key) && NonZero(users + [u]) == NonZero(users)
    ensures u != 0 && u !in NonZero(users) ==>
              && Perform(first, now, NewBinds(users + [u], g, key)) == (Execute(st, now, BindNew(u, g, key)), true)
              && NonZero(users + [u]) == NonZero(users) + {u}
  {
    assert (users + [u])[..|users|] == users;
    PerformOne(st, now, BindNew(u, g, key));
    PerformAppend(first, now, NewBinds(users, g, key), [BindNew(u, g, key)]);
  }

  // ----- the single changes -----

  /** Exactly this group is changed, and no membership. */
  predicate GroupChanged(st: Store, r: Store, id: nat, g: Group) {
    r == st.(groups := st.groups[id := g])
  }

  /** The store after a delete, or one permission or connection added or removed. */
  ghost predicate Changed(st: Store, r: Store, req: Request) {
    && !req.Create? && !req.Patch? && req.group in st.groups
    && var g := st.groups[req.group];
       match req
       case Delete(id) =>
         && r.groups == st.groups - {id} && r.byKey == st.byKey
         && r.users == st.users && r.catalog == st.catalog && r.live == st.live
         && (forall m :: m in r.byId <==> m in st.byId && m.1 != id) && (forall m :: m in r.byId ==> r.byId[m] == st.byId[m])
       case AddPermission(id, p) => Trim(p) in st.catalog && GroupChanged(st, r, id, g.(perms := g.perms + {Trim(p)}))
       case RemovePermission(id, p) => GroupChanged(st, r, id, g.(perms := g.perms - {p}))
       case AddConnection(id, c) => GroupChanged(st, r, id, g.(conns := g.conns + {c}))
       case RemoveConnection(id, c) => GroupChanged(st, r, id, g.(conns := g.conns - {c}))
       case _ => true
  }

  lemma ChangeEffect(st: Store, now: int, actor: nat, req: Request, r: Store)
    requires !req.Create? && !req.Patch? && Allowed(st, now, actor, req)
    requires Perform(st, now, Writes(st, req, 0)) == (r, true)
    ensures Changed(st, r, req)
  {
    PerformOne(st, now, Writes(st, req, 0)[0]);
    assert Writes(st, req, 0) == [Writes(st, req, 0)[0]];
  }

  /** The only single change that can fail is to add an unknown permission. */
  lemma ChangeSucceedsIff(st: Store, now: int, actor: nat, req: Request)
    requires !req.Create? && !req.Patch? && Allowed(st, now, actor, req)
    ensures Perform(st, now, Writes(st, req, 0)).1 <==> (req.AddPermission? ==> Trim(req.perm) in st.catalog)
  {
    PerformOne(st, now, Writes(st, req, 0)[0]);
    assert Writes(st, req, 0) == [Writes(st, req, 0)[0]];
  }

  // ----- replacing a group's members and contents -----

  predicate UniqueKeys(st: Store) {
    forall g, h :: g in st.groups && h in st.groups && st.groups[g].key == st.groups[h].key ==> g == h
  }

  predicate SameEntry<K, V(==)>(a: map<K, V>, b: map<K, V>, k: K) {
    (k in a <==> k in b) && (k in a ==> a[k] == b[k])
  }

  /** Only memberships by this key may differ, and of these only those of the given users. */
  ghost predicate OnlyBound(st: Store, r: Store, key: string, users: set<nat>) {
    && r == st.(byKey := r.byKey)
    && forall u, k :: k != key || u !in users ==> SameEntry(st.byKey, r.byKey, (u, k))
  }

  /** Binding makes every listed user a member. */
  lemma {:induction false} BindsEffect(st: Store, now: int, users: seq<nat>, g: nat, key: string, r: Store)
    requires g in st.groups && st.groups[g].key == key && Perform(st, now, NewBinds(users, g, key)) == (r, true)
    ensures OnlyBound(st, r, key, NonZero(users))
    ensures forall u :: u in NonZero(users) ==> InGroup(r, now, u, g)
  {
    if users == [] {
      assert NonZero(users) == {};
    } else {
      var n := |users| - 1;
      var front, u := users[..n], users[n];
      assert users == front + [u];
      AllBindsSucceed(st, now, front, g, key);
      var mid := Perform(st, now, NewBinds(front, g, key)).0;
      BindsEffect(st, now, front, g, key, mid);
      BindOneMore(st, now, front, u, g, key, mid);
      OneBound(st, mid, r, now, NonZero(front), u, g, key);
    }
  }

  lemma OneBound(st: Store, mid: Store, r: Store, now: int, front: set<nat>, u: nat, g: nat, key: string)
    requires g in st.groups && st.groups[g].key == key && OnlyBound(st, mid, key, front) && (forall v :: v in front ==> InGroup(mid, now, v, g))
    requires r == if u == 0 || u in front then mid else Execute(mid, now, BindNew(u, g, key))
    ensures OnlyBound(st, r, key, if u == 0 then front else front + {u})
    ensures forall v :: v in (if u == 0 then front else front + {u}) ==> InGroup(r, now, v, g)
  {
  }

  lemma {:induction false} AllBindsSucceed(st: Store, now: int, users: seq<nat>, g: nat, key: string)
    ensures Perform(st, now, NewBinds(users, g, key)).1
  {
    if users != [] {
      var n := |users| - 1;
      assert users == users[..n] + [users[n]];
      AllBindsSucceed(st, now, users[..n], g, key);
      BindOneMore(st, now, users[..n], users[n], g, key, Perform(st, now, NewBinds(users[..n], g, key)).0);
    }
  }

  /** Whose membership of which group is what it was. */
  ghost predicate SameMembership(st: Store, r: Store, now: int, u: nat, g: nat) {
    InGroup(st, now, u, g) <==> InGroup(r, now, u, g)
  }

  /** The members are exactly the listed users, among those that exist, and nobody's membership of
      another group is touched. */
  ghost predicate MembersReplaced(st: Store, r: Store, now: int, g: nat, users: seq<nat>) {
    && (forall u :: u in st.users ==> (InGroup(r, now, u, g) <==> u in users && u != 0))
    && (forall u, x :: x != g ==> SameMembership(st, r, now, u, x))
  }

  ghost predicate MembersKept(st: Store, r: Store, now: int) {
    forall u, x :: SameMembership(st, r, now, u, x)
  }

  lemma UnbindEffect(st: Store, mid: Store, r: Store, now: int, g: nat, key: string, users: seq<nat>)
    requires UniqueKeys(st) && g in st.groups && st.groups[g].key == key
    requires OnlyBound(st, mid, key, NonZero(users)) && (forall u :: u in NonZero(users) ==> InGroup(mid, now, u, g))
    requires r == Execute(mid, now, Unbind(g, key, NonZero(users)))
    ensures MembersReplaced(st, r, now, g, users) && r == st.(byKey := r.byKey, byId := r.byId)
  {
    forall u, x | x != g ensures SameMembership(st, r, now, u, x) {
      if x in st.groups {
        assert SameEntry(st.byKey, mid.byKey, (u, st.groups[x].key));
      }
    }
  }

  /** The groups afterwards: this one with exactly the listed contents, where any are given. */
  predicate ContentsReplaced(st: Store, r: Store, g: nat, newPerms: Option<seq<string>>, newConns: Option<seq<nat>>) {
    && g in st.groups
    && r.groups == st.groups[g := st.groups[g].(
         perms := if newPerms.Some? then set p | p in newPerms.value else st.groups[g].perms,
         conns := if newConns.Some? then set c | c in newConns.value else st.groups[g].conns)]
    && r.users == st.users && r.catalog == st.catalog && r.live == st.live
  }

  ghost predicate Patched(st: Store, r: Store, now: int, g: nat, newUsers: Option<seq<nat>>, newPerms: Option<seq<string>>, newConns: Option<seq<nat>>) {
    && ContentsReplaced(st, r, g, newPerms, newConns)
    && if newUsers.Some? then MembersReplaced(st, r, now, g, newUsers.value) else MembersKept(st, r, now)
  }

  function MemberWrites(st: Store, g: nat, newUsers: Option<seq<nat>>): seq<Op>
    requires g in st.groups
  {
    if newUsers.Some? then NewBinds(newUsers.value, g, st.groups[g].key) + [Unbind(g, st.groups[g].key, NonZero(newUsers.value))] else []
  }

  function ContentWrites(g: nat, newPerms: Option<seq<string>>, newConns: Option<seq<nat>>): seq<Op> {
    (if newPerms.Some? then [SetPerms(g, newPerms.value)] else []) + (if newConns.Some? then [SetConns(g, newConns.value)] else [])
  }

  lemma MembersEffect(st: Store, now: int, g: nat, newUsers: Option<seq<nat>>, mid: Store)
    requires UniqueKeys(st) && g in st.groups && Perform(st, now, MemberWrites(st, g, newUsers)).0 == mid
    ensures Perform(st, now, MemberWrites(st, g, newUsers)).1 && mid == st.(byKey := mid.byKey, byId := mid.byId)
    ensures if newUsers.Some? then MembersReplaced(st, mid, now, g, newUsers.value) else mid == st
  {
    if newUsers.Some? {
      var users, key := newUsers.value, st.groups[g].key;
      AllBindsSucceed(st, now, users, g, key);
      var bound := Perform(st, now, NewBinds(users, g, key)).0;
      BindsEffect(st, now, users, g, key, bound);
      PerformOne(bound, now, Unbind(g, key, NonZero(users)));
      PerformAppend(st, now, NewBinds(users, g, key), [Unbind(g, key, NonZero(users))]);
      UnbindEffect(st, bound, mid, now, g, key, users);
    }
  }

  /** Replacing contents succeeds exactly for lists without repetition and known permissions. */
  predicate Replaceable(st: Store, newPerms: Option<seq<string>>, newConns: Option<seq<nat>>) {
    && (newPerms.Some? ==> (forall i, j :: 0 <= i < j < |newPerms.value| ==> newPerms.value[i] != newPerms.value[j])
                           && forall p :: p in newPerms.value ==> p in st.catalog)
    && (newConns.Some? ==> forall i, j :: 0 <= i < j < |newConns.value| ==> newConns.value[i] != newConns.value[j])
  }

  lemma ContentsEffect(st: Store, now: int, g: nat, newPerms: Option<seq<string>>, newConns: Option<seq<nat>>)
    requires g in st.groups
    ensures var (r, ok) := Perform(st, now, ContentWrites(g, newPerms, newConns));
            && (ok <==> Replaceable(st, newPerms, newConns))
            && (ok ==> ContentsReplaced(st, r, g, newPerms, newConns) && r.byKey == st.byKey && r.byId == st.byId)
  {
    var first := if newPerms.Some? then [SetPerms(g, newPerms.value)] else [];
    var second := if newConns.Some? then [SetConns(g, newConns.value)] else [];
    PerformAppend(st, now, first, second);
    if newPerms.Some? {
      PerformOne(st, now, SetPerms(g, newPerms.value));
    }
    if newConns.Some? {
      PerformOne(Perform(st, now, first).0, now, SetConns(g, newConns.value));
    }
  }

  lemma PatchWrites(st: Store, now: int, g: nat, newUsers: Option<seq<nat>>, newPerms: Option<seq<string>>, newConns: Option<seq<nat>>)
    requires g in st.groups
    ensures Writes(st, Patch(g, newUsers, newPerms, newConns), 0) == MemberWrites(st, g, newUsers) + ContentWrites(g, newPerms, newConns)
  {
  }

  /** A patch leaves exactly the listed members, permissions and connections. */
  lemma PatchEffect(st: Store, now: int, g: nat, newUsers: Option<seq<nat>>, newPerms: Option<seq<string>>, newConns: Option<seq<nat>>, r: Store)
    requires UniqueKeys(st) && g in st.groups && Perform(st, now, Writes(st, Patch(g, newUsers, newPerms, newConns), 0)) == (r, true)
    ensures Patched(st, r, now, g, newUsers, newPerms, newConns)
  {
    PatchWrites(st, now, g, newUsers, newPerms, newConns);
    var members, contents := MemberWrites(st, g, newUsers), ContentWrites(g, newPerms, newConns);
    var mid := Perform(st, now, members).0;
    MembersEffect(st, now, g, newUsers, mid);
    PerformAppend(st, now, members, contents);
    ContentsEffect(mid, now, g, newPerms, newConns);
    PatchedFrom(st, mid, r, now, g, newUsers, newPerms, newConns);
  }

  lemma PatchedFrom(st: Store, mid: Store, r: Store, now: int, g: nat, newUsers: Option<seq<nat>>, newPerms: Option<seq<string>>, newConns: Option<seq<nat>>)
    requires g in st.groups && mid == st.(byKey := mid.byKey, byId := mid.byId)
    requires if newUsers.Some? then MembersReplaced(st, mid, now, g, newUsers.value) else mid == st
    requires ContentsReplaced(mid, r, g, newPerms, newConns) && r.byKey == mid.byKey && r.byId == mid.byId
    ensures Patched(st, r, now, g, newUsers, newPerms, newConns)
  {
    forall u, x ensures InGroup(mid, now, u, x) <==> InGroup(r, now, u, x) {
    }
    if newUsers.Some? {
      forall u, x | x != g ensures SameMembership(st, r, now, u, x) {
        assert SameMembership(st, mid, now, u, x);
      }
    }
  }

  /** It succeeds exactly for lists without repetition and known permissions. */
  lemma PatchSucceedsIff(st: Store, now: int, g: nat, newUsers: Option<seq<nat>>, newPerms: Option<seq<string>>, newConns: Option<seq<nat>>)
    requires UniqueKeys(st) && g in st.groups
    ensures Perform(st, now, Writes(st, Patch(g, newUsers, newPerms, newConns), 0)).1 <==> Replaceable(st, newPerms, newConns)
  {
    PatchWrites(st, now, g, newUsers, newPerms, newConns);
    var members, contents := MemberWrites(st, g, newUsers), ContentWrites(g, newPerms, newConns);
    var mid := Perform(st, now, members).0;
    MembersEffect(st, now, g, newUsers, mid);
    PerformAppend(st, now, members, contents);
    ContentsEffect(mid, now, g, newPerms, newConns);
  }

  // ----- creating a group -----

  /** Memberships left behind under the new group's key or ID. */
  predicate LeftBehind(st: Store, now: int, u: nat, key: string, id: nat) {
    || ((u, key) in st.byKey && Current(st.byKey[(u, key)], now))
    || ((u, id) in st.byId && Current(st.byId[(u, id)], now))
  }

  /** A new group of that key, ordinary, with exactly the listed contents; its members are the listed
      users and those with a membership left behind; no other group gains or loses a member. */
  ghost predicate Created(st: Store, r: Store, now: int, key: string, users: seq<nat>, perms: seq<string>, conns: seq<nat>, id: nat) {
    && id !in st.groups && (forall g :: g in st.groups ==> st.groups[g].key != key)
    && r.groups == st.groups[id := Group(key, false, false, set p | p in perms, set c | c in conns)]
    && r.users == st.users && r.catalog == st.catalog && r.live == st.live
    && (forall u :: InGroup(r, now, u, id) <==> u in users || LeftBehind(st, now, u, key, id))
    && (forall u, x :: x != id ==> SameMembership(st, r, now, u, x))
  }

  lemma {:induction false} CreateBinds(st: Store, now: int, users: seq<nat>, key: string)
    ensures var (r, ok) := Perform(st, now, Binds(users, key));
            && ok && r == st.(byKey := r.byKey)
            && (forall u, k :: k != key || u !in users ==> SameEntry(st.byKey, r.byKey, (u, k)))
            && (forall u :: u in users ==> (u, key) in r.byKey && r.byKey[(u, key)] == None)
  {
    if users != [] {
      var n := |users| - 1;
      assert Binds(users, key) == Binds(users[..n], key) + [Bind(users[n], key)];
      CreateBinds(st, now, users[..n], key);
      var mid := Perform(st, now, Binds(users[..n], key)).0;
      PerformAppend(st, now, Binds(users[..n], key), [Bind(users[n], key)]);
      PerformOne(mid, now, Bind(users[n], key));
      var r := Perform(st, now, Binds(users, key)).0;
      assert users == users[..n] + [users[n]];
      forall u, k | k != key || u !in users ensures SameEntry(st.byKey, r.byKey, (u, k)) {
        assert SameEntry(st.byKey, mid.byKey, (u, k));
      }
    }
  }

  /** Creating leaves exactly what is listed, and revives memberships left behind under the same key. */
  lemma CreateEffect(st: Store, now: int, key: string, users: seq<nat>, perms: seq<string>, conns: seq<nat>, id: nat, r: Store)
    requires Perform(st, now, Writes(st, Create(key, users, perms, conns), id)) == (r, true)
    ensures Created(st, r, now, key, users, perms, conns, id)
  {
    var first, binds, contents := [InsertGroup(id, key)], Binds(users, key), ContentWrites(id, Some(perms), Some(conns));
    assert contents == [SetPerms(id, perms), SetConns(id, conns)];
    assert Writes(st, Create(key, users, perms, conns), id) == first + binds + contents;
    PerformOne(st, now, InsertGroup(id, key));
    PerformAppend(st, now, first, binds);
    PerformAppend(st, now, first + binds, contents);
    var inserted := Execute(st, now, InsertGroup(id, key));
    CreateBinds(inserted, now, users, key);
    var bound := Perform(inserted, now, binds).0;
    ContentsEffect(bound, now, id, Some(perms), Some(conns));
    CreatedFrom(st, inserted, bound, r, now, key, users, perms, conns, id);
  }

  lemma CreatedFrom(st: Store, inserted: Store, bound: Store, r: Store, now: int, key: string, users: seq<nat>, perms: seq<string>, conns: seq<nat>, id: nat)
    requires id !in st.groups && (forall g :: g in st.groups ==> st.groups[g].key != key)
    requires inserted == st.(groups := st.groups[id := Group(key, false, false, {}, {})]) && bound == inserted.(byKey := bound.byKey)
    requires forall u, k :: k != key || u !in users ==> SameEntry(st.byKey, bound.byKey, (u, k))
    requires forall u :: u in users ==> (u, key) in bound.byKey && bound.byKey[(u, key)] == None
    requires ContentsReplaced(bound, r, id, Some(perms), Some(conns)) && r.byKey == bound.byKey && r.byId == bound.byId
    ensures Created(st, r, now, key, users, perms, conns, id)
  {
    assert r.groups == st.groups[id := Group(key, false, false, set p | p in perms, set c | c in conns)];
    forall u ensures InGroup(r, now, u, id) <==> u in users || LeftBehind(st, now, u, key, id) {
      assert u !in users ==> SameEntry(st.byKey, bound.byKey, (u, key));
    }
    forall u, x | x != id ensures SameMembership(st, r, now, u, x) {
      if x in st.groups {
        assert SameEntry(st.byKey, bound.byKey, (u, st.groups[x].key));
      }
    }
  }

  /** A create succeeds exactly if the ID is new, no group has the key, and the contents can be set. */
  lemma CreateSucceedsIff(st: Store, now: int, key: string, users: seq<nat>, perms: seq<string>, conns: seq<nat>, id: nat)
    ensures Perform(st, now, Writes(st, Create(key, users, perms, conns), id)).1 <==>
            id !in st.groups && (forall g :: g in st.groups ==> st.groups[g].key != key) && Replaceable(st, Some(perms), Some(conns))
  {
    var first, binds, contents := [InsertGroup(id, key)], Binds(users, key), ContentWrites(id, Some(perms), Some(conns));
    assert contents == [SetPerms(id, perms), SetConns(id, conns)];
    assert Writes(st, Create(key, users, perms, conns), id) == first + binds + contents;
    PerformOne(st, now, InsertGroup(id, key));
    PerformAppend(st, now, first, binds);
    PerformAppend(st, now, first + binds, contents);
    if Succeeds(st, InsertGroup(id, key)) {
      var inserted := Execute(st, now, InsertGroup(id, key));
      CreateBinds(inserted, now, users, key);
      ContentsEffect(Perform(inserted, now, binds).0, now, id, Some(perms), Some(conns));
    }
  }

  /** The members of a new group are exactly the listed users if and only if no membership of anybody else
      was left behind. */
  lemma OnlyListedAreMembersIff(st: Store, now: int, key: string, users: seq<nat>, perms: seq<string>, conns: seq<nat>, id: nat, r: Store)
    requires Perform(st, now, Writes(st, Create(key, users, perms, conns), id)) == (r, true)
    ensures (forall u :: InGroup(r, now, u, id) <==> u in users) <==> forall u :: LeftBehind(st, now, u, key, id) ==> u in users
  {
    CreateEffect(st, now, key, users, perms, conns, id, r);
    assert forall u :: InGroup(r, now, u, id) <==> u in users || LeftBehind(st, now, u, key, id);
    if forall u :: InGroup(r, now, u, id) <==> u in users {
      forall u | LeftBehind(st, now, u, key, id) ensures u in users {
        assert InGroup(r, now, u, id);
      }
    }
  }

  /** A membership left behind comes back: user 3 was a member of the deleted group "ops" and is not
      listed for the new one, but is a member of it. */
  lemma DeletedMembershipRevives(st: Store, now: int, id: nat, r: Store)
    requires st.groups == map[] && st.byKey == map[(3, "ops") := None]
    requires Perform(st, now, Writes(st, Create("ops", [], [], []), id)) == (r, true)
    ensures InGroup(r, now, 3, id)
  {
    CreateEffect(st, now, "ops", [], [], [], id, r);
    assert LeftBehind(st, now, 3, "ops", id);
  }

  // ----- the other half of the guards -----

  /** What an administrator is refused for: nothing but a missing group, a protected one on delete, a
      blank key, connection 0, or an added user who does not exist. */
  lemma AdminIsAllowedIff(st: Store, now: int, actor: nat, req: Request)
    requires actor != 0 && HasAll(st, now, actor)
    ensures Allowed(st, now, actor, req) <==>
            match req
            case Create(_, _, _, _) => true
            case Patch(g, newUsers, _, _) =>
              g in st.groups && (newUsers.Some? ==> forall u :: u in newUsers.value && u != 0 ==> u in st.users)
            case Delete(g) => g in st.groups && !st.groups[g].protected
            case AddPermission(g, p) => g in st.groups && !Blank(p)
            case RemovePermission(g, p) => g in st.groups && !Blank(p)
            case AddConnection(g, c) => g in st.groups && c != 0
            case RemoveConnection(g, _) => g in st.groups
  {
    match req {
      case Patch(g, newUsers, newPerms, newConns) =>
        if newUsers.Some? && g in st.groups {
          assert forall u :: u in newUsers.value && u != 0 <==> u in NonZero(newUsers.value);
        }
      case _ =>
    }
  }

  predicate Ordinary(g: Group) {
    !g.protected && !g.allPermissions && g.key != "admin"
  }

  /** Anybody else may change ordinary groups only, and add only what they hold. */
  lemma OthersAreAllowedIff(st: Store, now: int, actor: nat, req: Request)
    requires actor != 0 && !HasAll(st, now, actor) && !req.Create? && !req.Patch?
    ensures Allowed(st, now, actor, req) <==>
            && req.group in st.groups
            && match req
               case Delete(g) => !st.groups[g].protected
               case AddPermission(g, p) => Ordinary(st.groups[g]) && !Blank(p) && HoldsPermission(st, now, actor, Trim(p))
               case RemovePermission(g, p) => Ordinary(st.groups[g]) && !Blank(p)
               case AddConnection(g, c) => Ordinary(st.groups[g]) && c != 0 && HoldsConnection(st, now, actor, c)
               case RemoveConnection(g, _) => Ordinary(st.groups[g])
               case _ => true
  {
  }

  /** The actor holds every permission and every connection that is listed; blank keys and connection 0 are passed over. */
  predicate HoldsAll(st: Store, now: int, actor: nat, perms: seq<string>, conns: seq<nat>) {
    && (forall p :: p in perms && Trim(p) != "" ==> HoldsPermission(st, now, actor, Trim(p)))
    && (forall c :: c in conns && c != 0 ==> HoldsConnection(st, now, actor, c))
  }

  lemma OthersMayCreateIff(st: Store, now: int, actor: nat, key: string, users: seq<nat>, perms: seq<string>, conns: seq<nat>)
    requires actor != 0 && !HasAll(st, now, actor)
    ensures Allowed(st, now, actor, Create(key, users, perms, conns)) <==> HoldsAll(st, now, actor, perms, conns)
  {
  }

  /** The actor holds everything the group gives that exists. */
  predicate HoldsContents(st: Store, now: int, actor: nat, g: Group) {
    && (forall p :: p in g.perms && p in st.catalog ==> HoldsPermission(st, now, actor, p))
    && (forall c :: c in g.conns ==> HoldsConnection(st, now, actor, c))
  }

  /** A user the member change concerns: added and existing, or removed; in neither case protected. */
  predicate MemberChangeFits(st: Store, now: int, g: nat, users: seq<nat>, u: nat) {
    var listed, was := u in users && u != 0, u in st.users && InGroup(st, now, u, g);
    && (listed && !was ==> u in st.users && !st.users[u].protected)
    && (was && !listed ==> !st.users[u].protected)
  }

  /** Anybody else may patch ordinary groups only; listing members takes holding all the group gives, and only
      unprotected, existing users may be added or removed; contents may only be what the actor holds. */
  lemma OthersMayPatchIff(st: Store, now: int, actor: nat, g: nat, newUsers: Option<seq<nat>>, newPerms: Option<seq<string>>, newConns: Option<seq<nat>>)
    requires actor != 0 && !HasAll(st, now, actor)
    ensures Allowed(st, now, actor, Patch(g, newUsers, newPerms, newConns)) <==>
            && g in st.groups && Ordinary(st.groups[g])
            && (newUsers.Some? ==> HoldsContents(st, now, actor, st.groups[g]) && forall u :: MemberChangeFits(st, now, g, newUsers.value, u))
            && HoldsAll(st, now, actor, if newPerms.Some? then newPerms.value else [], if newConns.Some? then newConns.value else [])
  {
    if newUsers.Some? && g in st.groups {
      MemberChangesFit(st, now, actor, g, newUsers.value);
    }
  }

  lemma MemberChangesFit(st: Store, now: int, actor: nat, g: nat, users: seq<nat>)
    requires actor != 0 && !HasAll(st, now, actor)
    ensures var next, current := NonZero(users), Members(st, now, g);
            && (forall u :: u in next - current ==> u in st.users && MayChangeUser(st, now, actor, u))
            && (forall u :: u in current - next ==> MayChangeUser(st, now, actor, u))
            <==> forall u :: MemberChangeFits(st, now, g, users, u)
  {
    var next, current := NonZero(users), Members(st, now, g);
    if (forall u :: u in next - current ==> u in st.users && MayChangeUser(st, now, actor, u)) &&
       (forall u :: u in current - next ==> MayChangeUser(st, now, actor, u)) {
      forall u ensures MemberChangeFits(st, now, g, users, u) {
        assert u in next <==> u in users && u != 0;
        assert u in current <==> u in st.users && InGroup(st, now, u, g);
        assert u in next - current <==> u in next && u !in current;
        assert u in current - next <==> u in current && u !in next;
      }
    }
    if forall u :: MemberChangeFits(st, now, g, users, u) {
      forall u | u in next - current ensures u in st.users && MayChangeUser(st, now, actor, u) {
        assert MemberChangeFits(st, now, g, users, u);
      }
      forall u | u in current - next ensures MayChangeUser(st, now, actor, u) {
        assert MemberChangeFits(st, now, g, users, u);
      }
    }
  }
}
