/** The auth-group handlers as they run, each call on its own: search loops for the checks, diff
    loops for the members, then the remaining writes. A call is one run of the step system in
    `Authority`, so the bound on what a coalition can reach covers these handlers. */
module AuthGroupHandler {
  import opened Text
  import opened Authority
  import opened AuthGroupEffects

  datatype Status = Refused | Failed | Done

  class Handler {
    var store: Store

    constructor (initial: Store)
      ensures store == initial
    {
      store := initial;
    }

    method ListMayBeGranted(now: int, actor: nat, perms: seq<string>, conns: seq<nat>) returns (ok: bool)
      ensures ok <==> MayGrantAll(store, now, actor, perms, conns)
    {
      for i := 0 to |perms|
        invariant forall k :: 0 <= k < i && !Blank(perms[k]) ==> MayGrantPermission(store, now, actor, Trim(perms[k]))
      {
        if !Blank(perms[i]) && !MayGrantPermission(store, now, actor, Trim(perms[i])) { return false; }
      }
      for i := 0 to |conns|
        invariant forall k :: 0 <= k < i && conns[k] != 0 ==> MayGrantConnection(store, now, actor, conns[k])
      {
        if conns[i] != 0 && !MayGrantConnection(store, now, actor, conns[i]) { return false; }
      }
      return true;
    }

    method Create(now: int, actor: nat, key: string, users: seq<nat>, perms: seq<string>, conns: seq<nat>, id: nat)
      returns (status: Status)
      modifies this
      ensures var req := Authority.Create(key, users, perms, conns);
        if !Allowed(old(store), now, actor, req) then status == Refused && store == old(store)
        else (store, status == Done) == Perform(old(store), now, Writes(old(store), req, id)) && status != Refused
      ensures status == Done ==> Created(old(store), store, now, key, users, perms, conns, id)
    {
      ghost var ops := [InsertGroup(id, key)];
      ghost var first := store;
      var ok := ListMayBeGranted(now, actor, perms, conns);
      if !ok { return Refused; }
      PerformOne(store, now, InsertGroup(id, key));
      if !Succeeds(store, InsertGroup(id, key)) {
        PerformAppend(first, now, ops, Binds(users, key) + [SetPerms(id, perms), SetConns(id, conns)]);
        assert ops + (Binds(users, key) + [SetPerms(id, perms), SetConns(id, conns)])
            == ops + Binds(users, key) + [SetPerms(id, perms), SetConns(id, conns)];
        return Failed;
      }
      store := Execute(store, now, InsertGroup(id, key));
      for i := 0 to |users|
        invariant Perform(first, now, ops) == (store, true)
        invariant ops == [InsertGroup(id, key)] + Binds(users, key)[..i]
      {
        PerformOne(store, now, Bind(users[i], key));
        PerformAppend(first, now, ops, [Bind(users[i], key)]);
        store := store.(byKey := store.byKey[(users[i], key) := None]);
        ops := ops + [Bind(users[i], key)];
      }
      assert ops + [SetPerms(id, perms), SetConns(id, conns)] == Writes(first, Authority.Create(key, users, perms, conns), id);
      PerformAppend(first, now, ops, [SetPerms(id, perms), SetConns(id, conns)]);
      status := ReplaceContents(now, [SetPerms(id, perms), SetConns(id, conns)]);
      if status == Done {
        CreateEffect(first, now, key, users, perms, conns, id, store);
      }
    }

    /** Replacing permissions and then connections, stopping at an error. */
    method ReplaceContents(now: int, ops: seq<Op>) returns (status: Status)
      modifies this
      ensures (store, status == Done) == Perform(old(store), now, ops) && status != Refused
    {
      ghost var first := store;
      for i := 0 to |ops|
        invariant Perform(first, now, ops) == Perform(store, now, ops[i..])
      {
        assert ops[i..][1..] == ops[i + 1..];
        if !Succeeds(store, ops[i]) { return Failed; }
        store := Execute(store, now, ops[i]);
      }
      return Done;
    }

    method UsersMayBeReplaced(now: int, actor: nat, g: nat, users: seq<nat>) returns (ok: bool)
      requires g in store.groups
      ensures ok <==> var next, current := NonZero(users), Members(store, now, g);
        && (forall u :: u in next - current ==> u in store.users && MayChangeUser(store, now, actor, u))
        && (forall u :: u in current - next ==> MayChangeUser(store, now, actor, u))
    {
      var current := Members(store, now, g);
      var next: set<nat> := {};
      for i := 0 to |users|
        invariant next == NonZero(users[..i])
        invariant forall u :: u in next - current ==> u in store.users && MayChangeUser(store, now, actor, u)
      {
        assert users[..i + 1] == users[..i] + [users[i]];
        var u := users[i];
        if u == 0 { continue; }
        next := next + {u};
        if u !in current && (u !in store.users || !MayChangeUser(store, now, actor, u)) {
          assert u in NonZero(users);
          return false;
        }
      }
      assert users[..|users|] == users;
      var todo := current - next;
      while todo != {}
        invariant todo <= current - next
        invariant forall u :: u in current - next && u !in todo ==> MayChangeUser(store, now, actor, u)
      {
        var u :| u in todo;
        if !MayChangeUser(store, now, actor, u) { return false; }
        todo := todo - {u};
      }
      return true;
    }

    /** Adds who is new; returns the users listed. */
    method AddUsers(now: int, g: nat, users: seq<nat>) returns (next: set<nat>)
      requires g in store.groups
      modifies this
      ensures (store, true) == Perform(old(store), now, NewBinds(users, g, old(store).groups[g].key))
      ensures next == NonZero(users) && store.groups == old(store).groups
    {
      var key := store.groups[g].key;
      ghost var first := store;
      next := {};
      for i := 0 to |users|
        invariant Perform(first, now, NewBinds(users[..i], g, key)) == (store, true)
        invariant next == NonZero(users[..i]) && store.groups == first.groups
      {
        var u := users[i];
        assert users[..i + 1] == users[..i] + [u];
        BindOneMore(first, now, users[..i], u, g, key, store);
        if u == 0 || u in next {
          continue;
        }
        next := next + {u};
        if !InGroup(store, now, u, g) {
          store := store.(byKey := store.byKey[(u, key) := None]);
        }
      }
      assert users[..|users|] == users;
    }

    /** The member diff: add who is new, then remove who is no longer listed. */
    method ReplaceUsers(now: int, g: nat, users: seq<nat>)
      requires g in store.groups
      modifies this
      ensures (store, true) ==
        Perform(old(store), now, NewBinds(users, g, old(store).groups[g].key) + [Unbind(g, old(store).groups[g].key, NonZero(users))])
    {
      var key := store.groups[g].key;
      ghost var first := store;
      var next := AddUsers(now, g, users);
      PerformOne(store, now, Unbind(g, key, NonZero(users)));
      PerformAppend(first, now, NewBinds(users, g, key), [Unbind(g, key, NonZero(users))]);
      store := Execute(store, now, Unbind(g, key, next));
    }

    method Patch(now: int, actor: nat, g: nat, newUsers: Option<seq<nat>>, newPerms: Option<seq<string>>, newConns: Option<seq<nat>>)
      returns (status: Status)
      modifies this
      ensures var req := Authority.Patch(g, newUsers, newPerms, newConns);
        if !Allowed(old(store), now, actor, req) then status == Refused && store == old(store)
        else (store, status == Done) == Perform(old(store), now, Writes(old(store), req, 0)) && status != Refused
      ensures status == Done && UniqueKeys(old(store)) ==> Patched(old(store), store, now, g, newUsers, newPerms, newConns)
    {
      if g !in store.groups || !MayMutate(store, now, actor, store.groups[g]) { return Refused; }
      if newUsers.Some? {
        if !MayGrantContents(store, now, actor, store.groups[g]) { return Refused; }
        var usersOk := UsersMayBeReplaced(now, actor, g, newUsers.value);
        if !usersOk { return Refused; }
      }
      var ok := ListMayBeGranted(now, actor, if newPerms.Some? then newPerms.value else [], Replaced(newConns));
      if !ok { return Refused; }
      ghost var first := store;
      ghost var members := if newUsers.Some? then
        NewBinds(newUsers.value, g, store.groups[g].key) + [Unbind(g, store.groups[g].key, NonZero(newUsers.value))] else [];
      if newUsers.Some? {
        ReplaceUsers(now, g, newUsers.value);
      }
      var contents := (if newPerms.Some? then [SetPerms(g, newPerms.value)] else [])
                      + (if newConns.Some? then [SetConns(g, newConns.value)] else []);
      PerformAppend(first, now, members, contents);
      assert members + contents == Writes(first, Authority.Patch(g, newUsers, newPerms, newConns), 0);
      status := ReplaceContents(now, contents);
      if status == Done && UniqueKeys(first) {
        PatchEffect(first, now, g, newUsers, newPerms, newConns, store);
      }
    }

    /** Delete, AddPermission, RemovePermission, AddDBConnection and RemoveDBConnection: one check, one write. */
    method Change(now: int, actor: nat, req: Request) returns (status: Status)
      requires !req.Create? && !req.Patch?
      modifies this
      ensures if !Allowed(old(store), now, actor, req) then status == Refused && store == old(store)
        else (store, status == Done) == Perform(old(store), now, Writes(old(store), req, 0)) && status != Refused
      ensures status == Done ==> Changed(old(store), store, req)
    {
      if req.group !in store.groups { return Refused; }
      var g := store.groups[req.group];
      if req.Delete? {
        if g.protected { return Refused; }
      } else if !MayMutate(store, now, actor, g) {
        return Refused;
      }
      match req {
        case AddPermission(_, p) =>
          if Blank(p) || !MayGrantPermission(store, now, actor, Trim(p)) { return Refused; }
        case RemovePermission(_, p) =>
          if Blank(p) { return Refused; }
        case AddConnection(_, c) =>
          if c == 0 || !MayGrantConnection(store, now, actor, c) { return Refused; }
        case _ =>
      }
      ghost var first := store;
      status := ReplaceContents(now, Writes(store, req, 0));
      if status == Done {
        ChangeEffect(first, now, actor, req, store);
      }
    }
  }

  // ----- a call is a run -----

  lemma {:induction false} WritesAreRun(w: World, job: nat) returns (worlds: seq<World>, steps: seq<Step>)
    requires job in w.jobs
    ensures |worlds| == |steps| + 1 && worlds[0] == w
    ensures forall i :: 0 <= i < |steps| ==> Enabled(worlds[i], steps[i]) && worlds[i + 1] == Apply(worlds[i], steps[i]) && steps[i].Write?
    ensures worlds[|steps|].store == Perform(w.store, w.now, w.jobs[job]).0
    decreases |w.jobs[job]|
  {
    if w.jobs[job] == [] {
      worlds, steps := [w], [];
    } else {
      var step := Write(job, {}, false, false);
      var op := w.jobs[job][0];
      assert op.Unbind? ==> op.keep + {} == op.keep;
      assert Sparing(op, {}) == op;
      var next := Apply(w, step);
      if Succeeds(w.store, op) {
        var ws, ss := WritesAreRun(next, job);
        worlds, steps := [w] + ws, [step] + ss;
        forall i | 0 <= i < |steps|
          ensures Enabled(worlds[i], steps[i]) && worlds[i + 1] == Apply(worlds[i], steps[i]) && steps[i].Write?
        {
          assert i > 0 ==> worlds[i] == ws[i - 1] && steps[i] == ss[i - 1] && worlds[i + 1] == ws[i];
        }
      } else {
        worlds, steps := [w, next], [step];
      }
    }
  }

  /** What an allowed call leaves in the store is what a run of the step system by that actor
      leaves there. */
  lemma CallIsRun(st: Store, now: int, actor: nat, req: Request, id: nat) returns (worlds: seq<World>, steps: seq<Step>)
    requires WellFormed(st) && Allowed(st, now, actor, req)
    ensures IsRun(worlds, steps) && worlds[0] == World(st, now, map[])
    ensures forall i :: 0 <= i < |steps| && steps[i].Begin? ==> steps[i].actor == actor
    ensures worlds[|steps|].store == Perform(st, now, Writes(st, req, id)).0
  {
    var w, begin := World(st, now, map[]), Begin(0, actor, req, id);
    var ws, ss := WritesAreRun(Apply(w, begin), 0);
    worlds, steps := [w] + ws, [begin] + ss;
    forall i | 0 <= i < |steps| ensures Enabled(worlds[i], steps[i]) && worlds[i + 1] == Apply(worlds[i], steps[i]) {
      assert i > 0 ==> worlds[i] == ws[i - 1] && steps[i] == ss[i - 1] && worlds[i + 1] == ws[i];
    }
  }
}
