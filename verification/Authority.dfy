/** Delegated authority: who may grant what, and what handlers for auth groups do to the stored
    groups, memberships, permissions and connection scopes. Handlers check first and write later,
    each write on its own, so their writes interleave. */
module Authority {
  import opened Text

  /** A user's own grants; `protected` users have all permissions. */
  datatype User = User(protected: bool, perms: set<string>, conns: set<nat>)

  datatype Group = Group(key: string, protected: bool, allPermissions: bool, perms: set<string>, conns: set<nat>)

  /** Memberships are kept in two tables, by group key and by group id, each with an optional expiry.
      Deleting a group leaves its memberships by key behind. `catalog` holds the existing permission
      keys, `live` the connections that are not deleted. */
  datatype Store = Store(
    users: map<nat, User>, groups: map<nat, Group>,
    byKey: map<(nat, string), Option<int>>, byId: map<(nat, nat), Option<int>>,
    catalog: set<string>, live: set<nat>)

  // ----- what a user holds -----

  predicate Current(expiry: Option<int>, now: int) {
    expiry.None? || expiry.value > now
  }

  predicate InGroup(st: Store, now: int, u: nat, id: nat) {
    && id in st.groups
    && (|| ((u, id) in st.byId && Current(st.byId[(u, id)], now))
        || ((u, st.groups[id].key) in st.byKey && Current(st.byKey[(u, st.groups[id].key)], now)))
  }

  predicate HasAll(st: Store, now: int, u: nat) {
    || (u in st.users && st.users[u].protected)
    || exists id :: id in st.groups && st.groups[id].allPermissions && InGroup(st, now, u, id)
  }

  predicate HoldsPermission(st: Store, now: int, u: nat, p: string) {
    && p in st.catalog
    && (|| HasAll(st, now, u)
        || (u in st.users && p in st.users[u].perms)
        || exists id :: id in st.groups && p in st.groups[id].perms && InGroup(st, now, u, id))
  }

  predicate HoldsConnection(st: Store, now: int, u: nat, c: nat) {
    && c in st.live
    && (|| HasAll(st, now, u)
        || (u in st.users && c in st.users[u].conns)
        || exists id :: id in st.groups && c in st.groups[id].conns && InGroup(st, now, u, id))
  }

  // ----- the guards -----

  predicate IsAdmin(st: Store, now: int, actor: nat) {
    actor != 0 && HasAll(st, now, actor)
  }

  predicate MayGrantPermission(st: Store, now: int, actor: nat, p: string) {
    actor != 0 && (HasAll(st, now, actor) || HoldsPermission(st, now, actor, p))
  }

  predicate MayGrantConnection(st: Store, now: int, actor: nat, c: nat) {
    actor != 0 && (HasAll(st, now, actor) || HoldsConnection(st, now, actor, c))
  }

  predicate Sensitive(g: Group) {
    g.protected || g.allPermissions || g.key == "admin"
  }

  predicate MayMutate(st: Store, now: int, actor: nat, g: Group) {
    Sensitive(g) ==> IsAdmin(st, now, actor)
  }

  predicate MayGrantContents(st: Store, now: int, actor: nat, g: Group) {
    && MayMutate(st, now, actor, g)
    && (|| HasAll(st, now, actor)
        || (&& (forall p :: p in g.perms && p in st.catalog ==> MayGrantPermission(st, now, actor, p))
            && (forall c :: c in g.conns ==> MayGrantConnection(st, now, actor, c))))
  }

  predicate MayChangeUser(st: Store, now: int, actor: nat, u: nat) {
    u in st.users && st.users[u].protected ==> IsAdmin(st, now, actor)
  }

  /** Blank keys and connection 0 are skipped by the checks. */
  predicate MayGrantAll(st: Store, now: int, actor: nat, perms: seq<string>, conns: seq<nat>) {
    && (forall p :: p in perms && !Blank(p) ==> MayGrantPermission(st, now, actor, Trim(p)))
    && (forall c :: c in conns && c != 0 ==> MayGrantConnection(st, now, actor, c))
  }

  // ----- requests and their writes -----

  datatype Request =
    | Create(key: string, users: seq<nat>, perms: seq<string>, conns: seq<nat>)
    | Patch(group: nat, newUsers: Option<seq<nat>>, newPerms: Option<seq<string>>, newConns: Option<seq<nat>>)
    | Delete(group: nat)
    | AddPermission(group: nat, perm: string)
    | RemovePermission(group: nat, perm: string)
    | AddConnection(group: nat, conn: nat)
    | RemoveConnection(group: nat, conn: nat)

  /** The store writes. `BindNew` leaves a current member alone, `Unbind` removes the current
      members other than `keep`. */
  datatype Op =
    | InsertGroup(id: nat, key: string)
    | Bind(u: nat, key: string)
    | BindNew(u: nat, id: nat, key: string)
    | Unbind(id: nat, key: string, keep: set<nat>)
    | SetPerms(id: nat, perms: seq<string>)
    | SetConns(id: nat, conns: seq<nat>)
    | DropGroup(id: nat)
    | InsertPerm(id: nat, perm: string)
    | DeletePerm(id: nat, perm: string)
    | InsertConn(id: nat, conn: nat)
    | DeleteConn(id: nat, conn: nat)

  function Replaced(o: Option<seq<nat>>): seq<nat> {
    if o.Some? then o.value else []
  }

  /** The current members a handler lists: only existing users. */
  function Members(st: Store, now: int, id: nat): set<nat> {
    set u | u in st.users && InGroup(st, now, u, id)
  }

  function NonZero(users: seq<nat>): set<nat> {
    set u | u in users && u != 0
  }

  predicate Allowed(st: Store, now: int, actor: nat, req: Request) {
    match req
    case Create(_, _, perms, conns) => MayGrantAll(st, now, actor, perms, conns)
    case Patch(id, newUsers, newPerms, newConns) =>
      && id in st.groups && MayMutate(st, now, actor, st.groups[id])
      && (newUsers.Some? ==>
            && MayGrantContents(st, now, actor, st.groups[id])
            && var next, current := NonZero(newUsers.value), Members(st, now, id);
               && (forall u :: u in next - current ==> u in st.users && MayChangeUser(st, now, actor, u))
               && (forall u :: u in current - next ==> MayChangeUser(st, now, actor, u)))
      && MayGrantAll(st, now, actor, if newPerms.Some? then newPerms.value else [], Replaced(newConns))
    case Delete(id) => id in st.groups && !st.groups[id].protected
    case AddPermission(id, p) =>
      id in st.groups && MayMutate(st, now, actor, st.groups[id]) && !Blank(p) && MayGrantPermission(st, now, actor, Trim(p))
    case RemovePermission(id, p) => id in st.groups && MayMutate(st, now, actor, st.groups[id]) && !Blank(p)
    case AddConnection(id, c) =>
      id in st.groups && MayMutate(st, now, actor, st.groups[id]) && c != 0 && MayGrantConnection(st, now, actor, c)
    case RemoveConnection(id, _) => id in st.groups && MayMutate(st, now, actor, st.groups[id])
  }

  function Binds(users: seq<nat>, key: string): (r: seq<Op>)
    ensures |r| == |users|
  {
    seq(|users|, i requires 0 <= i < |users| => Bind(users[i], key))
  }

  /** One write per distinct non-zero user, in order. */
  function NewBinds(users: seq<nat>, id: nat, key: string): (r: seq<Op>) {
    if users == [] then []
    else
      var n := |users| - 1;
      NewBinds(users[..n], id, key)
      + (if users[n] != 0 && users[n] !in users[..n] then [BindNew(users[n], id, key)] else [])
  }

  /** The writes of an allowed request, in the handler's order; `id` is a new group's id. */
  function Writes(st: Store, req: Request, id: nat): seq<Op>
    requires !req.Create? ==> req.group in st.groups
  {
    match req
    case Create(key, users, perms, conns) =>
      [InsertGroup(id, key)] + Binds(users, key) + [SetPerms(id, perms), SetConns(id, conns)]
    case Patch(g, newUsers, newPerms, newConns) =>
      (if newUsers.Some? then
         NewBinds(newUsers.value, g, st.groups[g].key) + [Unbind(g, st.groups[g].key, NonZero(newUsers.value))]
       else [])
      + (if newPerms.Some? then [SetPerms(g, newPerms.value)] else [])
      + (if newConns.Some? then [SetConns(g, newConns.value)] else [])
    case Delete(g) => [DropGroup(g)]
    case AddPermission(g, p) => [InsertPerm(g, Trim(p))]
    case RemovePermission(g, p) => [DeletePerm(g, p)]
    case AddConnection(g, c) => [InsertConn(g, c)]
    case RemoveConnection(g, c) => [DeleteConn(g, c)]
  }

  predicate Distinct<T(==)>(s: seq<T>) {
    forall i, j :: 0 <= i < j < |s| ==> s[i] != s[j]
  }

  /** Whether a write succeeds: the tables have unique keys, replacing is one transaction, and an
      unknown permission key is an error. */
  predicate Succeeds(st: Store, op: Op) {
    match op
    case InsertGroup(id, key) => id !in st.groups && forall g :: g in st.groups ==> st.groups[g].key != key
    case SetPerms(_, perms) => Distinct(perms) && forall p :: p in perms ==> p in st.catalog
    case SetConns(_, conns) => Distinct(conns)
    case InsertPerm(_, p) => p in st.catalog
    case _ => true
  }

  function WithGroup(st: Store, id: nat, g: Group): Store {
    if id in st.groups then st.(groups := st.groups[id := g]) else st
  }

  /** The effect of a write; a failed one has none. */
  function Execute(st: Store, now: int, op: Op): Store {
    if !Succeeds(st, op) then st
    else match op
    case InsertGroup(id, key) => st.(groups := st.groups[id := Group(key, false, false, {}, {})])
    case Bind(u, key) => st.(byKey := st.byKey[(u, key) := None])
    case BindNew(u, id, key) => if InGroup(st, now, u, id) then st else st.(byKey := st.byKey[(u, key) := None])
    case Unbind(id, key, keep) =>
      var out := Members(st, now, id) - keep;
      st.(byKey := map m | m in st.byKey && !(m.1 == key && m.0 in out) :: st.byKey[m],
          byId := map m | m in st.byId && !(m.1 == id && m.0 in out) :: st.byId[m])
    case SetPerms(id, perms) => if id in st.groups then WithGroup(st, id, st.groups[id].(perms := set p | p in perms)) else st
    case SetConns(id, conns) => if id in st.groups then WithGroup(st, id, st.groups[id].(conns := set c | c in conns)) else st
    case DropGroup(id) => st.(groups := st.groups - {id}, byId := map m | m in st.byId && m.1 != id :: st.byId[m])
    case InsertPerm(id, p) => if id in st.groups then WithGroup(st, id, st.groups[id].(perms := st.groups[id].perms + {p})) else st
    case DeletePerm(id, p) => if id in st.groups then WithGroup(st, id, st.groups[id].(perms := st.groups[id].perms - {p})) else st
    case InsertConn(id, c) => if id in st.groups then WithGroup(st, id, st.groups[id].(conns := st.groups[id].conns + {c})) else st
    case DeleteConn(id, c) => if id in st.groups then WithGroup(st, id, st.groups[id].(conns := st.groups[id].conns - {c})) else st
  }

  // ----- interleaved handlers -----

  /** `jobs` holds, per handler call under way, the writes it has still to do. */
  datatype World = World(store: Store, now: int, jobs: map<nat, seq<Op>>)

  /** `Begin` runs a handler's checks; `Write` does its next write, `spare` being members an
      unfinished removal has not reached yet, and a failed write ends the call. The members to add are
      decided by a list read earlier; `stale` says that it is wrong about the user by now. `Stop` is a
      handler that returns early for any other reason. */
  datatype Step =
    | Tick(time: int)
    | Begin(job: nat, actor: nat, req: Request, id: nat)
    | Write(job: nat, spare: set<nat>, again: bool, stale: bool)
    | Stop(job: nat)

  predicate Enabled(w: World, step: Step) {
    match step
    case Tick(time) => w.now <= time
    case Begin(job, actor, req, _) => job !in w.jobs && Allowed(w.store, w.now, actor, req)
    case Write(job, _, again, _) => job in w.jobs && w.jobs[job] != [] && (again ==> w.jobs[job][0].Unbind?)
    case Stop(job) => job in w.jobs
  }

  function Sparing(op: Op, spare: set<nat>): Op {
    if op.Unbind? then op.(keep := op.keep + spare) else op
  }

  /** A user who has become a member since is bound again, one who has ceased to be is passed over. */
  function Misjudged(st: Store, now: int, op: Op): Store {
    if !op.BindNew? then Execute(st, now, op)
    else if InGroup(st, now, op.u, op.id) then Execute(st, now, Bind(op.u, op.key))
    else st
  }

  function Apply(w: World, step: Step): (r: World)
    requires Enabled(w, step)
  {
    match step
    case Tick(time) => w.(now := time)
    case Begin(job, _, req, id) => w.(jobs := w.jobs[job := Writes(w.store, req, id)])
    case Write(job, spare, again, stale) =>
      var op := Sparing(w.jobs[job][0], spare);
      w.(store := if stale then Misjudged(w.store, w.now, op) else Execute(w.store, w.now, op),
         jobs := if !Succeeds(w.store, op) then w.jobs - {job} else if again then w.jobs else w.jobs[job := w.jobs[job][1..]])
    case Stop(job) => w.(jobs := w.jobs - {job})
  }

  // ----- no escalation -----

  /** The store's own rules: one group per key, trimmed permission keys, connection ids from 1. */
  ghost predicate WellFormed(st: Store) {
    && (forall g, h :: g in st.groups && h in st.groups && st.groups[g].key == st.groups[h].key ==> g == h)
    && (forall p :: p in st.catalog ==> p != "" && Trim(p) == p)
    && 0 !in st.live
  }

  /** What the coalition held to begin with. */
  ghost predicate Pooled(w0: World, actors: set<nat>, p: string) {
    exists a :: a in actors && HoldsPermission(w0.store, w0.now, a, p)
  }

  ghost predicate PooledConn(w0: World, actors: set<nat>, c: nat) {
    exists a :: a in actors && HoldsConnection(w0.store, w0.now, a, c)
  }

  /** A group anybody may be in: it gives nothing the coalition did not hold. */
  ghost predicate Open(w0: World, actors: set<nat>, st: Store, id: nat)
    requires id in st.groups
  {
    && !st.groups[id].allPermissions
    && (forall p :: p in st.groups[id].perms && p in st.catalog ==> Pooled(w0, actors, p))
    && (forall c :: c in st.groups[id].conns && c in st.live ==> PooledConn(w0, actors, c))
  }

  /** A group gives at most what it gave to begin with and what the coalition held. */
  ghost predicate GroupBounded(w0: World, actors: set<nat>, st: Store, id: nat)
    requires id in st.groups
  {
    || Open(w0, actors, st, id)
    || (&& id in w0.store.groups && w0.store.groups[id].key == st.groups[id].key
        && (st.groups[id].allPermissions ==> w0.store.groups[id].allPermissions)
        && (forall p :: p in st.groups[id].perms && p in st.catalog ==> p in w0.store.groups[id].perms || Pooled(w0, actors, p))
        && (forall c :: c in st.groups[id].conns && c in st.live ==> c in w0.store.groups[id].conns || PooledConn(w0, actors, c)))
  }

  /** A member was one to begin with, or the group is open. */
  ghost predicate MemberBounded(w0: World, actors: set<nat>, w: World, u: nat, id: nat) {
    InGroup(w.store, w.now, u, id) ==>
      || (InGroup(w0.store, w0.now, u, id) && w0.store.groups[id].key == w.store.groups[id].key)
      || Open(w0, actors, w.store, id)
  }

  /** A pending write binds members only to open groups and adds only what the coalition held. */
  ghost predicate OpBounded(w0: World, actors: set<nat>, st: Store, op: Op) {
    match op
    case Bind(_, key) => forall id :: id in st.groups && st.groups[id].key == key ==> Open(w0, actors, st, id)
    case BindNew(_, _, key) => forall id :: id in st.groups && st.groups[id].key == key ==> Open(w0, actors, st, id)
    case SetPerms(_, perms) => forall p :: p in perms && p in st.catalog ==> Pooled(w0, actors, p)
    case SetConns(_, conns) => forall c :: c in conns && c in st.live ==> PooledConn(w0, actors, c)
    case InsertPerm(_, p) => p in st.catalog ==> Pooled(w0, actors, p)
    case InsertConn(_, c) => c in st.live ==> PooledConn(w0, actors, c)
    case _ => true
  }

  /** A handler that has still to insert its group binds members to that group only, which by then
      is a new one. */
  ghost predicate PendingBounded(w0: World, actors: set<nat>, st: Store, ops: seq<Op>, i: nat)
    requires i < |ops|
  {
    (i > 0 && ops[0].InsertGroup? && ops[i].Bind? && ops[i].key == ops[0].key) || OpBounded(w0, actors, st, ops[i])
  }

  ghost predicate Inv(w0: World, actors: set<nat>, w: World) {
    && WellFormed(w.store) && w0.now <= w.now
    && w.store.users == w0.store.users && w.store.catalog == w0.store.catalog && w.store.live == w0.store.live
    && (forall id :: id in w.store.groups ==> GroupBounded(w0, actors, w.store, id))
    && (forall u, id :: id in w.store.groups ==> MemberBounded(w0, actors, w, u, id))
    && (forall j, i :: j in w.jobs && 0 <= i < |w.jobs[j]| ==> PendingBounded(w0, actors, w.store, w.jobs[j], i))
  }

  /** What the invariant gives: whatever a user holds, that user or the coalition held before. */
  lemma InvBoundsUser(w0: World, actors: set<nat>, w: World, u: nat)
    requires Inv(w0, actors, w)
    ensures HasAll(w.store, w.now, u) ==> HasAll(w0.store, w0.now, u)
    ensures forall p :: HoldsPermission(w.store, w.now, u, p) ==> HoldsPermission(w0.store, w0.now, u, p) || Pooled(w0, actors, p)
    ensures forall c :: HoldsConnection(w.store, w.now, u, c) ==> HoldsConnection(w0.store, w0.now, u, c) || PooledConn(w0, actors, c)
  {
    forall id | id in w.store.groups && InGroup(w.store, w.now, u, id)
      ensures GroupBounded(w0, actors, w.store, id) && MemberBounded(w0, actors, w, u, id)
    {
    }
  }

  /** A change that adds no group and no member, and to groups only what the coalition held. */
  ghost predicate Tame(w0: World, actors: set<nat>, w: World, r: World) {
    && r.store.users == w.store.users && r.store.catalog == w.store.catalog && r.store.live == w.store.live
    && (forall id :: id in r.store.groups ==> id in w.store.groups && TameGroup(w0, actors, w.store, r.store, id))
    && (forall u, id :: InGroup(r.store, r.now, u, id) ==> InGroup(w.store, w.now, u, id))
  }

  ghost predicate TameGroup(w0: World, actors: set<nat>, st: Store, st': Store, id: nat)
    requires id in st.groups && id in st'.groups
  {
    var g, g' := st.groups[id], st'.groups[id];
    && g'.key == g.key && g'.allPermissions == g.allPermissions
    && (forall p :: p in g'.perms && p in st.catalog ==> p in g.perms || Pooled(w0, actors, p))
    && (forall c :: c in g'.conns && c in st.live ==> c in g.conns || PooledConn(w0, actors, c))
  }

  lemma TameKeepsOpen(w0: World, actors: set<nat>, w: World, r: World, id: nat)
    requires Tame(w0, actors, w, r) && id in r.store.groups
    ensures id in w.store.groups && (Open(w0, actors, w.store, id) ==> Open(w0, actors, r.store, id))
    ensures GroupBounded(w0, actors, w.store, id) ==> GroupBounded(w0, actors, r.store, id)
  {
    assert TameGroup(w0, actors, w.store, r.store, id);
  }

  lemma TameKeepsOp(w0: World, actors: set<nat>, w: World, r: World, op: Op)
    requires Tame(w0, actors, w, r) && OpBounded(w0, actors, w.store, op)
    ensures OpBounded(w0, actors, r.store, op)
  {
    if op.Bind? || op.BindNew? {
      forall id | id in r.store.groups && r.store.groups[id].key == op.key ensures Open(w0, actors, r.store, id) {
        assert TameGroup(w0, actors, w.store, r.store, id);
        TameKeepsOpen(w0, actors, w, r, id);
      }
    }
  }

  /** Every call under way is where it was or has done a write that inserts no group. */
  ghost predicate JobsFrom(w: World, r: World) {
    forall j :: j in r.jobs ==>
      && j in w.jobs
      && (r.jobs[j] == w.jobs[j] || (w.jobs[j] != [] && !w.jobs[j][0].InsertGroup? && r.jobs[j] == w.jobs[j][1..]))
  }

  lemma JobsFromBounded(w0: World, actors: set<nat>, w: World, r: World, j: nat, i: nat)
    requires JobsFrom(w, r) && j in r.jobs && i < |r.jobs[j]|
    requires forall k :: 0 <= k < |w.jobs[j]| ==> PendingBounded(w0, actors, w.store, w.jobs[j], k)
    requires forall op :: OpBounded(w0, actors, w.store, op) ==> OpBounded(w0, actors, r.store, op)
    ensures PendingBounded(w0, actors, r.store, r.jobs[j], i)
  {
    if r.jobs[j] == w.jobs[j] {
      assert PendingBounded(w0, actors, w.store, w.jobs[j], i);
    } else {
      assert PendingBounded(w0, actors, w.store, w.jobs[j], i + 1);
    }
  }

  lemma TameKeepsInv(w0: World, actors: set<nat>, w: World, r: World)
    requires Inv(w0, actors, w) && Tame(w0, actors, w, r) && w.now <= r.now && JobsFrom(w, r)
    ensures Inv(w0, actors, r)
  {
    assert WellFormed(r.store) by {
      forall id | id in r.store.groups ensures r.store.groups[id].key == w.store.groups[id].key {
        assert TameGroup(w0, actors, w.store, r.store, id);
      }
    }
    forall id | id in r.store.groups ensures GroupBounded(w0, actors, r.store, id) {
      TameKeepsOpen(w0, actors, w, r, id);
    }
    forall u, id | id in r.store.groups ensures MemberBounded(w0, actors, r, u, id) {
      TameKeepsOpen(w0, actors, w, r, id);
      assert MemberBounded(w0, actors, w, u, id);
      assert TameGroup(w0, actors, w.store, r.store, id);
    }
    forall op | OpBounded(w0, actors, w.store, op) ensures OpBounded(w0, actors, r.store, op) {
      TameKeepsOp(w0, actors, w, r, op);
    }
    forall j, i | j in r.jobs && 0 <= i < |r.jobs[j]| ensures PendingBounded(w0, actors, r.store, r.jobs[j], i) {
      JobsFromBounded(w0, actors, w, r, j, i);
    }
  }

  predicate AddsNobody(op: Op) {
    !op.InsertGroup? && !op.Bind? && !op.BindNew?
  }

  lemma TameWrite(w0: World, actors: set<nat>, w: World, op: Op, r: World)
    requires OpBounded(w0, actors, w.store, op) && AddsNobody(op)
    requires r.now == w.now && r.store == Execute(w.store, w.now, op)
    ensures Tame(w0, actors, w, r)
  {
    forall id | id in r.store.groups ensures id in w.store.groups && TameGroup(w0, actors, w.store, r.store, id) {
    }
  }

  lemma InsertGroupKeepsGroups(w0: World, actors: set<nat>, w: World, id: nat, key: string, r: World)
    requires Inv(w0, actors, w) && Succeeds(w.store, InsertGroup(id, key))
    requires r.now == w.now && r.store == Execute(w.store, w.now, InsertGroup(id, key))
    ensures Open(w0, actors, r.store, id)
    ensures forall x :: x in r.store.groups ==> GroupBounded(w0, actors, r.store, x)
    ensures forall u, x :: x in r.store.groups ==> MemberBounded(w0, actors, r, u, x)
    ensures forall op :: OpBounded(w0, actors, w.store, op) ==> OpBounded(w0, actors, r.store, op)
  {
    forall x | x in w.store.groups
      ensures r.store.groups[x] == w.store.groups[x] && GroupBounded(w0, actors, r.store, x)
      ensures Open(w0, actors, w.store, x) == Open(w0, actors, r.store, x)
    {
      assert GroupBounded(w0, actors, w.store, x);
    }
    forall u, x | x in r.store.groups ensures MemberBounded(w0, actors, r, u, x) {
      if x != id {
        assert MemberBounded(w0, actors, w, u, x);
        assert InGroup(r.store, r.now, u, x) == InGroup(w.store, w.now, u, x);
      }
    }
  }

  lemma InsertGroupKeepsInv(w0: World, actors: set<nat>, w: World, job: nat, r: World)
    requires Inv(w0, actors, w) && job in w.jobs && w.jobs[job] != [] && w.jobs[job][0].InsertGroup?
    requires Succeeds(w.store, w.jobs[job][0])
    requires r.now == w.now && r.store == Execute(w.store, w.now, w.jobs[job][0]) && r.jobs == w.jobs[job := w.jobs[job][1..]]
    ensures Inv(w0, actors, r)
  {
    var InsertGroup(id, key) := w.jobs[job][0];
    InsertGroupKeepsGroups(w0, actors, w, id, key, r);
    forall j, i | j in r.jobs && 0 <= i < |r.jobs[j]| ensures PendingBounded(w0, actors, r.store, r.jobs[j], i) {
      if j == job {
        assert PendingBounded(w0, actors, w.store, w.jobs[j], i + 1);
      } else {
        assert PendingBounded(w0, actors, w.store, w.jobs[j], i);
      }
    }
  }

  lemma BindKeepsInv(w0: World, actors: set<nat>, w: World, v: nat, key: string, r: World)
    requires Inv(w0, actors, w) && OpBounded(w0, actors, w.store, Bind(v, key))
    requires r.now == w.now && r.store == w.store.(byKey := w.store.byKey[(v, key) := None]) && JobsFrom(w, r)
    ensures Inv(w0, actors, r)
  {
    forall x | x in w.store.groups
      ensures GroupBounded(w0, actors, r.store, x) && Open(w0, actors, w.store, x) == Open(w0, actors, r.store, x)
    {
      assert GroupBounded(w0, actors, w.store, x);
    }
    forall u, x | x in r.store.groups ensures MemberBounded(w0, actors, r, u, x) {
      if u != v || w.store.groups[x].key != key {
        assert MemberBounded(w0, actors, w, u, x);
        assert InGroup(r.store, r.now, u, x) == InGroup(w.store, w.now, u, x);
      }
    }
    forall j, i | j in r.jobs && 0 <= i < |r.jobs[j]| ensures PendingBounded(w0, actors, r.store, r.jobs[j], i) {
      JobsFromBounded(w0, actors, w, r, j, i);
    }
  }

  lemma WriteKeepsInv(w0: World, actors: set<nat>, w: World, step: Step)
    requires Inv(w0, actors, w) && Enabled(w, step) && step.Write?
    ensures Inv(w0, actors, Apply(w, step))
  {
    var r, head := Apply(w, step), w.jobs[step.job][0];
    var op := Sparing(head, step.spare);
    assert PendingBounded(w0, actors, w.store, w.jobs[step.job], 0);
    if !Succeeds(w.store, op) {
      TameKeepsInv(w0, actors, w, r);
    } else if AddsNobody(op) {
      TameWrite(w0, actors, w, op, r);
      TameKeepsInv(w0, actors, w, r);
    } else if op.InsertGroup? {
      InsertGroupKeepsInv(w0, actors, w, step.job, r);
    } else if op.BindNew? && InGroup(w.store, w.now, op.u, op.id) != step.stale {
      TameKeepsInv(w0, actors, w, r);
    } else {
      BindKeepsInv(w0, actors, w, op.u, op.key, r);
    }
  }

  // ----- the checks establish the bounds -----

  lemma GrantIsPooled(w0: World, actors: set<nat>, w: World, a: nat)
    requires Inv(w0, actors, w) && a in actors && !HasAll(w0.store, w0.now, a)
    ensures !HasAll(w.store, w.now, a)
    ensures forall p :: MayGrantPermission(w.store, w.now, a, p) ==> Pooled(w0, actors, p)
    ensures forall c :: MayGrantConnection(w.store, w.now, a, c) ==> PooledConn(w0, actors, c)
  {
    InvBoundsUser(w0, actors, w, a);
  }

  lemma GrantAllIsPooled(w0: World, actors: set<nat>, w: World, a: nat, perms: seq<string>, conns: seq<nat>)
    requires Inv(w0, actors, w) && a in actors && !HasAll(w0.store, w0.now, a)
    requires MayGrantAll(w.store, w.now, a, perms, conns)
    ensures forall p :: p in perms && p in w.store.catalog ==> Pooled(w0, actors, p)
    ensures forall c :: c in conns && c in w.store.live ==> PooledConn(w0, actors, c)
  {
    GrantIsPooled(w0, actors, w, a);
    forall p | p in perms && p in w.store.catalog ensures Pooled(w0, actors, p) {
      assert Trim(p) == p && !Blank(p);
      assert MayGrantPermission(w.store, w.now, a, Trim(p));
    }
  }

  lemma ContentsGrantIsOpen(w0: World, actors: set<nat>, w: World, a: nat, id: nat)
    requires Inv(w0, actors, w) && a in actors && !HasAll(w0.store, w0.now, a)
    requires id in w.store.groups && MayGrantContents(w.store, w.now, a, w.store.groups[id])
    ensures Open(w0, actors, w.store, id)
  {
    GrantIsPooled(w0, actors, w, a);
  }

  lemma {:induction false} NewBindsAre(users: seq<nat>, id: nat, key: string)
    ensures forall i :: 0 <= i < |NewBinds(users, id, key)| ==>
      NewBinds(users, id, key)[i].BindNew? && NewBinds(users, id, key)[i].key == key
  {
    if users != [] {
      NewBindsAre(users[..|users| - 1], id, key);
    }
  }

  /** The writes of an allowed request are bounded, given what the actor held when checked. */
  lemma AllowedIsBounded(w0: World, actors: set<nat>, w: World, a: nat, req: Request, id: nat, i: nat)
    requires Inv(w0, actors, w) && a in actors && !HasAll(w0.store, w0.now, a)
    requires Allowed(w.store, w.now, a, req) && i < |Writes(w.store, req, id)|
    ensures PendingBounded(w0, actors, w.store, Writes(w.store, req, id), i)
  {
    match req {
      case Create(_, _, perms, conns) => GrantAllIsPooled(w0, actors, w, a, perms, conns);
      case Patch(_, _, _, _) => PatchIsBounded(w0, actors, w, a, req, i);
      case _ => GrantIsPooled(w0, actors, w, a);
    }
  }

  lemma PatchIsBounded(w0: World, actors: set<nat>, w: World, a: nat, req: Request, i: nat)
    requires Inv(w0, actors, w) && a in actors && !HasAll(w0.store, w0.now, a)
    requires req.Patch? && Allowed(w.store, w.now, a, req) && i < |Writes(w.store, req, 0)|
    ensures OpBounded(w0, actors, w.store, Writes(w.store, req, 0)[i])
  {
    var Patch(g, newUsers, newPerms, newConns) := req;
    var key := w.store.groups[g].key;
    GrantAllIsPooled(w0, actors, w, a, if newPerms.Some? then newPerms.value else [], Replaced(newConns));
    if newUsers.Some? {
      ContentsGrantIsOpen(w0, actors, w, a, g);
      NewBindsAre(newUsers.value, g, key);
      var binds := NewBinds(newUsers.value, g, key);
      if i < |binds| {
        assert Writes(w.store, req, 0)[i] == binds[i];
      }
    }
  }

  lemma StepKeepsInv(w0: World, actors: set<nat>, w: World, step: Step)
    requires Inv(w0, actors, w) && Enabled(w, step)
    requires forall a :: a in actors ==> !HasAll(w0.store, w0.now, a)
    requires step.Begin? ==> step.actor in actors
    ensures Inv(w0, actors, Apply(w, step))
  {
    var r := Apply(w, step);
    match step {
      case Tick(_) => TameKeepsInv(w0, actors, w, r);
      case Stop(_) => TameKeepsInv(w0, actors, w, r);
      case Write(_, _, _, _) => WriteKeepsInv(w0, actors, w, step);
      case Begin(job, a, req, id) =>
        forall j, i | j in r.jobs && 0 <= i < |r.jobs[j]| ensures PendingBounded(w0, actors, r.store, r.jobs[j], i) {
          if j == job {
            AllowedIsBounded(w0, actors, w, a, req, id, i);
          } else {
            assert PendingBounded(w0, actors, w.store, w.jobs[j], i);
          }
        }
        forall u, x | x in r.store.groups ensures MemberBounded(w0, actors, r, u, x) {
          assert MemberBounded(w0, actors, w, u, x);
        }
    }
  }

  // ----- every run -----

  ghost predicate IsRun(worlds: seq<World>, steps: seq<Step>) {
    && |worlds| == |steps| + 1 && WellFormed(worlds[0].store) && worlds[0].jobs == map[]
    && forall i :: 0 <= i < |steps| ==> Enabled(worlds[i], steps[i]) && worlds[i + 1] == Apply(worlds[i], steps[i])
  }

  /** The actors of a run, none of whom has all permissions at its start. */
  ghost predicate Coalition(worlds: seq<World>, steps: seq<Step>, actors: set<nat>)
    requires |worlds| > 0
  {
    && (forall a :: a in actors ==> !HasAll(worlds[0].store, worlds[0].now, a))
    && (forall i :: 0 <= i < |steps| && steps[i].Begin? ==> steps[i].actor in actors)
  }

  lemma {:induction false} RunKeepsInv(worlds: seq<World>, steps: seq<Step>, actors: set<nat>, n: nat)
    requires IsRun(worlds, steps) && Coalition(worlds, steps, actors) && n < |worlds|
    ensures Inv(worlds[0], actors, worlds[n])
  {
    if n == 0 {
      forall id | id in worlds[0].store.groups ensures GroupBounded(worlds[0], actors, worlds[0].store, id) {
      }
    } else {
      RunKeepsInv(worlds, steps, actors, n - 1);
      StepKeepsInv(worlds[0], actors, worlds[n - 1], steps[n - 1]);
    }
  }

  /** However a coalition of actors without all-permissions interleaves creating, patching and
      deleting groups, adding and removing permissions and connections: nobody gains all
      permissions, and nobody, member of the coalition or not, ever holds a permission or reaches a
      connection that neither they themselves nor any member of the coalition held at the start. */
  lemma CoalitionCannotEscalate(worlds: seq<World>, steps: seq<Step>, actors: set<nat>, n: nat, u: nat)
    requires IsRun(worlds, steps) && Coalition(worlds, steps, actors) && n < |worlds|
    ensures HasAll(worlds[n].store, worlds[n].now, u) ==> HasAll(worlds[0].store, worlds[0].now, u)
    ensures forall p :: HoldsPermission(worlds[n].store, worlds[n].now, u, p) ==>
      HoldsPermission(worlds[0].store, worlds[0].now, u, p) || Pooled(worlds[0], actors, p)
    ensures forall c :: HoldsConnection(worlds[n].store, worlds[n].now, u, c) ==>
      HoldsConnection(worlds[0].store, worlds[0].now, u, c) || PooledConn(worlds[0], actors, c)
  {
    RunKeepsInv(worlds, steps, actors, n);
    InvBoundsUser(worlds[0], actors, worlds[n], u);
  }

  /** So the permissions held by anyone and the connections in anyone's scope never grow. */
  lemma NothingNewIsHeld(worlds: seq<World>, steps: seq<Step>, actors: set<nat>, n: nat)
    requires IsRun(worlds, steps) && Coalition(worlds, steps, actors) && n < |worlds|
    ensures forall u, p :: HoldsPermission(worlds[n].store, worlds[n].now, u, p) ==>
      exists v :: HoldsPermission(worlds[0].store, worlds[0].now, v, p)
    ensures forall u, c :: HoldsConnection(worlds[n].store, worlds[n].now, u, c) ==>
      exists v :: HoldsConnection(worlds[0].store, worlds[0].now, v, c)
  {
    forall u, p | HoldsPermission(worlds[n].store, worlds[n].now, u, p)
      ensures exists v :: HoldsPermission(worlds[0].store, worlds[0].now, v, p)
    {
      CoalitionCannotEscalate(worlds, steps, actors, n, u);
    }
    forall u, c | HoldsConnection(worlds[n].store, worlds[n].now, u, c)
      ensures exists v :: HoldsConnection(worlds[0].store, worlds[0].now, v, c)
    {
      CoalitionCannotEscalate(worlds, steps, actors, n, u);
    }
  }
}
