/** When a query resolves, and what a set operation resolves to, in terms of the operands at its leaves. */
module LineageOutcomes {
  import opened Text
  import opened Lineage
  import opened LineageSetOps
  import LineageTrace

  // ----- when a query resolves -----

  /** A table is in scope or loads. */
  predicate Available(cat: Catalog, schema: string, name: string, env: Env) {
    || (schema == "" && Fold(name) in env)
    || cat.load(if schema == "" then cat.defaultDatabase else schema, name).Some?
  }

  predicate StarIs(schema: string, table: string, s: Source) {
    && (SameFold(Trim(table), Trim(s.alias)) || SameFold(Trim(table), Trim(s.table)))
    && (schema == "" || SameFold(Trim(schema), Trim(s.database)))
    && s.columns != []
  }

  predicate SomeStarIs(schema: string, table: string, sources: seq<Source>) {
    exists i :: 0 <= i < |sources| && StarIs(schema, table, sources[i])
  }

  /** A wildcard with a qualifier finds a source that has columns. */
  predicate StarMatches(f: Field, sources: seq<Source>) {
    f.Wildcard? && f.table != "" ==> SomeStarIs(f.schema, f.table, sources)
  }

  predicate StarsMatch(fields: seq<Field>, sources: seq<Source>) {
    forall i :: 0 <= i < |fields| ==> StarMatches(fields[i], sources)
  }

  /** The query names only tables in scope or loading ones, each of its qualified wildcards finds a
      source with columns, and no node or operand of an unsupported kind occurs in it. */
  predicate Resolvable(cat: Catalog, q: Query, env: Env)
    decreases q
  {
    && CtesResolvable(cat, q.ctes, env)
    && (ResolveCtes(cat, q.ctes, env).Ok? ==>
          var scope := ResolveCtes(cat, q.ctes, env).value;
          if q.Select? then
            && NodeResolvable(cat, q.from, scope)
            && (ResolveNode(cat, q.from, scope).Ok? ==> StarsMatch(q.fields, ResolveNode(cat, q.from, scope).value))
          else OperandsResolvable(cat, q.operands, scope))
  }

  predicate CtesResolvable(cat: Catalog, ctes: seq<Cte>, env: Env)
    decreases ctes
  {
    ctes != [] ==>
      && Resolvable(cat, ctes[0].body, env)
      && (Resolve(cat, ctes[0].body, env).Ok? ==>
            CtesResolvable(cat, ctes[1..], env[Fold(ctes[0].name) := ApplyAliases(Resolve(cat, ctes[0].body, env).value, ctes[0].columns)]))
  }

  predicate OperandResolvable(cat: Catalog, op: Operand, env: Env)
    decreases op
  {
    match op
    case Leaf(query) => query.Select? && Resolvable(cat, query, env)
    case Nested(items) => OperandsResolvable(cat, items, env)
    case OtherOperand => false
  }

  predicate OperandsResolvable(cat: Catalog, ops: seq<Operand>, env: Env)
    decreases ops
  {
    ops != [] ==> OperandResolvable(cat, ops[0], env) && OperandsResolvable(cat, ops[1..], env)
  }

  predicate NodeResolvable(cat: Catalog, node: Node, env: Env)
    decreases node
  {
    match node
    case Absent => true
    case OtherNode => false
    case Named(schema, name, _, _) => Available(cat, schema, name, env)
    case Derived(query, _, _) => Resolvable(cat, query, env)
    case Join(left, right) => NodeResolvable(cat, left, env) && NodeResolvable(cat, right, env)
    case Grouped(left, right, _, _) => NodeResolvable(cat, left, env) && NodeResolvable(cat, right, env)
  }

  lemma {:induction false} CoveredIff(schema: string, table: string, sources: seq<Source>)
    ensures Covered(schema, table, sources) != [] <==> SomeStarIs(schema, table, sources)
  {
    if sources != [] {
      CoveredIff(schema, table, sources[1..]);
      if i :| 0 <= i < |sources[1..]| && StarIs(schema, table, sources[1..][i]) {
        assert StarIs(schema, table, sources[i + 1]);
      }
      if i :| 0 <= i < |sources| && StarIs(schema, table, sources[i]) {
        assert i > 0 ==> StarIs(schema, table, sources[1..][i - 1]);
      }
    }
  }

  lemma {:induction false} FieldsResolveIff(fields: seq<Field>, sources: seq<Source>)
    ensures ResolveFields(fields, sources).Ok? <==> StarsMatch(fields, sources)
  {
    if fields != [] {
      FieldsResolveIff(fields[1..], sources);
      FieldResolvesIff(fields[0], sources);
      assert forall i :: 0 < i < |fields| ==> fields[i] == fields[1..][i - 1];
      if StarMatches(fields[0], sources) && StarsMatch(fields[1..], sources) {
        forall i | 0 <= i < |fields| ensures StarMatches(fields[i], sources) {
          assert i > 0 ==> StarMatches(fields[1..][i - 1], sources);
        }
      }
      if StarsMatch(fields, sources) {
        forall i | 0 <= i < |fields[1..]| ensures StarMatches(fields[1..][i], sources) {
          assert StarMatches(fields[i + 1], sources);
        }
      }
    }
  }

  lemma FieldResolvesIff(f: Field, sources: seq<Source>)
    ensures ResolveField(f, sources).Ok? <==> StarMatches(f, sources)
  {
    if f.Wildcard? {
      CoveredIff(f.schema, f.table, sources);
    }
  }

  /** A query resolves exactly if it is resolvable. */
  lemma {:induction false} ResolvesIff(cat: Catalog, q: Query, env: Env)
    ensures Resolve(cat, q, env).Ok? <==> Resolvable(cat, q, env)
    decreases q
  {
    CtesResolveIff(cat, q.ctes, env);
    if ResolveCtes(cat, q.ctes, env).Ok? {
      var scope := ResolveCtes(cat, q.ctes, env).value;
      if q.Select? {
        NodeResolvesIff(cat, q.from, scope);
        if ResolveNode(cat, q.from, scope).Ok? {
          FieldsResolveIff(q.fields, ResolveNode(cat, q.from, scope).value);
        }
      } else {
        OperandsResolveIff(cat, q.operands, scope);
      }
    }
  }

  lemma {:induction false} CtesResolveIff(cat: Catalog, ctes: seq<Cte>, env: Env)
    ensures ResolveCtes(cat, ctes, env).Ok? <==> CtesResolvable(cat, ctes, env)
    decreases ctes
  {
    if ctes != [] {
      ResolvesIff(cat, ctes[0].body, env);
      if Resolve(cat, ctes[0].body, env).Ok? {
        CtesResolveIff(cat, ctes[1..], env[Fold(ctes[0].name) := ApplyAliases(Resolve(cat, ctes[0].body, env).value, ctes[0].columns)]);
      }
    }
  }

  lemma {:induction false} OperandResolvesIff(cat: Catalog, op: Operand, env: Env)
    ensures ResolveOperand(cat, op, env).Ok? <==> OperandResolvable(cat, op, env)
    decreases op
  {
    match op {
      case Leaf(query) => ResolvesIff(cat, query, env);
      case Nested(items) => OperandsResolveIff(cat, items, env);
      case OtherOperand =>
    }
  }

  lemma {:induction false} OperandsResolveIff(cat: Catalog, ops: seq<Operand>, env: Env)
    ensures ResolveOperands(cat, ops, env).Ok? <==> OperandsResolvable(cat, ops, env)
    decreases ops
  {
    if ops != [] {
      OperandResolvesIff(cat, ops[0], env);
      OperandsResolveIff(cat, ops[1..], env);
    }
  }

  lemma {:induction false} NodeResolvesIff(cat: Catalog, node: Node, env: Env)
    ensures ResolveNode(cat, node, env).Ok? <==> NodeResolvable(cat, node, env)
    decreases node
  {
    match node {
      case Absent =>
      case OtherNode =>
      case Named(_, _, _, _) =>
      case Derived(query, _, _) => ResolvesIff(cat, query, env);
      case Join(left, right) =>
        NodeResolvesIff(cat, left, env);
        NodeResolvesIff(cat, right, env);
      case Grouped(left, right, _, _) =>
        NodeResolvesIff(cat, left, env);
        NodeResolvesIff(cat, right, env);
    }
  }

  // ----- what a set operation resolves to -----

  predicate Deep(leaves: seq<seq<Column>>, i: nat) {
    leaves != [] && forall k :: 0 <= k < |leaves| ==> i < |leaves[k]|
  }

  /** A column over the leaves: the first leaf's name and dependencies, and its origin where all leaves
      have the same up to case and surrounding space; otherwise no origin. */
  predicate IsMergedColumn(c: Column, leaves: seq<seq<Column>>, i: nat)
    requires Deep(leaves, i)
  {
    && c.name == leaves[0][i].name && c.deps == leaves[0][i].deps
    && (AgreeAt(leaves, i) ==> c.origin == leaves[0][i].origin)
    && (!AgreeAt(leaves, i) ==> SameOrigin(c.origin, NO_ORIGIN))
  }

  /** As many columns as the shortest leaf has. */
  predicate IsMerge(cs: seq<Column>, leaves: seq<seq<Column>>) {
    && leaves != []
    && (forall k :: 0 <= k < |leaves| ==> |cs| <= |leaves[k]|)
    && (exists k :: 0 <= k < |leaves| && |cs| == |leaves[k]|)
    && (forall i :: 0 <= i < |cs| ==> Deep(leaves, i) && IsMergedColumn(cs[i], leaves, i))
  }

  lemma OneLeaf(cs: seq<Column>)
    ensures IsMerge(cs, [cs])
  {
    assert |cs| == |[cs][0]|;
    forall i | 0 <= i < |cs| ensures IsMergedColumn(cs[i], [cs], i) {
      assert [cs][0][i] == cs[i];
    }
  }

  lemma AgreeAppend(xs: seq<seq<Column>>, ys: seq<seq<Column>>, i: nat)
    requires Deep(xs, i) && Deep(ys, i)
    ensures Deep(xs + ys, i)
    ensures AgreeAt(xs + ys, i) <==> AgreeAt(xs, i) && AgreeAt(ys, i) && SameOrigin(xs[0][i].origin, ys[0][i].origin)
  {
    var all := xs + ys;
    assert all[0] == xs[0] && all[|xs|] == ys[0];
    if AgreeAt(all, i) {
      forall k | 0 <= k < |xs| ensures SameOrigin(xs[0][i].origin, xs[k][i].origin) {
        assert all[k] == xs[k];
      }
      forall k | 0 <= k < |ys| ensures SameOrigin(ys[0][i].origin, ys[k][i].origin) {
        assert all[|xs| + k] == ys[k];
      }
    }
    if AgreeAt(xs, i) && AgreeAt(ys, i) && SameOrigin(xs[0][i].origin, ys[0][i].origin) {
      forall k | 0 <= k < |all| ensures SameOrigin(all[0][i].origin, all[k][i].origin) {
        assert if k < |xs| then all[k] == xs[k] else all[k] == ys[k - |xs|];
      }
    }
  }

  lemma MergedColumns(a: Column, xs: seq<seq<Column>>, b: Column, ys: seq<seq<Column>>, i: nat)
    requires Deep(xs, i) && Deep(ys, i) && IsMergedColumn(a, xs, i) && IsMergedColumn(b, ys, i)
    ensures Deep(xs + ys, i) && IsMergedColumn(MergeColumn(a, b), xs + ys, i)
  {
    AgreeAppend(xs, ys, i);
    assert (xs + ys)[0] == xs[0];
  }

  lemma MergeOfMerges(a: seq<Column>, xs: seq<seq<Column>>, b: seq<Column>, ys: seq<seq<Column>>)
    requires IsMerge(a, xs) && IsMerge(b, ys)
    ensures IsMerge(Merge(a, b), xs + ys)
  {
    var cs, all := Merge(a, b), xs + ys;
    forall k | 0 <= k < |all| ensures |cs| <= |all[k]| {
      assert if k < |xs| then all[k] == xs[k] else all[k] == ys[k - |xs|];
    }
    var j :| 0 <= j < |xs| && |a| == |xs[j]|;
    var k :| 0 <= k < |ys| && |b| == |ys[k]|;
    assert all[j] == xs[j] && all[|xs| + k] == ys[k];
    assert |cs| == |all[j]| || |cs| == |all[|xs| + k]|;
    forall i | 0 <= i < |cs| ensures Deep(all, i) && IsMergedColumn(cs[i], all, i) {
      MergedColumns(a[i], xs, b[i], ys, i);
    }
  }

  /** A select at a leaf resolves to the columns. */
  predicate LeafIs(cat: Catalog, op: Operand, env: Env, columns: seq<Column>) {
    op.Leaf? && op.query.Select? && Resolve(cat, op.query, env) == Ok(columns)
  }

  predicate LeavesAre(cat: Catalog, ops: seq<Operand>, env: Env, leaves: seq<seq<Column>>) {
    |leaves| == |ops| && forall k :: 0 <= k < |ops| ==> LeafIs(cat, ops[k], env, leaves[k])
  }

  lemma LeavesSplit(cat: Catalog, xs: seq<Operand>, ys: seq<Operand>, env: Env, leaves: seq<seq<Column>>)
    requires LeavesAre(cat, xs + ys, env, leaves)
    ensures LeavesAre(cat, xs, env, leaves[..|xs|]) && LeavesAre(cat, ys, env, leaves[|xs|..])
  {
    var all := xs + ys;
    forall k | 0 <= k < |xs| ensures LeafIs(cat, xs[k], env, leaves[..|xs|][k]) {
      assert all[k] == xs[k];
    }
    forall k | 0 <= k < |ys| ensures LeafIs(cat, ys[k], env, leaves[|xs|..][k]) {
      assert all[|xs| + k] == ys[k];
    }
  }

  lemma {:induction false} FrontiersAppend(xs: seq<Operand>, ys: seq<Operand>)
    ensures Frontiers(xs + ys) == Frontiers(xs) + Frontiers(ys)
    ensures AllInhabited(xs + ys) <==> AllInhabited(xs) && AllInhabited(ys)
  {
    if xs == [] {
      assert xs + ys == ys;
    } else {
      assert (xs + ys)[1..] == xs[1..] + ys;
      FrontiersAppend(xs[1..], ys);
    }
  }

  lemma {:induction false} OperandIsMerge(cat: Catalog, op: Operand, env: Env, leaves: seq<seq<Column>>) returns (v: seq<Column>)
    requires Inhabited(op) && LeavesAre(cat, Frontier(op), env, leaves)
    ensures ResolveOperand(cat, op, env) == Ok(v) && IsMerge(v, leaves)
    decreases op, 1
  {
    if op.Nested? {
      v := OperandsAreMerge(cat, op.items, env, leaves);
    } else {
      v := leaves[0];
      assert LeafIs(cat, [op][0], env, v);
      assert leaves == [v];
      OneLeaf(v);
    }
  }

  lemma {:induction false} OperandsAreMerge(cat: Catalog, ops: seq<Operand>, env: Env, leaves: seq<seq<Column>>) returns (v: seq<Column>)
    requires ops != [] && AllInhabited(ops) && LeavesAre(cat, Frontiers(ops), env, leaves)
    ensures Merged(ResolveOperands(cat, ops, env)) == Ok(v) && IsMerge(v, leaves)
    decreases ops, 0
  {
    var n := |ops| - 1;
    var front, last := ops[..n], ops[n];
    var cut := LeavesCut(cat, front, last, ops, env, leaves);
    var b := OperandIsMerge(cat, last, env, leaves[cut..]);
    if n > 0 {
      var a := OperandsAreMerge(cat, front, env, leaves[..cut]);
      OneMoreOperand(cat, front, last, ops, env, a, b);
      MergeOfMerges(a, leaves[..cut], b, leaves[cut..]);
      assert leaves[..cut] + leaves[cut..] == leaves;
      v := Merge(a, b);
    } else {
      assert ops == [last] && leaves[cut..] == leaves;
      OneOperand(cat, last, env);
      v := b;
    }
  }

  /** The leaves of the last operand come last. */
  lemma LeavesCut(cat: Catalog, front: seq<Operand>, last: Operand, ops: seq<Operand>, env: Env, leaves: seq<seq<Column>>) returns (cut: nat)
    requires ops == front + [last] && AllInhabited(ops) && LeavesAre(cat, Frontiers(ops), env, leaves)
    ensures cut <= |leaves| && (front == [] ==> cut == 0)
    ensures AllInhabited(front) && LeavesAre(cat, Frontiers(front), env, leaves[..cut])
    ensures Inhabited(last) && LeavesAre(cat, Frontier(last), env, leaves[cut..])
  {
    OneOperand(cat, last, env);
    FrontiersAppend(front, [last]);
    cut := |Frontiers(front)|;
    LeavesSplit(cat, Frontiers(front), Frontier(last), env, leaves);
  }

  lemma OneMoreOperand(cat: Catalog, front: seq<Operand>, last: Operand, ops: seq<Operand>, env: Env, a: seq<Column>, b: seq<Column>)
    requires ops == front + [last] && front != []
    requires Merged(ResolveOperands(cat, front, env)) == Ok(a) && ResolveOperand(cat, last, env) == Ok(b)
    ensures Merged(ResolveOperands(cat, ops, env)) == Ok(Merge(a, b))
  {
    OneOperand(cat, last, env);
    OperandsAppend(cat, front, [last], env);
    MergeNext(ResolveOperands(cat, front, env).value, b);
  }

  lemma OneOperand(cat: Catalog, op: Operand, env: Env)
    ensures Frontiers([op]) == Frontier(op) && (AllInhabited([op]) <==> Inhabited(op))
    ensures ResolveOperand(cat, op, env).Ok? ==> ResolveOperands(cat, [op], env) == Ok([ResolveOperand(cat, op, env).value])
  {
    assert [op][1..] == [];
    if ResolveOperand(cat, op, env).Ok? {
      var v := ResolveOperand(cat, op, env).value;
      assert ResolveOperands(cat, [], env) == Ok([]);
      assert [v] + [] == [v];
    }
  }

  lemma MergeNext(vs: seq<seq<Column>>, v: seq<Column>)
    requires vs != []
    ensures MergeAll(vs + [v]) == Merge(MergeAll(vs), v)
  {
    assert (vs + [v])[..|vs|] == vs;
  }

  /** A set operation whose leaves resolve in the scope after the WITH list resolves to the merge of its
      leaves, however they are nested. */
  lemma SetOperationIs(cat: Catalog, ctes: seq<Cte>, ops: seq<Operand>, env: Env, scope: Env, leaves: seq<seq<Column>>)
    requires ResolveCtes(cat, ctes, env) == Ok(scope)
    requires ops != [] && AllInhabited(ops) && LeavesAre(cat, Frontiers(ops), scope, leaves)
    ensures Resolve(cat, SetOp(ctes, ops), env).Ok? && IsMerge(Resolve(cat, SetOp(ctes, ops), env).value, leaves)
  {
    var v := OperandsAreMerge(cat, ops, scope, leaves);
    assert Resolve(cat, SetOp(ctes, ops), env) == Merged(ResolveOperands(cat, ops, scope));
  }

  predicate LeafResolvable(cat: Catalog, op: Operand, env: Env) {
    op.Leaf? && op.query.Select? && Resolvable(cat, op.query, env)
  }

  predicate LeavesResolvable(cat: Catalog, ops: seq<Operand>, env: Env) {
    forall k :: 0 <= k < |ops| ==> LeafResolvable(cat, ops[k], env)
  }

  lemma LeavesResolvableAppend(cat: Catalog, xs: seq<Operand>, ys: seq<Operand>, env: Env)
    ensures LeavesResolvable(cat, xs + ys, env) <==> LeavesResolvable(cat, xs, env) && LeavesResolvable(cat, ys, env)
  {
    var all := xs + ys;
    if LeavesResolvable(cat, all, env) {
      forall k | 0 <= k < |xs| ensures LeafResolvable(cat, xs[k], env) {
        assert all[k] == xs[k];
      }
      forall k | 0 <= k < |ys| ensures LeafResolvable(cat, ys[k], env) {
        assert all[|xs| + k] == ys[k];
      }
    }
  }

  lemma {:induction false} OperandLeaves(cat: Catalog, op: Operand, env: Env)
    ensures OperandResolvable(cat, op, env) <==> LeavesResolvable(cat, Frontier(op), env)
    decreases op, 1
  {
    if op.Nested? {
      OperandsLeaves(cat, op.items, env);
    } else {
      assert LeafResolvable(cat, op, env) <==> LeafResolvable(cat, [op][0], env);
    }
  }

  lemma {:induction false} OperandsLeaves(cat: Catalog, ops: seq<Operand>, env: Env)
    ensures OperandsResolvable(cat, ops, env) <==> LeavesResolvable(cat, Frontiers(ops), env)
    decreases ops, 0
  {
    if ops != [] {
      OperandLeaves(cat, ops[0], env);
      OperandsLeaves(cat, ops[1..], env);
      LeavesResolvableAppend(cat, Frontier(ops[0]), Frontiers(ops[1..]), env);
    }
  }

  /** A set operation resolves exactly if its WITH list does and every leaf is a select that resolves. */
  lemma SetOperationResolvesIff(cat: Catalog, ctes: seq<Cte>, ops: seq<Operand>, env: Env, scope: Env)
    requires ResolveCtes(cat, ctes, env) == Ok(scope)
    ensures Resolve(cat, SetOp(ctes, ops), env).Ok? <==> LeavesResolvable(cat, Frontiers(ops), scope)
  {
    OperandsResolveIff(cat, ops, scope);
    OperandsLeaves(cat, ops, scope);
  }

  // ----- dependencies of a set operation -----

  /** What the leaves trace to in SQL. */
  predicate LeavesTrace(cat: Catalog, ops: seq<Operand>, traced: LineageTrace.TracedEnv, ts: seq<seq<LineageTrace.Traced>>) {
    |ts| == |ops| && forall k :: 0 <= k < |ops| ==> LeafTraces(cat, ops[k], traced, ts[k])
  }

  predicate LeafTraces(cat: Catalog, op: Operand, traced: LineageTrace.TracedEnv, t: seq<LineageTrace.Traced>) {
    op.Leaf? && LineageTrace.Traceable(cat, op.query, traced) && LineageTrace.Trace(cat, op.query, traced) == t
  }

  lemma LeafIsExact(cat: Catalog, op: Operand, env: Env, traced: LineageTrace.TracedEnv, leaf: seq<Column>, t: seq<LineageTrace.Traced>)
    requires LineageTrace.WellNamed(cat) && LineageTrace.EnvExact(env, traced) && LeafIs(cat, op, env, leaf) && LeafTraces(cat, op, traced, t)
    ensures LineageTrace.AllExact(leaf, t)
  {
    LineageTrace.QueryExact(cat, op.query, env, traced);
  }

  /** The base columns a result column of a set operation can show: those of that column in every leaf. */
  predicate Shows(ts: seq<seq<LineageTrace.Traced>>, i: nat, b: LineageTrace.Base) {
    exists k :: 0 <= k < |ts| && i < |ts[k]| && b in ts[k][i].bases
  }

  lemma ShowsFirstIff(ts: seq<seq<LineageTrace.Traced>>, i: nat, first: set<LineageTrace.Base>)
    requires ts != [] && (forall k :: 0 <= k < |ts| ==> i < |ts[k]|) && first == ts[0][i].bases
    ensures (forall b :: Shows(ts, i, b) <==> b in first) <==> forall k :: 0 < k < |ts| ==> ts[k][i].bases <= first
  {
    if forall b :: Shows(ts, i, b) <==> b in first {
      forall k, b | 0 < k < |ts| && b in ts[k][i].bases ensures b in first {
        assert Shows(ts, i, b);
      }
    }
    if forall k :: 0 < k < |ts| ==> ts[k][i].bases <= first {
      forall b ensures Shows(ts, i, b) <==> b in first {
        assert b in first ==> Shows(ts, i, b);
      }
    }
  }

  lemma LeavesAreExact(cat: Catalog, ops: seq<Operand>, scope: Env, traced: LineageTrace.TracedEnv,
                       leaves: seq<seq<Column>>, ts: seq<seq<LineageTrace.Traced>>)
    requires LineageTrace.WellNamed(cat) && LineageTrace.EnvExact(scope, traced)
    requires LeavesAre(cat, ops, scope, leaves) && LeavesTrace(cat, ops, traced, ts)
    ensures forall k :: 0 <= k < |ts| ==> LineageTrace.AllExact(leaves[k], ts[k])
  {
    forall k | 0 <= k < |ts| ensures LineageTrace.AllExact(leaves[k], ts[k]) {
      LeafIsExact(cat, ops[k], scope, traced, leaves[k], ts[k]);
    }
  }

  /** Only the first leaf's dependencies are tracked: they are all that a result column shows if and only
      if no other leaf adds a base column there. */
  lemma SetOperationTracksIff(cat: Catalog, ctes: seq<Cte>, ops: seq<Operand>, scope: Env,
                              leaves: seq<seq<Column>>, ts: seq<seq<LineageTrace.Traced>>, i: nat)
    requires LineageTrace.WellNamed(cat) && ResolveCtes(cat, ctes, map[]) == Ok(scope) && LineageTrace.TraceableCtes(cat, ctes, map[])
    requires ops != [] && AllInhabited(ops) && LeavesAre(cat, Frontiers(ops), scope, leaves)
    requires LeavesTrace(cat, Frontiers(ops), LineageTrace.TraceCtes(cat, ctes, map[]), ts)
    requires Resolve(cat, SetOp(ctes, ops), map[]).Ok? && i < |Resolve(cat, SetOp(ctes, ops), map[]).value|
    ensures ts != [] && forall k :: 0 <= k < |ts| ==> i < |ts[k]|
    ensures (forall b :: Shows(ts, i, b) <==> b in Keys(Resolve(cat, SetOp(ctes, ops), map[]).value[i].deps)) <==>
            forall k :: 0 < k < |ts| ==> ts[k][i].bases <= ts[0][i].bases
  {
    SetOperationIs(cat, ctes, ops, map[], scope, leaves);
    LineageTrace.CtesExact(cat, ctes, map[], map[]);
    LeavesAreExact(cat, Frontiers(ops), scope, LineageTrace.TraceCtes(cat, ctes, map[]), leaves, ts);
    var c := Resolve(cat, SetOp(ctes, ops), map[]).value[i];
    MergedTracks(c, leaves, ts, i);
    ShowsFirstIff(ts, i, Keys(c.deps));
  }

  lemma MergedTracks(c: Column, leaves: seq<seq<Column>>, ts: seq<seq<LineageTrace.Traced>>, i: nat)
    requires |ts| == |leaves| && (forall k :: 0 <= k < |ts| ==> LineageTrace.AllExact(leaves[k], ts[k]))
    requires Deep(leaves, i) && IsMergedColumn(c, leaves, i)
    ensures (forall k :: 0 <= k < |ts| ==> i < |ts[k]|) && Keys(c.deps) == ts[0][i].bases
  {
    forall k | 0 <= k < |ts| ensures i < |ts[k]| {
      assert LineageTrace.AllExact(leaves[k], ts[k]);
    }
    assert LineageTrace.Exact(leaves[0][i], ts[0][i]);
  }

  // ----- a union that hides a column -----

  /** SELECT * FROM the table */
  function AllOf(table: string): Query {
    Select([], Named("", table, "", []), [Wildcard("", "")])
  }

  lemma AllOfTable(cat: Catalog, table: string)
    requires cat.load(cat.defaultDatabase, table) == Some(["x"])
    ensures Resolve(cat, AllOf(table), map[]) == Ok([LineageTrace.BaseColumn(cat, table, "x")])
  {
    LineageTrace.LoadOne(cat, table, "");
    var source := Source(table, table, cat.defaultDatabase, [LineageTrace.BaseColumn(cat, table, "x")]);
    assert [source][1..] == [];
    assert Flatten([source]) == source.columns + [];
    var star := Wildcard("", "");
    assert [star][1..] == [];
    assert ResolveFields([], [source]) == Ok([]) && ResolveField(star, [source]) == Ok(Flatten([source]));
    assert ResolveFields([star], [source]) == Ok(Flatten([source]) + []);
    assert source.columns + [] == source.columns;
  }

  /** SELECT * FROM t UNION SELECT * FROM u: the column depends on t.x alone, although it shows u.x too. */
  lemma UnionHidesColumn(cat: Catalog)
    requires cat.load(cat.defaultDatabase, "t") == Some(["x"]) && cat.load(cat.defaultDatabase, "u") == Some(["x"])
    ensures var r := Resolve(cat, SetOp([], [Leaf(AllOf("t")), Leaf(AllOf("u"))]), map[]);
            r.Ok? && |r.value| == 1 && r.value[0].deps == [Origin(cat.defaultDatabase, "", "t", "x")]
  {
    var ops := [Leaf(AllOf("t")), Leaf(AllOf("u"))];
    var leaves := [[LineageTrace.BaseColumn(cat, "t", "x")], [LineageTrace.BaseColumn(cat, "u", "x")]];
    AllOfTable(cat, "t");
    AllOfTable(cat, "u");
    assert ops[1..] == [ops[1]] && ops[1..][1..] == [];
    assert Frontiers(ops[1..]) == [ops[1]] + [];
    assert Frontiers(ops) == [ops[0]] + [ops[1]];
    assert LeafIs(cat, ops[0], map[], leaves[0]) && LeafIs(cat, ops[1], map[], leaves[1]);
    assert AllInhabited(ops[1..]);
    SetOperationIs(cat, [], ops, map[], map[], leaves);
    var cs := Resolve(cat, SetOp([], ops), map[]).value;
    var k :| 0 <= k < |leaves| && |cs| == |leaves[k]|;
    assert IsMergedColumn(cs[0], leaves, 0);
  }
}
