/** Set operations: merging operands is associative up to case and surrounding space, so the
    nesting of the operands of a UNION does not matter. */
module LineageSetOps {
  import opened Text
  import opened Lineage

  /** An origin up to case and surrounding white space. */
  function Canon(o: Origin): Origin {
    Origin(Fold(Trim(o.database)), Fold(Trim(o.schema)), Fold(Trim(o.table)), Fold(Trim(o.column)))
  }

  lemma CanonOfNoOrigin()
    ensures Canon(NO_ORIGIN) == NO_ORIGIN
  {
  }

  /** Same name and dependencies, origins equal up to case and surrounding space. */
  predicate SameColumn(a: Column, b: Column) {
    a.name == b.name && a.deps == b.deps && SameOrigin(a.origin, b.origin)
  }

  predicate Same(a: seq<Column>, b: seq<Column>) {
    |a| == |b| && forall i :: 0 <= i < |a| ==> SameColumn(a[i], b[i])
  }

  lemma MergeColumnRespectsSame(a: Column, a': Column, b: Column, b': Column)
    requires SameColumn(a, a') && SameColumn(b, b')
    ensures SameColumn(MergeColumn(a, b), MergeColumn(a', b'))
  {
  }

  lemma MergeRespectsSame(a: seq<Column>, a': seq<Column>, b: seq<Column>, b': seq<Column>)
    requires Same(a, a') && Same(b, b')
    ensures Same(Merge(a, b), Merge(a', b'))
  {
    var l, r := Merge(a, b), Merge(a', b');
    forall i | 0 <= i < |l| ensures SameColumn(l[i], r[i]) {
      MergeColumnRespectsSame(a[i], a'[i], b[i], b'[i]);
    }
  }

  lemma MergeColumnAssociative(a: Column, b: Column, c: Column)
    ensures SameColumn(MergeColumn(MergeColumn(a, b), c), MergeColumn(a, MergeColumn(b, c)))
  {
  }

  lemma MergeAssociative(a: seq<Column>, b: seq<Column>, c: seq<Column>)
    ensures Same(Merge(Merge(a, b), c), Merge(a, Merge(b, c)))
  {
    var l, r := Merge(Merge(a, b), c), Merge(a, Merge(b, c));
    forall i | 0 <= i < |l| ensures SameColumn(l[i], r[i]) {
      MergeColumnAssociative(a[i], b[i], c[i]);
    }
  }

  lemma {:induction false} MergeAllAppend(xs: seq<seq<Column>>, ys: seq<seq<Column>>)
    requires xs != [] && ys != []
    ensures Same(MergeAll(xs + ys), Merge(MergeAll(xs), MergeAll(ys)))
    decreases |ys|
  {
    var n := |ys| - 1;
    assert (xs + ys)[..|xs + ys| - 1] == xs + ys[..n];
    assert (xs + ys)[|xs + ys| - 1] == ys[n];
    if n > 0 {
      MergeAllAppend(xs, ys[..n]);
      MergeRespectsSame(MergeAll(xs + ys[..n]), Merge(MergeAll(xs), MergeAll(ys[..n])), ys[n], ys[n]);
      MergeAssociative(MergeAll(xs), MergeAll(ys[..n]), ys[n]);
    } else {
      assert xs + ys[..0] == xs;
    }
  }

  // ----- what a merged column is -----

  predicate AgreeAt(operands: seq<seq<Column>>, i: nat)
    requires operands != [] && forall k :: 0 <= k < |operands| ==> i < |operands[k]|
  {
    forall k :: 0 <= k < |operands| ==> SameOrigin(operands[0][i].origin, operands[k][i].origin)
  }

  function Shortest(operands: seq<seq<Column>>): nat
    requires operands != []
  {
    var n := |operands| - 1;
    if n == 0 then |operands[0]|
    else if |operands[n]| < Shortest(operands[..n]) then |operands[n]| else Shortest(operands[..n])
  }

  lemma {:induction false} ShortestIsLeast(operands: seq<seq<Column>>)
    requires operands != []
    ensures forall k :: 0 <= k < |operands| ==> Shortest(operands) <= |operands[k]|
    ensures exists k :: 0 <= k < |operands| && Shortest(operands) == |operands[k]|
  {
    var n := |operands| - 1;
    if n == 0 {
      assert Shortest(operands) == |operands[0]|;
    } else {
      ShortestIsLeast(operands[..n]);
      var k :| 0 <= k < n && Shortest(operands[..n]) == |operands[..n][k]|;
      var m := if |operands[n]| < Shortest(operands[..n]) then n else k;
      assert Shortest(operands) == |operands[m]|;
      forall j | 0 <= j < |operands| ensures Shortest(operands) <= |operands[j]| {
        assert j < n ==> Shortest(operands[..n]) <= |operands[..n][j]|;
      }
    }
  }

  lemma {:induction false} MergedIsShortest(operands: seq<seq<Column>>)
    requires operands != []
    ensures |MergeAll(operands)| == Shortest(operands)
  {
    if |operands| > 1 {
      MergedIsShortest(operands[..|operands| - 1]);
    }
  }

  lemma MergedLength(operands: seq<seq<Column>>)
    requires operands != []
    ensures forall k :: 0 <= k < |operands| ==> |MergeAll(operands)| <= |operands[k]|
    ensures exists k :: 0 <= k < |operands| && |MergeAll(operands)| == |operands[k]|
  {
    MergedIsShortest(operands);
    ShortestIsLeast(operands);
  }

  lemma MergeColumnOrigin(left: Column, right: Column)
    ensures MergeColumn(left, right).name == left.name && MergeColumn(left, right).deps == left.deps
    ensures SameOrigin(left.origin, right.origin) ==> MergeColumn(left, right) == left
    ensures !SameOrigin(left.origin, right.origin) ==> MergeColumn(left, right).origin == NO_ORIGIN
    ensures Canon(left.origin) == NO_ORIGIN ==> Canon(MergeColumn(left, right).origin) == NO_ORIGIN
    ensures Canon(NO_ORIGIN) == NO_ORIGIN
  {
    CanonOfNoOrigin();
  }

  /** The merged operands have the length of the shortest one, and each column has the name and
      the dependencies of the first operand's. Its origin is the first operand's when all operands
      agree on it, and is empty when they do not. */
  lemma {:induction false} MergedColumn(operands: seq<seq<Column>>, i: nat)
    requires operands != [] && i < |MergeAll(operands)|
    ensures forall k :: 0 <= k < |operands| ==> |MergeAll(operands)| <= |operands[k]|
    ensures exists k :: 0 <= k < |operands| && |MergeAll(operands)| == |operands[k]|
    ensures MergeAll(operands)[i].name == operands[0][i].name
    ensures MergeAll(operands)[i].deps == operands[0][i].deps
    ensures AgreeAt(operands, i) ==> MergeAll(operands)[i].origin == operands[0][i].origin
    ensures !AgreeAt(operands, i) ==> Canon(MergeAll(operands)[i].origin) == NO_ORIGIN
  {
    MergedLength(operands);
    var n := |operands| - 1;
    if n > 0 {
      MergedLength(operands[..n]);
      MergedColumn(operands[..n], i);
      AgreeStep(operands, i);
      MergeColumnOrigin(MergeAll(operands[..n])[i], operands[n][i]);
    }
  }

  lemma AgreeStep(operands: seq<seq<Column>>, i: nat)
    requires |operands| > 1 && forall k :: 0 <= k < |operands| ==> i < |operands[k]|
    ensures var n := |operands| - 1;
      AgreeAt(operands, i) <==> AgreeAt(operands[..n], i) && SameOrigin(operands[0][i].origin, operands[n][i].origin)
  {
    var n := |operands| - 1;
    assert forall k :: 0 <= k < n ==> operands[..n][k] == operands[k];
  }

  // ----- nesting does not matter -----

  /** The operands of a nested operand, left to right. */
  function Frontier(op: Operand): (r: seq<Operand>)
    decreases op
  {
    if op.Nested? then Frontiers(op.items) else [op]
  }

  function Frontiers(ops: seq<Operand>): (r: seq<Operand>)
    decreases ops
  {
    if ops == [] then [] else Frontier(ops[0]) + Frontiers(ops[1..])
  }

  /** No parenthesised operand list is empty. */
  predicate Inhabited(op: Operand)
    decreases op
  {
    op.Nested? ==> op.items != [] && AllInhabited(op.items)
  }

  predicate AllInhabited(ops: seq<Operand>)
    decreases ops
  {
    ops == [] || (Inhabited(ops[0]) && AllInhabited(ops[1..]))
  }

  /** Resolution of a flat list distributes over appending. */
  lemma {:induction false} OperandsAppend(cat: Catalog, xs: seq<Operand>, ys: seq<Operand>, env: Env)
    ensures ResolveOperands(cat, xs + ys, env) ==
      match ResolveOperands(cat, xs, env)
      case Err(e) => Err(e)
      case Ok(a) =>
        match ResolveOperands(cat, ys, env)
        case Err(e) => Err(e)
        case Ok(b) => Ok(a + b)
  {
    if xs == [] {
      assert xs + ys == ys;
      assert forall b: seq<seq<Column>> :: [] + b == b;
    } else {
      assert (xs + ys)[1..] == xs[1..] + ys;
      OperandsAppend(cat, xs[1..], ys, env);
      match ResolveOperand(cat, xs[0], env) {
        case Err(_) =>
        case Ok(first) =>
          assert forall a: seq<seq<Column>>, b: seq<seq<Column>> :: [first] + (a + b) == ([first] + a) + b;
      }
    }
  }

  ghost predicate SameResult(a: Result<seq<Column>>, b: Result<seq<Column>>) {
    match (a, b)
    case (Ok(x), Ok(y)) => Same(x, y)
    case (Err(e), Err(f)) => e == f
    case _ => false
  }

  function Merged(r: Result<seq<seq<Column>>>): Result<seq<Column>> {
    match r
    case Err(e) => Err(e)
    case Ok(operands) => Ok(MergeAll(operands))
  }

  lemma {:induction false} FlattenOperand(cat: Catalog, op: Operand, env: Env)
    requires Inhabited(op)
    ensures Frontier(op) != []
    ensures SameResult(ResolveOperand(cat, op, env), Merged(ResolveOperands(cat, Frontier(op), env)))
    decreases op, 1
  {
    if op.Nested? {
      FlattenOperands(cat, op.items, env);
    } else {
      assert [op][1..] == [];
    }
  }

  lemma {:induction false} FlattenOperands(cat: Catalog, ops: seq<Operand>, env: Env)
    requires ops != [] && AllInhabited(ops)
    ensures Frontiers(ops) != []
    ensures SameResult(Merged(ResolveOperands(cat, ops, env)), Merged(ResolveOperands(cat, Frontiers(ops), env)))
    decreases ops, 0
  {
    FlattenOperand(cat, ops[0], env);
    var front, rest := Frontier(ops[0]), Frontiers(ops[1..]);
    OperandsAppend(cat, front, rest, env);
    if ops[1..] == [] {
      assert front + rest == front;
      assert ResolveOperands(cat, ops[1..], env) == Ok([]);
    } else {
      FlattenOperands(cat, ops[1..], env);
      assert ops == [ops[0]] + ops[1..];
      OperandsAppend(cat, [ops[0]], ops[1..], env);
      assert [ops[0]][1..] == [];
      if ResolveOperands(cat, ops, env).Ok? {
        AppendMerged(ResolveOperand(cat, ops[0], env).value, ResolveOperands(cat, ops[1..], env).value,
                     ResolveOperands(cat, front, env).value, ResolveOperands(cat, rest, env).value);
      }
    }
  }

  lemma AppendMerged(first: seq<Column>, tail: seq<seq<Column>>, fs: seq<seq<Column>>, rs: seq<seq<Column>>)
    requires tail != [] && fs != [] && rs != []
    requires Same(first, MergeAll(fs)) && Same(MergeAll(tail), MergeAll(rs))
    ensures Same(MergeAll([first] + tail), MergeAll(fs + rs))
  {
    MergeAllAppend([first], tail);
    MergeAllAppend(fs, rs);
    MergeRespectsSame(first, MergeAll(fs), MergeAll(tail), MergeAll(rs));
  }

  /** Two set operations with the same WITH list whose operands read the same from left to right
      resolve to the same columns, or fail with the same error, however the operands are nested. */
  lemma NestingIsIrrelevant(cat: Catalog, ctes: seq<Cte>, xs: seq<Operand>, ys: seq<Operand>, env: Env)
    requires xs != [] && ys != [] && AllInhabited(xs) && AllInhabited(ys)
    requires Frontiers(xs) == Frontiers(ys)
    ensures SameResult(Resolve(cat, SetOp(ctes, xs), env), Resolve(cat, SetOp(ctes, ys), env))
  {
    match ResolveCtes(cat, ctes, env) {
      case Err(_) =>
      case Ok(scope) =>
        FlattenOperands(cat, xs, scope);
        FlattenOperands(cat, ys, scope);
    }
  }
}
