/** The resolver as it runs: a scope map filled in order and cloned per query, append loops, and a
    `seen` set. Each method is proved to compute the function of the same step in `Lineage`. */
module LineageResolver {
  import opened Text
  import opened Lineage
  import LineageOutcomes

  /** The common table expressions a query sees; one object per query. */
  class CteScope {
    var bound: Env

    constructor ()
      ensures bound == map[]
    {
      bound := map[];
    }

    method Bind(name: string, columns: seq<Column>)
      modifies this
      ensures bound == old(bound)[Fold(name) := columns]
    {
      bound := bound[Fold(name) := columns];
    }
  }

  /** The scope of a nested query: a new object with the parent's entries, the parent untouched. */
  method CloneLineageMap(parent: CteScope) returns (scope: CteScope)
    ensures fresh(scope) && scope.bound == parent.bound == old(parent.bound)
  {
    scope := new CteScope();
    var todo := parent.bound.Keys;
    while todo != {}
      invariant parent.bound == old(parent.bound) && todo <= parent.bound.Keys && fresh(scope)
      invariant scope.bound.Keys == parent.bound.Keys - todo
      invariant forall k :: k in scope.bound ==> scope.bound[k] == parent.bound[k]
    {
      var k :| k in todo;
      scope.bound := scope.bound[k := parent.bound[k]];
      todo := todo - {k};
    }
  }

  method ApplyColumnAliases(columns: seq<Column>, aliases: seq<string>) returns (aliased: seq<Column>)
    ensures aliased == ApplyAliases(columns, aliases)
  {
    aliased := columns;
    for i := 0 to |columns|
      invariant |aliased| == |columns|
      invariant forall k :: 0 <= k < i ==> aliased[k] == ApplyAliases(columns, aliases)[k]
      invariant forall k :: i <= k < |columns| ==> aliased[k] == columns[k]
    {
      if i < |aliases| && !Blank(aliases[i]) {
        aliased := aliased[i := aliased[i].(name := aliases[i])];
      }
    }
  }

  method MergeSetOperationColumns(left: seq<Column>, right: seq<Column>) returns (merged: seq<Column>)
    ensures merged == Merge(left, right)
  {
    var size := |left|;
    if |right| < size { size := |right|; }
    merged := [];
    for i := 0 to size
      invariant |merged| == i
      invariant forall k :: 0 <= k < i ==> merged[k] == MergeColumn(left[k], right[k])
    {
      var column := left[i];
      if !SameOrigin(column.origin, right[i].origin) {
        column := column.(origin := NO_ORIGIN);
      }
      merged := merged + [column];
    }
  }

  method FlattenSourceColumns(sources: seq<Source>) returns (columns: seq<Column>)
    ensures columns == Flatten(sources)
  {
    columns := [];
    for i := 0 to |sources|
      invariant Flatten(sources) == columns + Flatten(sources[i..])
    {
      assert sources[i..][1..] == sources[i + 1..];
      columns := columns + sources[i].columns;
    }
  }

  method AppendHits(ref: Ref, columns: seq<Column>, before: seq<Origin>) returns (matches: seq<Origin>)
    ensures matches == before + HitOrigins(ref, columns)
  {
    matches := before;
    for j := 0 to |columns|
      invariant before + HitOrigins(ref, columns) == matches + HitOrigins(ref, columns[j..])
    {
      assert columns[j..][1..] == columns[j + 1..];
      if Hits(ref, columns[j]) {
        matches := matches + [columns[j].origin];
      }
    }
    assert columns[|columns|..] == [];
  }

  lemma HitsBefore(ref: Ref, columns: seq<Column>, rest: seq<Column>, matches: seq<Origin>)
    ensures matches + HitOrigins(ref, columns + rest) == matches + HitOrigins(ref, columns) + HitOrigins(ref, rest)
  {
    HitOriginsAppend(ref, columns, rest);
  }

  lemma InScopeStep(ref: Ref, sources: seq<Source>, i: nat, matches: seq<Origin>, goal: seq<Origin>)
    requires i < |sources| && goal == matches + HitOrigins(ref, InScope(ref, sources[i..]))
    ensures Visible(ref, sources[i]) ==> goal == matches + HitOrigins(ref, sources[i].columns) + HitOrigins(ref, InScope(ref, sources[i + 1..]))
    ensures !Visible(ref, sources[i]) ==> goal == matches + HitOrigins(ref, InScope(ref, sources[i + 1..]))
  {
    assert sources[i..][1..] == sources[i + 1..];
    var rest := InScope(ref, sources[i + 1..]);
    if Visible(ref, sources[i]) {
      assert InScope(ref, sources[i..]) == sources[i].columns + rest;
      HitsBefore(ref, sources[i].columns, rest, matches);
    } else {
      assert InScope(ref, sources[i..]) == rest;
    }
  }

  method ResolveColumnReference(ref: Ref, sources: seq<Source>) returns (r: Option<Origin>)
    ensures r == ResolveRef(ref, sources)
  {
    var matches := [];
    assert sources[0..] == sources;
    for i := 0 to |sources|
      invariant HitOrigins(ref, InScope(ref, sources)) == matches + HitOrigins(ref, InScope(ref, sources[i..]))
    {
      InScopeStep(ref, sources, i, matches, HitOrigins(ref, InScope(ref, sources)));
      if Visible(ref, sources[i]) {
        matches := AppendHits(ref, sources[i].columns, matches);
      }
    }
    assert sources[|sources|..] == [];
    r := if |matches| == 1 then Some(matches[0]) else None;
  }

  method CollectColumnExprOrigins(e: Expr, sources: seq<Source>) returns (origins: seq<Origin>)
    ensures origins == Collect(Refs(e), sources)
  {
    var refs := Refs(e);
    origins := [];
    var seen: set<(string, string, string)> := {};
    for i := 0 to |refs|
      invariant origins == Collect(refs[..i], sources)
      invariant seen == Keys(origins)
    {
      assert refs[..i + 1][..i] == refs[..i];
      var found := ResolveColumnReference(refs[i], sources);
      if found.Some? && Key(found.value) !in seen {
        KeysAppend(origins, found.value);
        seen := seen + {Key(found.value)};
        origins := origins + [found.value];
      }
    }
    assert refs[..|refs|] == refs;
  }

  lemma CoveredStep(schema: string, table: string, sources: seq<Source>, i: nat, matched: seq<Column>, goal: seq<Column>)
    requires i < |sources| && goal == matched + Covered(schema, table, sources[i..])
    ensures WildcardCovers(schema, table, sources[i]) ==> goal == matched + sources[i].columns + Covered(schema, table, sources[i + 1..])
    ensures !WildcardCovers(schema, table, sources[i]) ==> goal == matched + Covered(schema, table, sources[i + 1..])
  {
    assert sources[i..][1..] == sources[i + 1..];
  }

  method CoveredColumns(schema: string, table: string, sources: seq<Source>) returns (matched: seq<Column>)
    ensures matched == Covered(schema, table, sources)
  {
    matched := [];
    assert sources[0..] == sources;
    for i := 0 to |sources|
      invariant Covered(schema, table, sources) == matched + Covered(schema, table, sources[i..])
    {
      CoveredStep(schema, table, sources, i, matched, Covered(schema, table, sources));
      if WildcardCovers(schema, table, sources[i]) {
        matched := matched + sources[i].columns;
      }
    }
    assert sources[|sources|..] == [];
  }

  method ExpandWildcardField(schema: string, table: string, sources: seq<Source>) returns (r: Result<seq<Column>>)
    ensures r == ExpandWildcard(schema, table, sources)
  {
    if table == "" {
      var all := FlattenSourceColumns(sources);
      return Ok(all);
    }
    var matched := CoveredColumns(schema, table, sources);
    r := if matched == [] then Err(NoWildcardMatch(table)) else Ok(matched);
  }

  function Prepend<T>(done: seq<T>, r: Result<seq<T>>): Result<seq<T>> {
    match r
    case Err(e) => Err(e)
    case Ok(rest) => Ok(done + rest)
  }

  lemma PrependTwice<T>(a: seq<T>, b: seq<T>, r: Result<seq<T>>)
    ensures Prepend([], r) == r
    ensures Prepend(a, Prepend(b, r)) == Prepend(a + b, r)
  {
    if r.Ok? {
      assert [] + r.value == r.value;
      assert a + (b + r.value) == (a + b) + r.value;
    }
  }

  lemma FieldsStep(fields: seq<Field>, sources: seq<Source>, i: nat)
    requires i < |fields|
    ensures ResolveFields(fields[i..], sources) ==
      match ResolveField(fields[i], sources)
      case Err(e) => Err(e)
      case Ok(first) => Prepend(first, ResolveFields(fields[i + 1..], sources))
  {
    assert fields[i..][1..] == fields[i + 1..];
  }

  method ResolveOneField(field: Field, sources: seq<Source>) returns (r: Result<seq<Column>>)
    ensures r == ResolveField(field, sources)
  {
    match field {
      case Auxiliary => r := Ok([]);
      case Wildcard(schema, table) => r := ExpandWildcardField(schema, table, sources);
      case Output(asName, e) =>
        var deps := CollectColumnExprOrigins(e, sources);
        var origin := if |deps| == 1 then deps[0] else NO_ORIGIN;
        r := Ok([Column(OutputName(asName, e, origin), origin, deps)]);
    }
  }

  method ResolveFieldList(fields: seq<Field>, sources: seq<Source>) returns (r: Result<seq<Column>>)
    ensures r == ResolveFields(fields, sources)
  {
    var result := [];
    assert fields[0..] == fields;
    PrependTwice([], [], ResolveFields(fields, sources));
    for i := 0 to |fields|
      invariant ResolveFields(fields, sources) == Prepend(result, ResolveFields(fields[i..], sources))
    {
      FieldsStep(fields, sources, i);
      var columns := ResolveOneField(fields[i], sources);
      if columns.Err? { return columns; }
      PrependTwice(result, columns.value, ResolveFields(fields[i + 1..], sources));
      result := result + columns.value;
    }
    assert fields[|fields|..] == [] && result + [] == result;
    r := Ok(result);
  }

  /** resolveSelectStmt and resolveSetOprStmt: the parent scope is cloned, so a WITH clause never
      reaches it, and nothing but new objects is written. */
  method ResolveQuery(cat: Catalog, q: Query, parent: CteScope) returns (r: Result<seq<Column>>)
    ensures parent.bound == old(parent.bound)
    ensures r == Resolve(cat, q, parent.bound)
    ensures r.Ok? <==> LineageOutcomes.Resolvable(cat, q, parent.bound)
    decreases q
  {
    LineageOutcomes.ResolvesIff(cat, q, parent.bound);
    var scope := CloneLineageMap(parent);
    for i := 0 to |q.ctes|
      invariant ResolveCtes(cat, q.ctes, parent.bound) == ResolveCtes(cat, q.ctes[i..], scope.bound)
    {
      assert q.ctes[i..][1..] == q.ctes[i + 1..];
      var columns := ResolveQuery(cat, q.ctes[i].body, scope);
      if columns.Err? { return Err(InCte(q.ctes[i].name, columns.error)); }
      var aliased := ApplyColumnAliases(columns.value, q.ctes[i].columns);
      scope.Bind(q.ctes[i].name, aliased);
    }
    assert q.ctes[|q.ctes|..] == [];
    if q.Select? {
      var sources := ResolveSources(cat, q.from, scope);
      if sources.Err? { return Err(sources.error); }
      r := ResolveFieldList(q.fields, sources.value);
    } else {
      r := ResolveOperandList(cat, q.operands, scope);
    }
  }

  method ResolveSetOperand(cat: Catalog, op: Operand, scope: CteScope) returns (r: Result<seq<Column>>)
    ensures scope.bound == old(scope.bound)
    ensures r == ResolveOperand(cat, op, scope.bound)
    decreases op
  {
    match op {
      case Leaf(query) =>
        if !query.Select? { return Err(Unsupported); }
        r := ResolveQuery(cat, query, scope);
      case OtherOperand => r := Err(Unsupported);
      case Nested(items) => r := ResolveOperandList(cat, items, scope);
    }
  }

  lemma OperandsStep(cat: Catalog, ops: seq<Operand>, i: nat, env: Env, done: seq<seq<Column>>, goal: Result<seq<seq<Column>>>)
    requires i < |ops| && goal == Prepend(done, ResolveOperands(cat, ops[i..], env))
    ensures match ResolveOperand(cat, ops[i], env)
            case Err(e) => goal == Err(e)
            case Ok(v) => goal == Prepend(done + [v], ResolveOperands(cat, ops[i + 1..], env))
  {
    assert ops[i..][1..] == ops[i + 1..];
    match ResolveOperand(cat, ops[i], env) {
      case Err(_) =>
      case Ok(v) => PrependTwice(done, [v], ResolveOperands(cat, ops[i + 1..], env));
    }
  }

  lemma MergeAllNext(done: seq<seq<Column>>, v: seq<Column>)
    ensures MergeAll(done + [v]) == if done == [] then v else Merge(MergeAll(done), v)
  {
    assert (done + [v])[..|done|] == done;
  }

  function MergedResult(r: Result<seq<seq<Column>>>): Result<seq<Column>> {
    match r case Err(e) => Err(e) case Ok(os) => Ok(MergeAll(os))
  }

  /** Operands are resolved and merged in one pass, from left to right. */
  method ResolveOperandList(cat: Catalog, ops: seq<Operand>, scope: CteScope) returns (r: Result<seq<Column>>)
    ensures scope.bound == old(scope.bound)
    ensures r == MergedResult(ResolveOperands(cat, ops, scope.bound))
    decreases ops
  {
    var merged: seq<Column> := [];
    ghost var done: seq<seq<Column>> := [];
    ghost var goal := ResolveOperands(cat, ops, scope.bound);
    assert ops[0..] == ops;
    PrependTwice([], [], goal);
    for i := 0 to |ops|
      invariant |done| == i && merged == MergeAll(done)
      invariant goal == Prepend(done, ResolveOperands(cat, ops[i..], scope.bound))
    {
      OperandsStep(cat, ops, i, scope.bound, done, goal);
      var columns := ResolveSetOperand(cat, ops[i], scope);
      if columns.Err? { return columns; }
      MergeAllNext(done, columns.value);
      if i == 0 {
        merged := columns.value;
      } else {
        merged := MergeSetOperationColumns(merged, columns.value);
      }
      done := done + [columns.value];
    }
    assert ops[|ops|..] == [] && done + [] == done;
    r := Ok(merged);
  }

  method ResolveSources(cat: Catalog, node: Node, scope: CteScope) returns (r: Result<seq<Source>>)
    ensures scope.bound == old(scope.bound)
    ensures r == ResolveNode(cat, node, scope.bound)
    decreases node
  {
    match node {
      case Absent => r := Ok([]);
      case OtherNode => r := Err(Unsupported);
      case Named(schema, name, asName, columnNames) =>
        if schema == "" && Fold(name) in scope.bound {
          var aliased := ApplyColumnAliases(scope.bound[Fold(name)], columnNames);
          return Ok([Source(Or(asName, name), name, "", aliased)]);
        }
        var database := Or(schema, cat.defaultDatabase);
        var names := cat.load(database, name);
        if names.None? { return Err(LoadFailed(database, name)); }
        var columns: seq<Column> := [];
        for i := 0 to |names.value|
          invariant |columns| == i
          invariant forall k :: 0 <= k < i ==> columns[k] == BaseColumns(database, name, names.value)[k]
        {
          var o := Origin(database, "", name, names.value[i]);
          columns := columns + [Column(names.value[i], o, [o])];
        }
        assert columns == BaseColumns(database, name, names.value);
        r := Ok([Source(Or(asName, name), name, database, columns)]);
      case Derived(query, asName, columnNames) =>
        var columns := ResolveQuery(cat, query, scope);
        if columns.Err? { return Err(columns.error); }
        var aliased := ApplyColumnAliases(columns.value, columnNames);
        r := Ok([Source(Or(asName, "derived"), Or(asName, "derived"), "", aliased)]);
      case Join(left, right) =>
        var ls := ResolveSources(cat, left, scope);
        if ls.Err? { return ls; }
        var rs := ResolveSources(cat, right, scope);
        if rs.Err? { return rs; }
        r := Ok(ls.value + rs.value);
      case Grouped(left, right, asName, columnNames) =>
        var ls := ResolveSources(cat, left, scope);
        if ls.Err? { return ls; }
        var rs := ResolveSources(cat, right, scope);
        if rs.Err? { return rs; }
        var columns := FlattenSourceColumns(ls.value + rs.value);
        var aliased := ApplyColumnAliases(columns, columnNames);
        r := Ok([Source(Or(asName, "join"), Or(asName, "join"), "", aliased)]);
    }
  }
}
