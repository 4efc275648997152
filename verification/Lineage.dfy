/** MySQL column lineage: the syntax the resolver inspects and, as functions, what it computes.
    `Origin` is a base column; a lineage column carries the base columns it depends on and, when
    there is exactly one, that one as its origin. */
module Lineage {
  import opened Text

  datatype Result<+T> = Ok(value: T) | Err(error: Error)

  datatype Error =
    | LoadFailed(database: string, table: string)
    | NoWildcardMatch(table: string)
    | Unsupported
    | InCte(name: string, cause: Error)

  datatype Origin = Origin(database: string, schema: string, table: string, column: string)

  const NO_ORIGIN := Origin("", "", "", "")

  datatype Column = Column(name: string, origin: Origin, deps: seq<Origin>)

  datatype Source = Source(alias: string, table: string, database: string, columns: seq<Column>)

  // ----- the inspected syntax -----

  /** A possibly qualified column name. */
  datatype Ref = Ref(schema: string, table: string, name: string)

  /** `refs` lists the column names of a compound expression in visiting order. */
  datatype Expr = NoExpr | ColumnName(ref: Ref) | Compound(text: string, refs: seq<Ref>)

  datatype Field = Auxiliary | Wildcard(schema: string, table: string) | Output(asName: string, expr: Expr)

  datatype Cte = Cte(name: string, body: Query, columns: seq<string>)

  datatype Query =
    | Select(ctes: seq<Cte>, from: Node, fields: seq<Field>)
    | SetOp(ctes: seq<Cte>, operands: seq<Operand>)

  datatype Operand = Leaf(query: Query) | Nested(items: seq<Operand>) | OtherOperand

  /** A FROM item; `Grouped` is a parenthesised join used as one table. */
  datatype Node =
    | Absent
    | Join(left: Node, right: Node)
    | Named(schema: string, name: string, asName: string, columnNames: seq<string>)
    | Derived(query: Query, asName: string, columnNames: seq<string>)
    | Grouped(left: Node, right: Node, asName: string, columnNames: seq<string>)
    | OtherNode

  /** The schema provider (`None` when loading fails) and the database of unqualified tables. */
  datatype Catalog = Catalog(defaultDatabase: string, load: (string, string) -> Option<seq<string>>)

  /** Common table expressions in scope, by folded name. */
  type Env = map<string, seq<Column>>

  // ----- columns -----

  function ApplyAliases(columns: seq<Column>, aliases: seq<string>): (r: seq<Column>)
    ensures |r| == |columns|
  {
    seq(|columns|, i requires 0 <= i < |columns| =>
      if i < |aliases| && !Blank(aliases[i]) then columns[i].(name := aliases[i]) else columns[i])
  }

  predicate SameOrigin(a: Origin, b: Origin) {
    && SameFold(Trim(a.database), Trim(b.database))
    && SameFold(Trim(a.schema), Trim(b.schema))
    && SameFold(Trim(a.table), Trim(b.table))
    && SameFold(Trim(a.column), Trim(b.column))
  }

  function MergeColumn(left: Column, right: Column): Column {
    if SameOrigin(left.origin, right.origin) then left else left.(origin := NO_ORIGIN)
  }

  function Merge(left: seq<Column>, right: seq<Column>): (r: seq<Column>) {
    seq(if |right| < |left| then |right| else |left|,
        i requires 0 <= i < |left| && i < |right| => MergeColumn(left[i], right[i]))
  }

  /** The operands of a set operation merged from left to right. */
  function MergeAll(operands: seq<seq<Column>>): (r: seq<Column>) {
    if operands == [] then []
    else if |operands| == 1 then operands[0]
    else Merge(MergeAll(operands[..|operands| - 1]), operands[|operands| - 1])
  }

  function Flatten(sources: seq<Source>): (r: seq<Column>) {
    if sources == [] then [] else sources[0].columns + Flatten(sources[1..])
  }

  // ----- references and fields -----

  predicate Visible(ref: Ref, source: Source) {
    && (ref.table == "" || SameFold(ref.table, source.alias) || SameFold(ref.table, source.table))
    && (ref.schema == "" || source.database == "" || SameFold(ref.schema, source.database))
  }

  predicate Hits(ref: Ref, column: Column) {
    SameFold(ref.name, column.name) || SameFold(ref.name, column.origin.column)
  }

  /** The columns a reference may range over: those of the sources its qualifiers admit. */
  function InScope(ref: Ref, sources: seq<Source>): (r: seq<Column>) {
    if sources == [] then []
    else (if Visible(ref, sources[0]) then sources[0].columns else []) + InScope(ref, sources[1..])
  }

  function HitOrigins(ref: Ref, columns: seq<Column>): (r: seq<Origin>) {
    if columns == [] then []
    else (if Hits(ref, columns[0]) then [columns[0].origin] else []) + HitOrigins(ref, columns[1..])
  }

  lemma {:induction false} HitOriginsAppend(ref: Ref, xs: seq<Column>, ys: seq<Column>)
    ensures HitOrigins(ref, xs + ys) == HitOrigins(ref, xs) + HitOrigins(ref, ys)
  {
    if xs == [] {
      assert xs + ys == ys;
    } else {
      assert (xs + ys)[1..] == xs[1..] + ys;
      HitOriginsAppend(ref, xs[1..], ys);
    }
  }

  lemma HeadHits(ref: Ref, head: seq<Column>, rest: seq<Column>)
    ensures multiset(HitOrigins(ref, head + rest)) == multiset(HitOrigins(ref, head)) + multiset(HitOrigins(ref, rest))
  {
    HitOriginsAppend(ref, head, rest);
  }

  /** A reference resolves when exactly one column in scope matches it. */
  function ResolveRef(ref: Ref, sources: seq<Source>): (r: Option<Origin>) {
    var matches := HitOrigins(ref, InScope(ref, sources));
    if |matches| == 1 then Some(matches[0]) else None
  }

  function Key(o: Origin): (string, string, string) {
    (Fold(o.database), Fold(o.table), Fold(o.column))
  }

  function Keys(origins: seq<Origin>): set<(string, string, string)> {
    set i | 0 <= i < |origins| :: Key(origins[i])
  }

  lemma KeysAppend(os: seq<Origin>, o: Origin)
    ensures Keys(os + [o]) == Keys(os) + {Key(o)}
  {
    var all := os + [o];
    assert all[|os|] == o;
    forall i | 0 <= i < |os| ensures Key(os[i]) in Keys(all) {
      assert all[i] == os[i];
    }
    assert Key(all[|os|]) in Keys(all);
  }

  /** The resolved references, first occurrences only, in order. */
  function Collect(refs: seq<Ref>, sources: seq<Source>): (r: seq<Origin>) {
    if refs == [] then []
    else
      var front := Collect(refs[..|refs| - 1], sources);
      match ResolveRef(refs[|refs| - 1], sources)
      case None => front
      case Some(o) => if Key(o) in Keys(front) then front else front + [o]
  }

  function Refs(e: Expr): seq<Ref> {
    match e
    case NoExpr => []
    case ColumnName(ref) => [ref]
    case Compound(_, refs) => refs
  }

  function OutputName(asName: string, e: Expr, origin: Origin): string {
    var name := if asName != "" then asName
                else match e
                  case NoExpr => ""
                  case ColumnName(ref) => ref.name
                  case Compound(text, _) => Trim(text);
    if name == "" && origin.column != "" then origin.column else name
  }

  function OutputColumn(asName: string, e: Expr, sources: seq<Source>): Column {
    var deps := Collect(Refs(e), sources);
    var origin := if |deps| == 1 then deps[0] else NO_ORIGIN;
    Column(OutputName(asName, e, origin), origin, deps)
  }

  predicate WildcardCovers(schema: string, table: string, source: Source) {
    && (SameFold(Trim(table), Trim(source.alias)) || SameFold(Trim(table), Trim(source.table)))
    && (schema == "" || SameFold(Trim(schema), Trim(source.database)))
  }

  function Covered(schema: string, table: string, sources: seq<Source>): (r: seq<Column>) {
    if sources == [] then []
    else (if WildcardCovers(schema, table, sources[0]) then sources[0].columns else [])
         + Covered(schema, table, sources[1..])
  }

  function ExpandWildcard(schema: string, table: string, sources: seq<Source>): (r: Result<seq<Column>>) {
    if table == "" then Ok(Flatten(sources))
    else
      var matched := Covered(schema, table, sources);
      if matched == [] then Err(NoWildcardMatch(table)) else Ok(matched)
  }

  function ResolveField(field: Field, sources: seq<Source>): (r: Result<seq<Column>>) {
    match field
    case Auxiliary => Ok([])
    case Wildcard(schema, table) => ExpandWildcard(schema, table, sources)
    case Output(asName, e) => Ok([OutputColumn(asName, e, sources)])
  }

  function ResolveFields(fields: seq<Field>, sources: seq<Source>): (r: Result<seq<Column>>) {
    if fields == [] then Ok([])
    else
      match ResolveField(fields[0], sources)
      case Err(e) => Err(e)
      case Ok(first) =>
        match ResolveFields(fields[1..], sources)
        case Err(e) => Err(e)
        case Ok(rest) => Ok(first + rest)
  }

  // ----- queries -----

  function BaseColumns(database: string, table: string, names: seq<string>): (r: seq<Column>)
    ensures |r| == |names|
  {
    seq(|names|, i requires 0 <= i < |names| =>
      var o := Origin(database, "", table, names[i]); Column(names[i], o, [o]))
  }

  function Or(name: string, default: string): string {
    if name == "" then default else name
  }

  function ResolveNamed(cat: Catalog, node: Node, env: Env): (r: Result<Source>)
    requires node.Named?
  {
    if node.schema == "" && Fold(node.name) in env then
      Ok(Source(Or(node.asName, node.name), node.name, "", ApplyAliases(env[Fold(node.name)], node.columnNames)))
    else
      var database := Or(node.schema, cat.defaultDatabase);
      match cat.load(database, node.name)
      case None => Err(LoadFailed(database, node.name))
      case Some(names) =>
        Ok(Source(Or(node.asName, node.name), node.name, database, BaseColumns(database, node.name, names)))
  }

  function Resolve(cat: Catalog, q: Query, env: Env): (r: Result<seq<Column>>)
    decreases q
  {
    match ResolveCtes(cat, q.ctes, env)
    case Err(e) => Err(e)
    case Ok(scope) =>
      if q.Select? then
        match ResolveNode(cat, q.from, scope)
        case Err(e) => Err(e)
        case Ok(sources) => ResolveFields(q.fields, sources)
      else
        match ResolveOperands(cat, q.operands, scope)
        case Err(e) => Err(e)
        case Ok(operands) => Ok(MergeAll(operands))
  }

  /** The scope after the WITH list: each expression sees the ones before it. */
  function ResolveCtes(cat: Catalog, ctes: seq<Cte>, env: Env): (r: Result<Env>)
    decreases ctes
  {
    if ctes == [] then Ok(env)
    else
      match Resolve(cat, ctes[0].body, env)
      case Err(e) => Err(InCte(ctes[0].name, e))
      case Ok(columns) =>
        ResolveCtes(cat, ctes[1..], env[Fold(ctes[0].name) := ApplyAliases(columns, ctes[0].columns)])
  }

  function ResolveOperand(cat: Catalog, op: Operand, env: Env): (r: Result<seq<Column>>)
    decreases op
  {
    match op
    case Leaf(query) => if query.Select? then Resolve(cat, query, env) else Err(Unsupported)
    case OtherOperand => Err(Unsupported)
    case Nested(items) =>
      match ResolveOperands(cat, items, env)
      case Err(e) => Err(e)
      case Ok(operands) => Ok(MergeAll(operands))
  }

  function ResolveOperands(cat: Catalog, ops: seq<Operand>, env: Env): (r: Result<seq<seq<Column>>>)
    ensures r.Ok? ==> |r.value| == |ops|
    decreases ops
  {
    if ops == [] then Ok([])
    else
      match ResolveOperand(cat, ops[0], env)
      case Err(e) => Err(e)
      case Ok(first) =>
        match ResolveOperands(cat, ops[1..], env)
        case Err(e) => Err(e)
        case Ok(rest) => Ok([first] + rest)
  }

  function ResolveNode(cat: Catalog, node: Node, env: Env): (r: Result<seq<Source>>)
    decreases node
  {
    match node
    case Absent => Ok([])
    case OtherNode => Err(Unsupported)
    case Named(_, _, _, _) =>
      (match ResolveNamed(cat, node, env)
       case Err(e) => Err(e)
       case Ok(source) => Ok([source]))
    case Derived(query, asName, columnNames) =>
      (match Resolve(cat, query, env)
       case Err(e) => Err(e)
       case Ok(columns) =>
         var alias := Or(asName, "derived");
         Ok([Source(alias, alias, "", ApplyAliases(columns, columnNames))]))
    case Join(left, right) =>
      (match ResolveNode(cat, left, env)
       case Err(e) => Err(e)
       case Ok(ls) =>
         match ResolveNode(cat, right, env)
         case Err(e) => Err(e)
         case Ok(rs) => Ok(ls + rs))
    case Grouped(left, right, asName, columnNames) =>
      (match ResolveNode(cat, left, env)
       case Err(e) => Err(e)
       case Ok(ls) =>
         match ResolveNode(cat, right, env)
         case Err(e) => Err(e)
         case Ok(rs) =>
           var alias := Or(asName, "join");
           Ok([Source(alias, alias, "", ApplyAliases(Flatten(ls + rs), columnNames))]))
  }
}
