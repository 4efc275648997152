/** Exactness of lineage. `Trace` follows references as SQL scoping does, down to sets of base columns:
    a qualifier names a source by its alias, or by the table's own name only when it has no alias, and
    a column is found by the name it is exported under. It knows nothing of origins, of matching by
    base name or by a hidden table name, or of de-duplication. Where a reference reads one base column
    and nothing of that kind disturbs it, the resolver agrees; otherwise it drops the reference. */
module LineageTrace {
  import opened Text
  import opened Lineage

  /** A base column: database, table and column, folded. */
  type Base = (string, string, string)

  datatype Traced = Traced(name: string, bases: set<Base>)

  /** `table` is the table behind the alias; SQL does not let references use it. */
  datatype TracedSource = TracedSource(alias: string, table: string, database: string, columns: seq<Traced>)

  type TracedEnv = map<string, seq<Traced>>

  // ----- tracing -----

  function Rename(columns: seq<Traced>, names: seq<string>): (r: seq<Traced>)
    ensures |r| == |columns|
  {
    seq(|columns|, i requires 0 <= i < |columns| =>
      if i < |names| && !Blank(names[i]) then columns[i].(name := names[i]) else columns[i])
  }

  function AllColumns(sources: seq<TracedSource>): (r: seq<Traced>) {
    if sources == [] then [] else sources[0].columns + AllColumns(sources[1..])
  }

  function Heading(s: TracedSource): Source {
    Source(s.alias, s.table, s.database, [])
  }

  /** Whether SQL lets a reference's qualifiers name a source. */
  predicate Names(ref: Ref, alias: string, database: string) {
    && (ref.table == "" || SameFold(ref.table, alias))
    && (ref.schema == "" || SameFold(ref.schema, database))
  }

  /** The columns of the sources a reference's qualifiers name. */
  function Candidates(ref: Ref, sources: seq<TracedSource>): (r: seq<Traced>) {
    if sources == [] then []
    else (if Names(ref, sources[0].alias, sources[0].database) then sources[0].columns else []) + Candidates(ref, sources[1..])
  }

  function TraceRef(ref: Ref, sources: seq<TracedSource>): (r: set<Base>) {
    var columns := Candidates(ref, sources);
    set i, b | 0 <= i < |columns| && SameFold(ref.name, columns[i].name) && b in columns[i].bases :: b
  }

  function TraceRefs(refs: seq<Ref>, sources: seq<TracedSource>): (r: set<Base>) {
    if refs == [] then {} else TraceRefs(refs[..|refs| - 1], sources) + TraceRef(refs[|refs| - 1], sources)
  }

  /** The name a select item is exported under. */
  function PlainName(asName: string, e: Expr): string {
    if asName != "" then asName
    else match e
      case NoExpr => ""
      case ColumnName(ref) => ref.name
      case Compound(text, _) => Trim(text)
  }

  /** Whether SQL lets `schema.table.*` stand for a source. */
  predicate StarNames(schema: string, table: string, alias: string, database: string) {
    SameFold(table, alias) && (schema == "" || SameFold(schema, database))
  }

  function StarColumns(schema: string, table: string, sources: seq<TracedSource>): (r: seq<Traced>) {
    if sources == [] then []
    else (if StarNames(schema, table, sources[0].alias, sources[0].database) then sources[0].columns else [])
         + StarColumns(schema, table, sources[1..])
  }

  function TraceField(f: Field, sources: seq<TracedSource>): (r: seq<Traced>) {
    match f
    case Auxiliary => []
    case Wildcard(schema, table) =>
      if table == "" then AllColumns(sources) else StarColumns(schema, table, sources)
    case Output(asName, e) => [Traced(PlainName(asName, e), TraceRefs(Refs(e), sources))]
  }

  function TraceFields(fields: seq<Field>, sources: seq<TracedSource>): (r: seq<Traced>) {
    if fields == [] then [] else TraceField(fields[0], sources) + TraceFields(fields[1..], sources)
  }

  function TraceBase(database: string, table: string, names: seq<string>): (r: seq<Traced>) {
    seq(|names|, i requires 0 <= i < |names| => Traced(names[i], {(Fold(database), Fold(table), Fold(names[i]))}))
  }

  /** Set operations are not traced. */
  function Trace(cat: Catalog, q: Query, env: TracedEnv): (r: seq<Traced>)
    decreases q
  {
    if q.Select? then TraceFields(q.fields, TraceNode(cat, q.from, TraceCtes(cat, q.ctes, env))) else []
  }

  function TraceCtes(cat: Catalog, ctes: seq<Cte>, env: TracedEnv): (r: TracedEnv)
    decreases ctes
  {
    if ctes == [] then env
    else
      var columns := Rename(Trace(cat, ctes[0].body, env), ctes[0].columns);
      TraceCtes(cat, ctes[1..], env[Fold(ctes[0].name) := columns])
  }

  function TraceNode(cat: Catalog, node: Node, env: TracedEnv): (r: seq<TracedSource>)
    decreases node
  {
    match node
    case Absent => []
    case OtherNode => []
    case Named(schema, name, asName, columnNames) =>
      if schema == "" && Fold(name) in env then
        [TracedSource(Or(asName, name), name, "", Rename(env[Fold(name)], columnNames))]
      else
        var database := Or(schema, cat.defaultDatabase);
        (match cat.load(database, name)
         case None => []
         case Some(names) => [TracedSource(Or(asName, name), name, database, TraceBase(database, name, names))])
    case Derived(query, asName, columnNames) =>
      var alias := Or(asName, "derived");
      [TracedSource(alias, alias, "", Rename(Trace(cat, query, env), columnNames))]
    case Join(left, right) => TraceNode(cat, left, env) + TraceNode(cat, right, env)
    case Grouped(left, right, asName, columnNames) =>
      var alias := Or(asName, "join");
      [TracedSource(alias, alias, "",
                    Rename(AllColumns(TraceNode(cat, left, env) + TraceNode(cat, right, env)), columnNames))]
  }

  // ----- when tracing and resolving agree -----

  /** A renamed column that still carries the referenced name as its base column's name. */
  predicate HiddenHit(ref: Ref, column: Traced) {
    |column.bases| == 1 && exists b :: b in column.bases && b.2 == Fold(ref.name)
  }

  /** The columns of the sources that only the resolver lets the qualifiers name: by the name of the
      table behind an alias, or by a schema where the source has none. */
  function Strays(ref: Ref, sources: seq<TracedSource>): (r: seq<Traced>) {
    if sources == [] then []
    else (if Visible(ref, Heading(sources[0])) && !Names(ref, sources[0].alias, sources[0].database) then sources[0].columns else [])
         + Strays(ref, sources[1..])
  }

  predicate NameMatches(ref: Ref, column: Traced) {
    SameFold(ref.name, column.name)
  }

  /** Candidate k is the only one exported under the name, as SQL demands. */
  predicate OnlyMatch(ref: Ref, sources: seq<TracedSource>, k: nat) {
    var columns := Candidates(ref, sources);
    && k < |columns| && NameMatches(ref, columns[k])
    && forall j :: 0 <= j < |columns| && j != k ==> !NameMatches(ref, columns[j])
  }

  /** No other candidate reads a base column of the name, and no stray column matches it either way. */
  predicate Undisturbed(ref: Ref, sources: seq<TracedSource>, k: nat) {
    && (forall j :: 0 <= j < |Candidates(ref, sources)| && j != k ==> !HiddenHit(ref, Candidates(ref, sources)[j]))
    && (forall j :: 0 <= j < |Strays(ref, sources)| ==> !NameMatches(ref, Strays(ref, sources)[j]) && !HiddenHit(ref, Strays(ref, sources)[j]))
  }

  /** One candidate matches, it reads one base column, and nothing disturbs the resolver. */
  predicate Unambiguous(ref: Ref, sources: seq<TracedSource>) {
    && ref.name != ""
    && exists k :: 0 <= k < |Candidates(ref, sources)| && OnlyMatch(ref, sources, k)
         && |Candidates(ref, sources)[k].bases| == 1 && Undisturbed(ref, sources, k)
  }

  /** The columns of the sources that only the resolver lets a wildcard stand for. */
  function StarStrays(schema: string, table: string, sources: seq<TracedSource>): (r: seq<Traced>) {
    if sources == [] then []
    else (if WildcardCovers(schema, table, Heading(sources[0])) && !StarNames(schema, table, sources[0].alias, sources[0].database)
          then sources[0].columns else [])
         + StarStrays(schema, table, sources[1..])
  }

  predicate TraceableField(f: Field, sources: seq<TracedSource>) {
    match f
    case Auxiliary => true
    case Wildcard(schema, table) => table == "" || StarStrays(schema, table, sources) == []
    case Output(asName, e) =>
      PlainName(asName, e) != "" && forall i :: 0 <= i < |Refs(e)| ==> Unambiguous(Refs(e)[i], sources)
  }

  predicate Traceable(cat: Catalog, q: Query, env: TracedEnv)
    decreases q
  {
    && q.Select?
    && TraceableCtes(cat, q.ctes, env)
    && var scope := TraceCtes(cat, q.ctes, env);
       && TraceableNode(cat, q.from, scope)
       && forall i :: 0 <= i < |q.fields| ==> TraceableField(q.fields[i], TraceNode(cat, q.from, scope))
  }

  predicate TraceableCtes(cat: Catalog, ctes: seq<Cte>, env: TracedEnv)
    decreases ctes
  {
    ctes != [] ==>
      && Traceable(cat, ctes[0].body, env)
      && var columns := Rename(Trace(cat, ctes[0].body, env), ctes[0].columns);
         TraceableCtes(cat, ctes[1..], env[Fold(ctes[0].name) := columns])
  }

  predicate TraceableNode(cat: Catalog, node: Node, env: TracedEnv)
    decreases node
  {
    match node
    case Absent => true
    case OtherNode => true
    case Named(_, _, _, _) => true
    case Derived(query, _, _) => Traceable(cat, query, env)
    case Join(left, right) => TraceableNode(cat, left, env) && TraceableNode(cat, right, env)
    case Grouped(left, right, _, _) => TraceableNode(cat, left, env) && TraceableNode(cat, right, env)
  }

  /** The schema provider never reports a column without a name. */
  ghost predicate WellNamed(cat: Catalog) {
    forall database, table :: cat.load(database, table).Some? ==>
      forall i :: 0 <= i < |cat.load(database, table).value| ==> cat.load(database, table).value[i] != ""
  }

  // ----- the correspondence -----

  /** The dependencies are the traced base columns, once each, and the origin is the only one. */
  predicate Exact(c: Column, t: Traced) {
    && c.name == t.name
    && Keys(c.deps) == t.bases
    && |c.deps| == |t.bases|
    && c.origin == (if |c.deps| == 1 then c.deps[0] else NO_ORIGIN)
    && (|c.deps| == 1 ==> c.origin.column != "")
  }

  predicate AllExact(cs: seq<Column>, ts: seq<Traced>) {
    |cs| == |ts| && forall i :: 0 <= i < |cs| ==> Exact(cs[i], ts[i])
  }

  predicate SourceExact(s: Source, t: TracedSource) {
    s.alias == t.alias && s.table == t.table && s.database == t.database && AllExact(s.columns, t.columns)
  }

  predicate SourcesExact(ss: seq<Source>, ts: seq<TracedSource>) {
    |ss| == |ts| && forall i :: 0 <= i < |ss| ==> SourceExact(ss[i], ts[i])
  }

  predicate EnvExact(env: Env, traced: TracedEnv) {
    env.Keys == traced.Keys && forall n :: n in env ==> AllExact(env[n], traced[n])
  }

  lemma SingleBase(c: Column, t: Traced)
    requires Exact(c, t) && |t.bases| == 1
    ensures c.deps == [c.origin] && t.bases == {Key(c.origin)}
  {
    assert c.deps == [c.deps[0]];
    assert Key(c.deps[0]) in Keys(c.deps);
    var b := Key(c.deps[0]);
    assert t.bases - {b} == {};
  }

  // ----- references -----

  /** The columns the resolver searches, split as SQL would: those the qualifiers name, and the others. */
  function NamedScope(ref: Ref, sources: seq<Source>): (r: seq<Column>) {
    if sources == [] then []
    else (if Names(ref, sources[0].alias, sources[0].database) then sources[0].columns else []) + NamedScope(ref, sources[1..])
  }

  function StrayScope(ref: Ref, sources: seq<Source>): (r: seq<Column>) {
    if sources == [] then []
    else (if Visible(ref, sources[0]) && !Names(ref, sources[0].alias, sources[0].database) then sources[0].columns else [])
         + StrayScope(ref, sources[1..])
  }

  lemma {:induction false} ScopeSplits(ref: Ref, sources: seq<Source>)
    ensures multiset(HitOrigins(ref, InScope(ref, sources)))
            == multiset(HitOrigins(ref, NamedScope(ref, sources))) + multiset(HitOrigins(ref, StrayScope(ref, sources)))
  {
    if sources != [] {
      var s, rest := sources[0], sources[1..];
      var named := Names(ref, s.alias, s.database);
      assert named ==> Visible(ref, s);
      var all := if Visible(ref, s) then s.columns else [];
      var mine := if named then s.columns else [];
      var stray := if Visible(ref, s) && !named then s.columns else [];
      ScopeSplits(ref, rest);
      HeadHits(ref, all, InScope(ref, rest));
      HeadHits(ref, mine, NamedScope(ref, rest));
      HeadHits(ref, stray, StrayScope(ref, rest));
      assert HitOrigins(ref, []) == [];
      assert multiset(HitOrigins(ref, all)) == multiset(HitOrigins(ref, mine)) + multiset(HitOrigins(ref, stray));
    }
  }

  lemma {:induction false} ScopesExact(ref: Ref, ss: seq<Source>, ts: seq<TracedSource>)
    requires SourcesExact(ss, ts)
    ensures AllExact(NamedScope(ref, ss), Candidates(ref, ts)) && AllExact(StrayScope(ref, ss), Strays(ref, ts))
  {
    if ss != [] {
      assert SourceExact(ss[0], ts[0]);
      assert Visible(ref, ss[0]) == Visible(ref, Heading(ts[0]));
      ScopesExact(ref, ss[1..], ts[1..]);
    }
  }

  lemma {:induction false} NoHits(ref: Ref, columns: seq<Column>)
    requires forall j :: 0 <= j < |columns| ==> !Hits(ref, columns[j])
    ensures HitOrigins(ref, columns) == []
  {
    if columns != [] {
      NoHits(ref, columns[1..]);
    }
  }

  lemma {:induction false} OneHit(ref: Ref, columns: seq<Column>, k: nat)
    requires k < |columns| && Hits(ref, columns[k])
    requires forall j :: 0 <= j < |columns| && j != k ==> !Hits(ref, columns[j])
    ensures HitOrigins(ref, columns) == [columns[k].origin]
  {
    if k == 0 {
      NoHits(ref, columns[1..]);
    } else {
      OneHit(ref, columns[1..], k - 1);
    }
  }

  lemma {:induction false} HitCount(ref: Ref, columns: seq<Column>, k: nat)
    requires k < |columns| && Hits(ref, columns[k])
    ensures |HitOrigins(ref, columns)| >= 1
  {
    if k > 0 {
      HitCount(ref, columns[1..], k - 1);
    }
  }

  lemma {:induction false} TwoHits(ref: Ref, columns: seq<Column>, j: nat, k: nat)
    requires j < k < |columns| && Hits(ref, columns[j]) && Hits(ref, columns[k])
    ensures |HitOrigins(ref, columns)| >= 2
  {
    if j == 0 {
      HitCount(ref, columns[1..], k - 1);
    } else {
      TwoHits(ref, columns[1..], j - 1, k - 1);
    }
  }

  /** A column hits a reference by its exported name or by its base column's name. */
  lemma HitsTraced(ref: Ref, c: Column, t: Traced)
    requires Exact(c, t) && ref.name != ""
    ensures Hits(ref, c) <==> SameFold(ref.name, t.name) || HiddenHit(ref, t)
  {
    assert |Fold(ref.name)| == |ref.name|;
    if |t.bases| == 1 {
      SingleBase(c, t);
    }
  }

  /** One column of the named sources hits, and none of the strays: the reference is found. */
  lemma FoundWhenOneHit(ref: Ref, ss: seq<Source>, k: nat)
    requires k < |NamedScope(ref, ss)| && Hits(ref, NamedScope(ref, ss)[k])
    requires forall j :: 0 <= j < |NamedScope(ref, ss)| && j != k ==> !Hits(ref, NamedScope(ref, ss)[j])
    requires forall j :: 0 <= j < |StrayScope(ref, ss)| ==> !Hits(ref, StrayScope(ref, ss)[j])
    ensures ResolveRef(ref, ss) == Some(NamedScope(ref, ss)[k].origin)
  {
    ScopeSplits(ref, ss);
    OneHit(ref, NamedScope(ref, ss), k);
    NoHits(ref, StrayScope(ref, ss));
    var matches, o := HitOrigins(ref, InScope(ref, ss)), NamedScope(ref, ss)[k].origin;
    assert multiset(matches) == multiset{o};
    assert |matches| == |multiset(matches)| == 1;
    assert matches[0] in multiset(matches);
  }

  /** A second hit, among the named sources or the strays: the reference is dropped. */
  lemma DroppedWhenTwoHits(ref: Ref, ss: seq<Source>, k: nat)
    requires k < |NamedScope(ref, ss)| && Hits(ref, NamedScope(ref, ss)[k])
    requires || (exists j :: 0 <= j < |NamedScope(ref, ss)| && j != k && Hits(ref, NamedScope(ref, ss)[j]))
             || (exists j :: 0 <= j < |StrayScope(ref, ss)| && Hits(ref, StrayScope(ref, ss)[j]))
    ensures ResolveRef(ref, ss) == None
  {
    ScopeSplits(ref, ss);
    var named, stray := NamedScope(ref, ss), StrayScope(ref, ss);
    if j :| 0 <= j < |named| && j != k && Hits(ref, named[j]) {
      TwoHits(ref, named, if j < k then j else k, if j < k then k else j);
    } else {
      var j :| 0 <= j < |stray| && Hits(ref, stray[j]);
      HitCount(ref, named, k);
      HitCount(ref, stray, j);
    }
    var matches := HitOrigins(ref, InScope(ref, ss));
    assert |matches| == |multiset(matches)| == |multiset(HitOrigins(ref, named))| + |multiset(HitOrigins(ref, stray))|;
  }

  /** For a reference with one meaning in SQL, the resolver finds the column meant if and only if no
      other candidate reads a base column of the same name and no column of a source it should not
      consider matches; otherwise it drops the reference. */
  lemma ReferenceFoundIff(ref: Ref, ss: seq<Source>, ts: seq<TracedSource>, k: nat)
    requires SourcesExact(ss, ts) && ref.name != "" && OnlyMatch(ref, ts, k)
    ensures |NamedScope(ref, ss)| == |Candidates(ref, ts)|
    ensures Undisturbed(ref, ts, k) <==> ResolveRef(ref, ss) == Some(NamedScope(ref, ss)[k].origin)
    ensures ResolveRef(ref, ss) == Some(NamedScope(ref, ss)[k].origin) || ResolveRef(ref, ss) == None
  {
    ScopesExact(ref, ss, ts);
    var named, stray := NamedScope(ref, ss), StrayScope(ref, ss);
    var cands, strays := Candidates(ref, ts), Strays(ref, ts);
    forall j | 0 <= j < |named| ensures Hits(ref, named[j]) <==> NameMatches(ref, cands[j]) || HiddenHit(ref, cands[j]) {
      HitsTraced(ref, named[j], cands[j]);
    }
    forall j | 0 <= j < |stray| ensures Hits(ref, stray[j]) <==> NameMatches(ref, strays[j]) || HiddenHit(ref, strays[j]) {
      HitsTraced(ref, stray[j], strays[j]);
    }
    if Undisturbed(ref, ts, k) {
      FoundWhenOneHit(ref, ss, k);
    } else {
      DisturbedHits(ref, ss, ts, k);
      DroppedWhenTwoHits(ref, ss, k);
    }
  }

  lemma DisturbedHits(ref: Ref, ss: seq<Source>, ts: seq<TracedSource>, k: nat)
    requires |NamedScope(ref, ss)| == |Candidates(ref, ts)| && |StrayScope(ref, ss)| == |Strays(ref, ts)| && !Undisturbed(ref, ts, k)
    requires forall j :: 0 <= j < |NamedScope(ref, ss)| && HiddenHit(ref, Candidates(ref, ts)[j]) ==> Hits(ref, NamedScope(ref, ss)[j])
    requires forall j :: 0 <= j < |StrayScope(ref, ss)| && (NameMatches(ref, Strays(ref, ts)[j]) || HiddenHit(ref, Strays(ref, ts)[j]))
               ==> Hits(ref, StrayScope(ref, ss)[j])
    ensures || (exists j :: 0 <= j < |NamedScope(ref, ss)| && j != k && Hits(ref, NamedScope(ref, ss)[j]))
            || (exists j :: 0 <= j < |StrayScope(ref, ss)| && Hits(ref, StrayScope(ref, ss)[j]))
  {
    if j :| 0 <= j < |Candidates(ref, ts)| && j != k && HiddenHit(ref, Candidates(ref, ts)[j]) {
      assert Hits(ref, NamedScope(ref, ss)[j]);
    } else {
      var j :| 0 <= j < |Strays(ref, ts)| && (NameMatches(ref, Strays(ref, ts)[j]) || HiddenHit(ref, Strays(ref, ts)[j]));
      assert Hits(ref, StrayScope(ref, ss)[j]);
    }
  }

  lemma UnambiguousResolves(ref: Ref, ss: seq<Source>, ts: seq<TracedSource>)
    requires SourcesExact(ss, ts) && Unambiguous(ref, ts)
    ensures ResolveRef(ref, ss).Some?
    ensures ResolveRef(ref, ss).value.column != ""
    ensures TraceRef(ref, ts) == {Key(ResolveRef(ref, ss).value)}
  {
    var cands := Candidates(ref, ts);
    var k :| 0 <= k < |cands| && OnlyMatch(ref, ts, k) && |cands[k].bases| == 1 && Undisturbed(ref, ts, k);
    ScopesExact(ref, ss, ts);
    ReferenceFoundIff(ref, ss, ts, k);
    SingleBase(NamedScope(ref, ss)[k], cands[k]);
    TraceOfOnlyMatch(ref, ts, k);
  }

  lemma TraceOfOnlyMatch(ref: Ref, ts: seq<TracedSource>, k: nat)
    requires OnlyMatch(ref, ts, k)
    ensures TraceRef(ref, ts) == Candidates(ref, ts)[k].bases
  {
  }

  // ----- expressions and fields -----

  /** The collected origins are the traced base columns, each once. */
  predicate Collects(origins: seq<Origin>, bases: set<Base>) {
    Keys(origins) == bases && |origins| == |bases| && forall i :: 0 <= i < |origins| ==> origins[i].column != ""
  }

  lemma CollectsOneMore(front: seq<Origin>, bases: set<Base>, o: Origin, r: seq<Origin>)
    requires Collects(front, bases) && o.column != "" && r == if Key(o) in Keys(front) then front else front + [o]
    ensures Collects(r, bases + {Key(o)})
  {
    if Key(o) in Keys(front) {
      assert bases + {Key(o)} == bases;
    } else {
      KeysAppend(front, o);
    }
  }

  lemma {:induction false} CollectExact(refs: seq<Ref>, ss: seq<Source>, ts: seq<TracedSource>)
    requires SourcesExact(ss, ts)
    requires forall i :: 0 <= i < |refs| ==> Unambiguous(refs[i], ts)
    ensures Collects(Collect(refs, ss), TraceRefs(refs, ts))
  {
    if refs != [] {
      var n := |refs| - 1;
      CollectExact(refs[..n], ss, ts);
      UnambiguousResolves(refs[n], ss, ts);
      CollectsOneMore(Collect(refs[..n], ss), TraceRefs(refs[..n], ts), ResolveRef(refs[n], ss).value, Collect(refs, ss));
    }
  }

  lemma {:induction false} FlattenExact(ss: seq<Source>, ts: seq<TracedSource>)
    requires SourcesExact(ss, ts)
    ensures AllExact(Flatten(ss), AllColumns(ts))
  {
    if ss != [] {
      assert SourceExact(ss[0], ts[0]);
      FlattenExact(ss[1..], ts[1..]);
    }
  }

  function NamedCovered(schema: string, table: string, sources: seq<Source>): (r: seq<Column>) {
    if sources == [] then []
    else (if StarNames(schema, table, sources[0].alias, sources[0].database) then sources[0].columns else [])
         + NamedCovered(schema, table, sources[1..])
  }

  function StrayCovered(schema: string, table: string, sources: seq<Source>): (r: seq<Column>) {
    if sources == [] then []
    else (if WildcardCovers(schema, table, sources[0]) && !StarNames(schema, table, sources[0].alias, sources[0].database)
          then sources[0].columns else [])
         + StrayCovered(schema, table, sources[1..])
  }

  /** The resolver's trimming of names loses none of the sources SQL means. */
  lemma StarNamesIsCovered(schema: string, table: string, source: Source)
    requires StarNames(schema, table, source.alias, source.database)
    ensures WildcardCovers(schema, table, source)
  {
    FoldTrim(table);
    FoldTrim(source.alias);
    FoldTrim(schema);
    FoldTrim(source.database);
  }

  lemma {:induction false} CoveredSplits(schema: string, table: string, sources: seq<Source>)
    ensures |Covered(schema, table, sources)| == |NamedCovered(schema, table, sources)| + |StrayCovered(schema, table, sources)|
    ensures StrayCovered(schema, table, sources) == [] ==> Covered(schema, table, sources) == NamedCovered(schema, table, sources)
  {
    if sources != [] {
      CoveredSplits(schema, table, sources[1..]);
      if StarNames(schema, table, sources[0].alias, sources[0].database) {
        StarNamesIsCovered(schema, table, sources[0]);
      }
    }
  }

  lemma {:induction false} CoveredExact(schema: string, table: string, ss: seq<Source>, ts: seq<TracedSource>)
    requires SourcesExact(ss, ts)
    ensures AllExact(NamedCovered(schema, table, ss), StarColumns(schema, table, ts))
    ensures |StrayCovered(schema, table, ss)| == |StarStrays(schema, table, ts)|
  {
    if ss != [] {
      assert SourceExact(ss[0], ts[0]);
      assert WildcardCovers(schema, table, ss[0]) == WildcardCovers(schema, table, Heading(ts[0]));
      CoveredExact(schema, table, ss[1..], ts[1..]);
    }
  }

  /** A qualified wildcard gives exactly the columns SQL gives, if and only if no column of a source it
      should not stand for is among those the resolver takes. */
  lemma WildcardExactIff(schema: string, table: string, ss: seq<Source>, ts: seq<TracedSource>)
    requires SourcesExact(ss, ts)
    ensures AllExact(Covered(schema, table, ss), StarColumns(schema, table, ts)) <==> StarStrays(schema, table, ts) == []
  {
    CoveredSplits(schema, table, ss);
    CoveredExact(schema, table, ss, ts);
  }

  lemma FieldExact(f: Field, ss: seq<Source>, ts: seq<TracedSource>)
    requires SourcesExact(ss, ts) && TraceableField(f, ts) && ResolveField(f, ss).Ok?
    ensures AllExact(ResolveField(f, ss).value, TraceField(f, ts))
  {
    match f {
      case Auxiliary =>
      case Wildcard(schema, table) =>
        FlattenExact(ss, ts);
        WildcardExactIff(schema, table, ss, ts);
      case Output(asName, e) =>
        CollectExact(Refs(e), ss, ts);
        assert PlainName(asName, e) == OutputName(asName, e, OutputColumn(asName, e, ss).origin);
    }
  }

  lemma {:induction false} FieldsExact(fields: seq<Field>, ss: seq<Source>, ts: seq<TracedSource>)
    requires SourcesExact(ss, ts) && ResolveFields(fields, ss).Ok?
    requires forall i :: 0 <= i < |fields| ==> TraceableField(fields[i], ts)
    ensures AllExact(ResolveFields(fields, ss).value, TraceFields(fields, ts))
  {
    if fields != [] {
      FieldExact(fields[0], ss, ts);
      FieldsExact(fields[1..], ss, ts);
    }
  }

  // ----- queries -----

  lemma QueryExact(cat: Catalog, q: Query, env: Env, traced: TracedEnv)
    requires WellNamed(cat) && EnvExact(env, traced) && Traceable(cat, q, traced) && Resolve(cat, q, env).Ok?
    ensures AllExact(Resolve(cat, q, env).value, Trace(cat, q, traced))
    decreases q
  {
    CtesExact(cat, q.ctes, env, traced);
    var scope, tscope := ResolveCtes(cat, q.ctes, env).value, TraceCtes(cat, q.ctes, traced);
    NodeExact(cat, q.from, scope, tscope);
    FieldsExact(q.fields, ResolveNode(cat, q.from, scope).value, TraceNode(cat, q.from, tscope));
  }

  lemma {:induction false} CtesExact(cat: Catalog, ctes: seq<Cte>, env: Env, traced: TracedEnv)
    requires WellNamed(cat) && EnvExact(env, traced) && TraceableCtes(cat, ctes, traced) && ResolveCtes(cat, ctes, env).Ok?
    ensures EnvExact(ResolveCtes(cat, ctes, env).value, TraceCtes(cat, ctes, traced))
    decreases ctes
  {
    if ctes != [] {
      QueryExact(cat, ctes[0].body, env, traced);
      var n := Fold(ctes[0].name);
      var cs := ApplyAliases(Resolve(cat, ctes[0].body, env).value, ctes[0].columns);
      var ts := Rename(Trace(cat, ctes[0].body, traced), ctes[0].columns);
      assert AllExact(cs, ts);
      CtesExact(cat, ctes[1..], env[n := cs], traced[n := ts]);
    }
  }

  lemma NamedExact(cat: Catalog, node: Node, env: Env, traced: TracedEnv)
    requires WellNamed(cat) && EnvExact(env, traced) && node.Named? && ResolveNode(cat, node, env).Ok?
    ensures SourcesExact(ResolveNode(cat, node, env).value, TraceNode(cat, node, traced))
  {
    if node.schema == "" && Fold(node.name) in env {
      assert AllExact(env[Fold(node.name)], traced[Fold(node.name)]);
    } else {
      var database := Or(node.schema, cat.defaultDatabase);
      var names := cat.load(database, node.name).value;
      var cs, ts := BaseColumns(database, node.name, names), TraceBase(database, node.name, names);
      forall i | 0 <= i < |names| ensures Exact(cs[i], ts[i]) {
        KeysAppend([], cs[i].origin);
        assert [] + [cs[i].origin] == cs[i].deps;
      }
    }
  }

  lemma JoinedExact(ls: seq<Source>, rs: seq<Source>, lt: seq<TracedSource>, rt: seq<TracedSource>)
    requires SourcesExact(ls, lt) && SourcesExact(rs, rt)
    ensures SourcesExact(ls + rs, lt + rt) && AllExact(Flatten(ls + rs), AllColumns(lt + rt))
  {
    FlattenExact(ls + rs, lt + rt);
  }

  lemma DerivedExact(columns: seq<Column>, traced: seq<Traced>, alias: string, names: seq<string>)
    requires AllExact(columns, traced)
    ensures SourcesExact([Source(alias, alias, "", ApplyAliases(columns, names))], [TracedSource(alias, alias, "", Rename(traced, names))])
  {
    assert AllExact(ApplyAliases(columns, names), Rename(traced, names));
  }

  lemma {:induction false} NodeExact(cat: Catalog, node: Node, env: Env, traced: TracedEnv)
    requires WellNamed(cat) && EnvExact(env, traced) && TraceableNode(cat, node, traced) && ResolveNode(cat, node, env).Ok?
    ensures SourcesExact(ResolveNode(cat, node, env).value, TraceNode(cat, node, traced))
    decreases node
  {
    match node {
      case Absent =>
      case OtherNode =>
      case Named(_, _, _, _) => NamedExact(cat, node, env, traced);
      case Derived(query, asName, names) =>
        QueryExact(cat, query, env, traced);
        DerivedExact(Resolve(cat, query, env).value, Trace(cat, query, traced), Or(asName, "derived"), names);
      case Join(left, right) =>
        NodeExact(cat, left, env, traced);
        NodeExact(cat, right, env, traced);
        JoinedExact(ResolveNode(cat, left, env).value, ResolveNode(cat, right, env).value,
                    TraceNode(cat, left, traced), TraceNode(cat, right, traced));
      case Grouped(left, right, asName, names) =>
        NodeExact(cat, left, env, traced);
        NodeExact(cat, right, env, traced);
        var ls, rs := ResolveNode(cat, left, env).value, ResolveNode(cat, right, env).value;
        var lt, rt := TraceNode(cat, left, traced), TraceNode(cat, right, traced);
        JoinedExact(ls, rs, lt, rt);
        DerivedExact(Flatten(ls + rs), AllColumns(lt + rt), Or(asName, "join"), names);
    }
  }

  /** For a traceable query the resolver's columns are the traced ones: each column's dependencies
      are exactly the base columns its references reach, and its origin is set if and only if
      there is exactly one, and then is that one. */
  lemma LineageIsExact(cat: Catalog, q: Query, i: nat)
    requires WellNamed(cat) && Traceable(cat, q, map[]) && Resolve(cat, q, map[]).Ok?
    requires i < |Resolve(cat, q, map[]).value|
    ensures |Resolve(cat, q, map[]).value| == |Trace(cat, q, map[])|
    ensures var c, t := Resolve(cat, q, map[]).value[i], Trace(cat, q, map[])[i];
      && c.name == t.name
      && Keys(c.deps) == t.bases && |c.deps| == |t.bases|
      && (c.origin != NO_ORIGIN <==> |t.bases| == 1)
      && (c.origin != NO_ORIGIN ==> t.bases == {Key(c.origin)})
  {
    QueryExact(cat, q, map[], map[]);
    var c, t := Resolve(cat, q, map[]).value[i], Trace(cat, q, map[])[i];
    if |t.bases| == 1 {
      SingleBase(c, t);
    }
  }

  // ----- queries the resolver gets wrong -----

  lemma OneOutput(f: Field, sources: seq<Source>)
    requires f.Output?
    ensures ResolveFields([f], sources) == Ok([OutputColumn(f.asName, f.expr, sources)])
  {
    assert [f][1..] == [];
    var c := OutputColumn(f.asName, f.expr, sources);
    assert [c] + [] == [c];
  }

  lemma DroppedOutput(asName: string, ref: Ref, sources: seq<Source>)
    requires ResolveRef(ref, sources) == None
    ensures ResolveFields([Output(asName, ColumnName(ref))], sources)
            == Ok([Column(if asName == "" then ref.name else asName, NO_ORIGIN, [])])
  {
    assert [ref][..0] == [];
    assert Collect([ref], sources) == [];
    OneOutput(Output(asName, ColumnName(ref)), sources);
  }

  /** Column x of table e, and e itself, as loaded. */
  function BaseColumn(cat: Catalog, table: string, name: string): Column {
    var o := Origin(cat.defaultDatabase, "", table, name);
    Column(name, o, [o])
  }

  lemma LoadOne(cat: Catalog, table: string, alias: string)
    requires cat.load(cat.defaultDatabase, table) == Some(["x"])
    ensures ResolveNode(cat, Named("", table, alias, []), map[])
            == Ok([Source(Or(alias, table), table, cat.defaultDatabase, [BaseColumn(cat, table, "x")])])
    ensures TraceNode(cat, Named("", table, alias, []), map[])
            == [TracedSource(Or(alias, table), table, cat.defaultDatabase, [Traced("x", {(Fold(cat.defaultDatabase), Fold(table), Fold("x"))})])]
  {
    assert BaseColumns(cat.defaultDatabase, table, ["x"]) == [BaseColumn(cat, table, "x")];
    assert TraceBase(cat.defaultDatabase, table, ["x"]) == [Traced("x", {(Fold(cat.defaultDatabase), Fold(table), Fold("x"))})];
  }

  /** FROM e JOIN e AS m */
  const SELF_JOIN := Join(Named("", "e", "", []), Named("", "e", "m", []))

  lemma SelfJoinSources(cat: Catalog)
    requires cat.load(cat.defaultDatabase, "e") == Some(["x"])
    ensures var x, t := BaseColumn(cat, "e", "x"), Traced("x", {(Fold(cat.defaultDatabase), Fold("e"), Fold("x"))});
            && ResolveNode(cat, SELF_JOIN, map[])
               == Ok([Source("e", "e", cat.defaultDatabase, [x]), Source("m", "e", cat.defaultDatabase, [x])])
            && TraceNode(cat, SELF_JOIN, map[])
               == [TracedSource("e", "e", cat.defaultDatabase, [t]), TracedSource("m", "e", cat.defaultDatabase, [t])]
  {
    LoadOne(cat, "e", "");
    LoadOne(cat, "e", "m");
    var x, t := BaseColumn(cat, "e", "x"), Traced("x", {(Fold(cat.defaultDatabase), Fold("e"), Fold("x"))});
    var a, b := Source("e", "e", cat.defaultDatabase, [x]), Source("m", "e", cat.defaultDatabase, [x]);
    var c, d := TracedSource("e", "e", cat.defaultDatabase, [t]), TracedSource("m", "e", cat.defaultDatabase, [t]);
    assert [a] + [b] == [a, b] && [c] + [d] == [c, d];
  }

  lemma TwoSources(a: Source, b: Source, ref: Ref)
    requires Visible(ref, a) && Visible(ref, b)
    ensures InScope(ref, [a, b]) == a.columns + b.columns
  {
    assert [a, b][1..] == [b] && [b][1..] == [];
    assert InScope(ref, [b]) == b.columns + [];
    assert b.columns + [] == b.columns;
  }

  lemma FirstOfTwoTraced(a: TracedSource, b: TracedSource, ref: Ref)
    requires Names(ref, a.alias, a.database) && !Names(ref, b.alias, b.database)
    ensures Candidates(ref, [a, b]) == a.columns
  {
    assert [a, b][1..] == [b] && [b][1..] == [];
    assert Candidates(ref, [b]) == [];
    assert a.columns + [] == a.columns;
  }

  /** SELECT e.x AS y FROM e JOIN e AS m: SQL reads e.x, the resolver drops the reference. */
  lemma SelfJoinDropsReference(cat: Catalog)
    requires cat.load(cat.defaultDatabase, "e") == Some(["x"])
    ensures var q := Select([], SELF_JOIN, [Output("y", ColumnName(Ref("", "e", "x")))]);
            && Resolve(cat, q, map[]) == Ok([Column("y", NO_ORIGIN, [])])
            && Trace(cat, q, map[]) == [Traced("y", {(Fold(cat.defaultDatabase), Fold("e"), Fold("x"))})]
  {
    var ref, db := Ref("", "e", "x"), cat.defaultDatabase;
    var x, t := BaseColumn(cat, "e", "x"), Traced("x", {(Fold(db), Fold("e"), Fold("x"))});
    var a, b := Source("e", "e", db, [x]), Source("m", "e", db, [x]);
    SelfJoinSources(cat);
    TwoSources(a, b, ref);
    TwoHits(ref, InScope(ref, [a, b]), 0, 1);
    DroppedOutput("y", ref, [a, b]);
    SelfJoinTrace(db, ref, t);
  }

  lemma SelfJoinTrace(db: string, ref: Ref, t: Traced)
    requires ref == Ref("", "e", "x") && t.name == "x"
    ensures var ts := [TracedSource("e", "e", db, [t]), TracedSource("m", "e", db, [t])];
            TraceFields([Output("y", ColumnName(ref))], ts) == [Traced("y", t.bases)]
  {
    var a, b := TracedSource("e", "e", db, [t]), TracedSource("m", "e", db, [t]);
    assert Fold("e")[0] == 'e' && Fold("m")[0] == 'm';
    FirstOfTwoTraced(a, b, ref);
    assert OnlyMatch(ref, [a, b], 0);
    TraceOfOnlyMatch(ref, [a, b], 0);
    assert [ref][..0] == [];
    assert TraceRefs([ref], [a, b]) == t.bases;
    var f := Output("y", ColumnName(ref));
    assert [f][1..] == [];
    assert TraceField(f, [a, b]) == [Traced("y", t.bases)];
    assert TraceFields([f], [a, b]) == [Traced("y", t.bases)] + [];
  }

  lemma CoveredTwice(a: Source, b: Source, table: string)
    requires WildcardCovers("", table, a) && WildcardCovers("", table, b)
    ensures Covered("", table, [a, b]) == a.columns + b.columns
  {
    assert [a, b][1..] == [b] && [b][1..] == [];
    assert Covered("", table, [b]) == b.columns + [];
    assert b.columns + [] == b.columns;
  }

  lemma StarOnce(a: TracedSource, b: TracedSource, table: string)
    requires StarNames("", table, a.alias, a.database) && !StarNames("", table, b.alias, b.database)
    ensures StarColumns("", table, [a, b]) == a.columns
  {
    assert [a, b][1..] == [b] && [b][1..] == [];
    assert StarColumns("", table, [b]) == [];
    assert a.columns + [] == a.columns;
  }

  lemma OneWildcard(table: string, ss: seq<Source>, ts: seq<TracedSource>)
    requires table != "" && Covered("", table, ss) != []
    ensures ResolveFields([Wildcard("", table)], ss) == Ok(Covered("", table, ss))
    ensures TraceFields([Wildcard("", table)], ts) == StarColumns("", table, ts)
  {
    var f := Wildcard("", table);
    assert [f][1..] == [];
    assert Covered("", table, ss) + [] == Covered("", table, ss);
    assert StarColumns("", table, ts) + [] == StarColumns("", table, ts);
  }

  /** SELECT e.* FROM e JOIN e AS m: SQL gives the columns of e once, the resolver twice. */
  lemma SelfJoinDoublesWildcard(cat: Catalog)
    requires cat.load(cat.defaultDatabase, "e") == Some(["x"])
    ensures var q, x := Select([], SELF_JOIN, [Wildcard("", "e")]), BaseColumn(cat, "e", "x");
            Resolve(cat, q, map[]) == Ok([x] + [x]) && |Trace(cat, q, map[])| == 1
  {
    var db := cat.defaultDatabase;
    var x, t := BaseColumn(cat, "e", "x"), Traced("x", {(Fold(db), Fold("e"), Fold("x"))});
    var a, b := Source("e", "e", db, [x]), Source("m", "e", db, [x]);
    var c, d := TracedSource("e", "e", db, [t]), TracedSource("m", "e", db, [t]);
    SelfJoinSources(cat);
    CoveredTwice(a, b, "e");
    assert Fold("e")[0] == 'e' && Fold("m")[0] == 'm';
    StarOnce(c, d, "e");
    OneWildcard("e", [a, b], [c, d]);
  }

  lemma TwoOutputs(f: Field, g: Field, sources: seq<Source>)
    requires f.Output? && g.Output?
    ensures ResolveFields([f, g], sources) == Ok([OutputColumn(f.asName, f.expr, sources), OutputColumn(g.asName, g.expr, sources)])
  {
    assert [f, g][1..] == [g];
    OneOutput(g, sources);
    var c, d := OutputColumn(f.asName, f.expr, sources), OutputColumn(g.asName, g.expr, sources);
    assert [c] + [d] == [c, d];
  }

  lemma FoundOutput(asName: string, ref: Ref, source: Source, k: nat)
    requires asName != "" && Visible(ref, source) && k < |source.columns| && Hits(ref, source.columns[k])
    requires forall j :: 0 <= j < |source.columns| && j != k ==> !Hits(ref, source.columns[j])
    ensures var o := source.columns[k].origin; OutputColumn(asName, ColumnName(ref), [source]) == Column(asName, o, [o])
  {
    assert [source][1..] == [] && source.columns + [] == source.columns;
    assert InScope(ref, [source]) == source.columns;
    OneHit(ref, source.columns, k);
    assert [ref][..0] == [];
    assert Collect([], [source]) == [] && Keys([]) == {};
    assert [] + [source.columns[k].origin] == [source.columns[k].origin];
    assert Collect([ref], [source]) == [source.columns[k].origin];
  }

  /** SELECT x AS a, a AS b FROM t */
  const RENAMING := Select([], Named("", "t", "", []), [Output("a", ColumnName(Ref("", "", "x"))), Output("b", ColumnName(Ref("", "", "a")))])

  lemma RenamingColumns(cat: Catalog)
    requires cat.load(cat.defaultDatabase, "t") == Some(["x", "a"])
    ensures var x, a := Origin(cat.defaultDatabase, "", "t", "x"), Origin(cat.defaultDatabase, "", "t", "a");
            Resolve(cat, RENAMING, map[]) == Ok([Column("a", x, [x]), Column("b", a, [a])])
  {
    var x, a := BaseColumn(cat, "t", "x"), BaseColumn(cat, "t", "a");
    var source := Source("t", "t", cat.defaultDatabase, [x, a]);
    assert BaseColumns(cat.defaultDatabase, "t", ["x", "a"]) == [x, a];
    assert ResolveNode(cat, RENAMING.from, map[]) == Ok([source]);
    assert Fold("x")[0] == 'x' && Fold("a")[0] == 'a';
    FoundOutput("a", Ref("", "", "x"), source, 0);
    FoundOutput("b", Ref("", "", "a"), source, 1);
    TwoOutputs(RENAMING.fields[0], RENAMING.fields[1], [source]);
  }

  /** SELECT a FROM (SELECT x AS a, a AS b FROM t) s: the reference is valid, but column b's base column
      is also called a, and the resolver drops the reference. */
  lemma RenamedColumnHidesReference(cat: Catalog)
    requires cat.load(cat.defaultDatabase, "t") == Some(["x", "a"])
    ensures Resolve(cat, Select([], Derived(RENAMING, "s", []), [Output("", ColumnName(Ref("", "", "a")))]), map[])
            == Ok([Column("a", NO_ORIGIN, [])])
  {
    var x, a := Origin(cat.defaultDatabase, "", "t", "x"), Origin(cat.defaultDatabase, "", "t", "a");
    var columns := [Column("a", x, [x]), Column("b", a, [a])];
    var s, ref := Source("s", "s", "", columns), Ref("", "", "a");
    RenamingColumns(cat);
    assert ApplyAliases(columns, []) == columns;
    assert ResolveNode(cat, Derived(RENAMING, "s", []), map[]) == Ok([s]);
    assert InScope(ref, [s]) == s.columns + InScope(ref, []);
    TwoHits(ref, InScope(ref, [s]), 0, 1);
    DroppedOutput("", ref, [s]);
  }
}
