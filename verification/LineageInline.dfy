/** A common table expression means what the same query means with the expression's body written
    as a derived table at every use. */
module LineageInline {
  import opened Text
  import opened Lineage

  // ----- what a query depends on -----

  /** The folded unqualified table names a query mentions. */
  function Mentions(q: Query): (r: set<string>)
    decreases q
  {
    MentionsCtes(q.ctes) + if q.Select? then MentionsNode(q.from) else MentionsOperands(q.operands)
  }

  function MentionsCtes(ctes: seq<Cte>): (r: set<string>)
    decreases ctes
  {
    if ctes == [] then {} else Mentions(ctes[0].body) + MentionsCtes(ctes[1..])
  }

  function MentionsNode(node: Node): (r: set<string>)
    decreases node
  {
    match node
    case Absent => {}
    case OtherNode => {}
    case Named(schema, name, _, _) => if schema == "" then {Fold(name)} else {}
    case Derived(query, _, _) => Mentions(query)
    case Join(left, right) => MentionsNode(left) + MentionsNode(right)
    case Grouped(left, right, _, _) => MentionsNode(left) + MentionsNode(right)
  }

  function MentionsOperand(op: Operand): (r: set<string>)
    decreases op
  {
    match op
    case Leaf(query) => Mentions(query)
    case OtherOperand => {}
    case Nested(items) => MentionsOperands(items)
  }

  function MentionsOperands(ops: seq<Operand>): (r: set<string>)
    decreases ops
  {
    if ops == [] then {} else MentionsOperand(ops[0]) + MentionsOperands(ops[1..])
  }

  ghost predicate Agree(names: set<string>, a: Env, b: Env) {
    forall n :: n in names ==> (n in a <==> n in b) && (n in a ==> a[n] == b[n])
  }

  ghost predicate AgreeResult(names: set<string>, a: Result<Env>, b: Result<Env>) {
    match (a, b)
    case (Ok(x), Ok(y)) => Agree(names, x, y)
    case (Err(e), Err(f)) => e == f
    case _ => false
  }

  /** A query's lineage depends on the scope only through the names the query mentions: a WITH
      clause elsewhere cannot change it. */
  lemma {:induction false} Frame(cat: Catalog, q: Query, a: Env, b: Env)
    requires Agree(Mentions(q), a, b)
    ensures Resolve(cat, q, a) == Resolve(cat, q, b)
    decreases q
  {
    FrameCtes(cat, q.ctes, a, b, Mentions(q));
    match ResolveCtes(cat, q.ctes, a) {
      case Err(_) =>
      case Ok(x) =>
        var y := ResolveCtes(cat, q.ctes, b).value;
        if q.Select? {
          FrameNode(cat, q.from, x, y);
        } else {
          FrameOperands(cat, q.operands, x, y);
        }
    }
  }

  lemma {:induction false} FrameCtes(cat: Catalog, ctes: seq<Cte>, a: Env, b: Env, names: set<string>)
    requires MentionsCtes(ctes) <= names && Agree(names, a, b)
    ensures AgreeResult(names, ResolveCtes(cat, ctes, a), ResolveCtes(cat, ctes, b))
    decreases ctes
  {
    if ctes != [] {
      Frame(cat, ctes[0].body, a, b);
      match Resolve(cat, ctes[0].body, a) {
        case Err(_) =>
        case Ok(columns) =>
          var n, v := Fold(ctes[0].name), ApplyAliases(columns, ctes[0].columns);
          FrameCtes(cat, ctes[1..], a[n := v], b[n := v], names);
      }
    }
  }

  lemma {:induction false} FrameNode(cat: Catalog, node: Node, a: Env, b: Env)
    requires Agree(MentionsNode(node), a, b)
    ensures ResolveNode(cat, node, a) == ResolveNode(cat, node, b)
    decreases node
  {
    match node {
      case Absent =>
      case OtherNode =>
      case Named(schema, name, _, _) =>
        assert schema == "" ==> Fold(name) in MentionsNode(node);
        assert ResolveNamed(cat, node, a) == ResolveNamed(cat, node, b);
      case Derived(query, _, _) => Frame(cat, query, a, b);
      case Join(left, right) => FrameNode(cat, left, a, b); FrameNode(cat, right, a, b);
      case Grouped(left, right, _, _) => FrameNode(cat, left, a, b); FrameNode(cat, right, a, b);
    }
  }

  lemma {:induction false} FrameOperand(cat: Catalog, op: Operand, a: Env, b: Env)
    requires Agree(MentionsOperand(op), a, b)
    ensures ResolveOperand(cat, op, a) == ResolveOperand(cat, op, b)
    decreases op
  {
    match op {
      case Leaf(query) => Frame(cat, query, a, b);
      case OtherOperand =>
      case Nested(items) => FrameOperands(cat, items, a, b);
    }
  }

  lemma {:induction false} FrameOperands(cat: Catalog, ops: seq<Operand>, a: Env, b: Env)
    requires Agree(MentionsOperands(ops), a, b)
    ensures ResolveOperands(cat, ops, a) == ResolveOperands(cat, ops, b)
    decreases ops
  {
    if ops != [] {
      FrameOperand(cat, ops[0], a, b);
      FrameOperands(cat, ops[1..], a, b);
    }
  }

  // ----- inlining one expression -----

  /** Column aliases given at a use on top of those of the expression itself. */
  function Overlay(inner: seq<string>, outer: seq<string>): (r: seq<string>) {
    seq(if |inner| < |outer| then |outer| else |inner|, i requires 0 <= i =>
      if i < |outer| && !Blank(outer[i]) then outer[i] else if i < |inner| then inner[i] else "")
  }

  lemma OverlayComposes(columns: seq<Column>, inner: seq<string>, outer: seq<string>)
    ensures ApplyAliases(ApplyAliases(columns, inner), outer) == ApplyAliases(columns, Overlay(inner, outer))
  {
    assert Blank("");
    var l, r := ApplyAliases(ApplyAliases(columns, inner), outer), ApplyAliases(columns, Overlay(inner, outer));
    forall i | 0 <= i < |columns| ensures l[i] == r[i] {
      assert i < |Overlay(inner, outer)| <==> i < |inner| || i < |outer|;
    }
  }

  predicate IsUse(c: Cte, schema: string, name: string) {
    schema == "" && SameFold(name, c.name)
  }

  function Inline(q: Query, c: Cte): (r: Query)
    ensures |r.ctes| == |q.ctes|
    ensures r.Select? == q.Select?
    decreases q
  {
    if q.Select? then Select(InlineCtes(q.ctes, c), InlineNode(q.from, c), q.fields)
    else SetOp(InlineCtes(q.ctes, c), InlineOperands(q.operands, c))
  }

  function InlineCtes(ctes: seq<Cte>, c: Cte): (r: seq<Cte>)
    ensures |r| == |ctes|
    decreases ctes
  {
    if ctes == [] then []
    else [Cte(ctes[0].name, Inline(ctes[0].body, c), ctes[0].columns)] + InlineCtes(ctes[1..], c)
  }

  function InlineNode(node: Node, c: Cte): (r: Node)
    decreases node
  {
    match node
    case Absent => node
    case OtherNode => node
    case Named(schema, name, asName, columnNames) =>
      if IsUse(c, schema, name) then Derived(c.body, Or(asName, name), Overlay(c.columns, columnNames)) else node
    case Derived(query, asName, columnNames) => Derived(Inline(query, c), asName, columnNames)
    case Join(left, right) => Join(InlineNode(left, c), InlineNode(right, c))
    case Grouped(left, right, asName, columnNames) =>
      Grouped(InlineNode(left, c), InlineNode(right, c), asName, columnNames)
  }

  function InlineOperand(op: Operand, c: Cte): (r: Operand)
    decreases op
  {
    match op
    case Leaf(query) => Leaf(Inline(query, c))
    case OtherOperand => op
    case Nested(items) => Nested(InlineOperands(items, c))
  }

  function InlineOperands(ops: seq<Operand>, c: Cte): (r: seq<Operand>)
    decreases ops
  {
    if ops == [] then [] else [InlineOperand(ops[0], c)] + InlineOperands(ops[1..], c)
  }

  // ----- when inlining is allowed -----

  /** A select whose FROM uses the expression under another alias must not qualify a column with
      the expression's own name: the resolver accepts that qualifier, a derived table has not got it. */
  predicate UsedUnderAlias(node: Node, c: Cte) {
    match node
    case Named(schema, name, asName, _) => IsUse(c, schema, name) && asName != ""
    case Join(left, right) => UsedUnderAlias(left, c) || UsedUnderAlias(right, c)
    case _ => false
  }

  predicate Qualifies(f: Field, c: Cte) {
    match f
    case Auxiliary => false
    case Wildcard(_, table) => SameFold(Trim(table), Trim(c.name))
    case Output(_, e) => exists i :: 0 <= i < |Refs(e)| && SameFold(Refs(e)[i].table, c.name)
  }

  /** No WITH inside the query rebinds the expression's name or a name its body mentions, and no
      select qualifies with the expression's name while using it under another alias. */
  predicate Clear(q: Query, c: Cte)
    decreases q
  {
    && ClearCtes(q.ctes, c)
    && if q.Select? then
         && ClearNode(q.from, c)
         && (UsedUnderAlias(q.from, c) ==> forall i :: 0 <= i < |q.fields| ==> !Qualifies(q.fields[i], c))
       else ClearOperands(q.operands, c)
  }

  predicate ClearCtes(ctes: seq<Cte>, c: Cte)
    decreases ctes
  {
    ctes != [] ==>
      && !SameFold(ctes[0].name, c.name)
      && Fold(ctes[0].name) !in Mentions(c.body)
      && Clear(ctes[0].body, c)
      && ClearCtes(ctes[1..], c)
  }

  predicate ClearNode(node: Node, c: Cte)
    decreases node
  {
    match node
    case Absent => true
    case OtherNode => true
    case Named(_, _, _, _) => true
    case Derived(query, _, _) => Clear(query, c)
    case Join(left, right) => ClearNode(left, c) && ClearNode(right, c)
    case Grouped(left, right, _, _) => ClearNode(left, c) && ClearNode(right, c)
  }

  predicate ClearOperand(op: Operand, c: Cte)
    decreases op
  {
    match op
    case Leaf(query) => Clear(query, c)
    case OtherOperand => true
    case Nested(items) => ClearOperands(items, c)
  }

  predicate ClearOperands(ops: seq<Operand>, c: Cte)
    decreases ops
  {
    ops == [] || (ClearOperand(ops[0], c) && ClearOperands(ops[1..], c))
  }

  // ----- inlining preserves lineage -----

  /** `a` binds the expression to what its body resolves to in `b`; otherwise they are the same. */
  ghost predicate Related(cat: Catalog, c: Cte, a: Env, b: Env) {
    && c.name != ""
    && Fold(c.name) in a
    && Resolve(cat, c.body, b).Ok?
    && a[Fold(c.name)] == ApplyAliases(Resolve(cat, c.body, b).value, c.columns)
    && forall n :: n != Fold(c.name) ==> (n in a <==> n in b) && (n in a ==> a[n] == b[n])
  }

  lemma RelatedExtends(cat: Catalog, c: Cte, a: Env, b: Env, n: string, v: seq<Column>)
    requires Related(cat, c, a, b)
    requires n != Fold(c.name) && n !in Mentions(c.body)
    ensures Related(cat, c, a[n := v], b[n := v])
  {
    Frame(cat, c.body, b, b[n := v]);
  }

  /** Sources that differ at most in the second name a use under an alias answers to. */
  predicate Alike(x: Source, y: Source, c: Cte) {
    && x.alias == y.alias && x.database == y.database && x.columns == y.columns
    && (x.table == y.table || (SameFold(x.table, c.name) && y.table == y.alias))
  }

  predicate AllAlike(xs: seq<Source>, ys: seq<Source>, c: Cte) {
    |xs| == |ys| && forall i :: 0 <= i < |xs| ==> Alike(xs[i], ys[i], c)
  }

  lemma {:induction false} AlikeInScope(ref: Ref, xs: seq<Source>, ys: seq<Source>, c: Cte)
    requires AllAlike(xs, ys, c) && !SameFold(ref.table, c.name)
    ensures InScope(ref, xs) == InScope(ref, ys)
  {
    if xs != [] {
      assert Alike(xs[0], ys[0], c);
      AlikeInScope(ref, xs[1..], ys[1..], c);
    }
  }

  lemma {:induction false} AlikeCollect(refs: seq<Ref>, xs: seq<Source>, ys: seq<Source>, c: Cte)
    requires AllAlike(xs, ys, c) && forall i :: 0 <= i < |refs| ==> !SameFold(refs[i].table, c.name)
    ensures Collect(refs, xs) == Collect(refs, ys)
  {
    if refs != [] {
      AlikeCollect(refs[..|refs| - 1], xs, ys, c);
      AlikeInScope(refs[|refs| - 1], xs, ys, c);
    }
  }

  lemma {:induction false} AlikeCovered(schema: string, table: string, xs: seq<Source>, ys: seq<Source>, c: Cte)
    requires AllAlike(xs, ys, c) && !SameFold(Trim(table), Trim(c.name))
    ensures Covered(schema, table, xs) == Covered(schema, table, ys)
  {
    if xs != [] {
      assert Alike(xs[0], ys[0], c);
      FoldTrim(xs[0].table);
      FoldTrim(c.name);
      AlikeCovered(schema, table, xs[1..], ys[1..], c);
    }
  }

  lemma {:induction false} AlikeFlatten(xs: seq<Source>, ys: seq<Source>, c: Cte)
    requires AllAlike(xs, ys, c)
    ensures Flatten(xs) == Flatten(ys)
  {
    if xs != [] {
      assert Alike(xs[0], ys[0], c);
      AlikeFlatten(xs[1..], ys[1..], c);
    }
  }

  lemma {:induction false} AlikeFields(fields: seq<Field>, xs: seq<Source>, ys: seq<Source>, c: Cte)
    requires AllAlike(xs, ys, c) && forall i :: 0 <= i < |fields| ==> !Qualifies(fields[i], c)
    ensures ResolveFields(fields, xs) == ResolveFields(fields, ys)
  {
    if fields != [] {
      assert !Qualifies(fields[0], c);
      match fields[0] {
        case Auxiliary =>
        case Wildcard(schema, table) =>
          AlikeFlatten(xs, ys, c);
          AlikeCovered(schema, table, xs, ys, c);
        case Output(_, e) =>
          AlikeCollect(Refs(e), xs, ys, c);
      }
      AlikeFields(fields[1..], xs, ys, c);
    }
  }

  ghost predicate AlikeResult(a: Result<seq<Source>>, b: Result<seq<Source>>, c: Cte) {
    match (a, b)
    case (Ok(x), Ok(y)) => AllAlike(x, y, c)
    case (Err(e), Err(f)) => e == f
    case _ => false
  }

  ghost predicate RelatedResult(cat: Catalog, c: Cte, a: Result<Env>, b: Result<Env>) {
    match (a, b)
    case (Ok(x), Ok(y)) => Related(cat, c, x, y)
    case (Err(e), Err(f)) => e == f
    case _ => false
  }

  lemma {:induction false} InlineQueryLineage(cat: Catalog, q: Query, c: Cte, a: Env, b: Env)
    requires Related(cat, c, a, b) && Clear(q, c)
    ensures Resolve(cat, q, a) == Resolve(cat, Inline(q, c), b)
    decreases q
  {
    InlineCtesLineage(cat, q.ctes, c, a, b);
    match ResolveCtes(cat, q.ctes, a) {
      case Err(_) =>
      case Ok(x) =>
        var y := ResolveCtes(cat, InlineCtes(q.ctes, c), b).value;
        if q.Select? {
          InlineNodeLineage(cat, q.from, c, x, y);
          match ResolveNode(cat, q.from, x) {
            case Err(_) =>
            case Ok(sources) =>
              if UsedUnderAlias(q.from, c) {
                AlikeFields(q.fields, sources, ResolveNode(cat, InlineNode(q.from, c), y).value, c);
              }
          }
        } else {
          InlineOperandsLineage(cat, q.operands, c, x, y);
        }
    }
  }

  lemma {:induction false} InlineCtesLineage(cat: Catalog, ctes: seq<Cte>, c: Cte, a: Env, b: Env)
    requires Related(cat, c, a, b) && ClearCtes(ctes, c)
    ensures RelatedResult(cat, c, ResolveCtes(cat, ctes, a), ResolveCtes(cat, InlineCtes(ctes, c), b))
    decreases ctes
  {
    if ctes != [] {
      var rest := InlineCtes(ctes, c);
      assert rest[1..] == InlineCtes(ctes[1..], c);
      InlineQueryLineage(cat, ctes[0].body, c, a, b);
      match Resolve(cat, ctes[0].body, a) {
        case Err(_) =>
        case Ok(columns) =>
          var n, v := Fold(ctes[0].name), ApplyAliases(columns, ctes[0].columns);
          RelatedExtends(cat, c, a, b, n, v);
          InlineCtesLineage(cat, ctes[1..], c, a[n := v], b[n := v]);
      }
    }
  }

  lemma InlineUseLineage(cat: Catalog, node: Node, c: Cte, a: Env, b: Env)
    requires Related(cat, c, a, b) && node.Named?
    ensures AlikeResult(ResolveNode(cat, node, a), ResolveNode(cat, InlineNode(node, c), b), c)
    ensures !UsedUnderAlias(node, c) ==> ResolveNode(cat, node, a) == ResolveNode(cat, InlineNode(node, c), b)
  {
    if IsUse(c, node.schema, node.name) {
      assert |node.name| == |Fold(node.name)| == |c.name|;
      OverlayComposes(Resolve(cat, c.body, b).value, c.columns, node.columnNames);
    } else {
      assert ResolveNamed(cat, node, a) == ResolveNamed(cat, node, b);
    }
  }

  /** Joins of alike sources are alike, joined side by side or grouped into one source. */
  lemma JoinedAlike(l: Result<seq<Source>>, l': Result<seq<Source>>, r: Result<seq<Source>>, r': Result<seq<Source>>, c: Cte)
    requires AlikeResult(l, l', c) && AlikeResult(r, r', c)
    ensures l.Ok? && r.Ok? ==> l'.Ok? && r'.Ok? && AllAlike(l.value + r.value, l'.value + r'.value, c)
                               && Flatten(l.value + r.value) == Flatten(l'.value + r'.value)
  {
    if l.Ok? && r.Ok? {
      AlikeFlatten(l.value + r.value, l'.value + r'.value, c);
    }
  }

  lemma {:induction false} InlineNodeLineage(cat: Catalog, node: Node, c: Cte, a: Env, b: Env)
    requires Related(cat, c, a, b) && ClearNode(node, c)
    ensures AlikeResult(ResolveNode(cat, node, a), ResolveNode(cat, InlineNode(node, c), b), c)
    ensures !UsedUnderAlias(node, c) ==> ResolveNode(cat, node, a) == ResolveNode(cat, InlineNode(node, c), b)
    decreases node
  {
    match node {
      case Absent =>
      case OtherNode =>
      case Named(_, _, _, _) => InlineUseLineage(cat, node, c, a, b);
      case Derived(query, _, _) => InlineQueryLineage(cat, query, c, a, b);
      case Join(left, right) =>
        InlineNodeLineage(cat, left, c, a, b);
        InlineNodeLineage(cat, right, c, a, b);
        JoinedAlike(ResolveNode(cat, left, a), ResolveNode(cat, InlineNode(left, c), b),
                    ResolveNode(cat, right, a), ResolveNode(cat, InlineNode(right, c), b), c);
      case Grouped(left, right, _, _) =>
        InlineNodeLineage(cat, left, c, a, b);
        InlineNodeLineage(cat, right, c, a, b);
        JoinedAlike(ResolveNode(cat, left, a), ResolveNode(cat, InlineNode(left, c), b),
                    ResolveNode(cat, right, a), ResolveNode(cat, InlineNode(right, c), b), c);
    }
  }

  lemma {:induction false} InlineOperandLineage(cat: Catalog, op: Operand, c: Cte, a: Env, b: Env)
    requires Related(cat, c, a, b) && ClearOperand(op, c)
    ensures ResolveOperand(cat, op, a) == ResolveOperand(cat, InlineOperand(op, c), b)
    decreases op
  {
    match op {
      case Leaf(query) => InlineQueryLineage(cat, query, c, a, b);
      case OtherOperand =>
      case Nested(items) => InlineOperandsLineage(cat, items, c, a, b);
    }
  }

  lemma {:induction false} InlineOperandsLineage(cat: Catalog, ops: seq<Operand>, c: Cte, a: Env, b: Env)
    requires Related(cat, c, a, b) && ClearOperands(ops, c)
    ensures ResolveOperands(cat, ops, a) == ResolveOperands(cat, InlineOperands(ops, c), b)
    decreases ops
  {
    if ops != [] {
      assert InlineOperands(ops, c)[1..] == InlineOperands(ops[1..], c);
      InlineOperandLineage(cat, ops[0], c, a, b);
      InlineOperandsLineage(cat, ops[1..], c, a, b);
    }
  }

  function WithCtes(q: Query, ctes: seq<Cte>): Query {
    if q.Select? then Select(ctes, q.from, q.fields) else SetOp(ctes, q.operands)
  }

  /** WITH c AS (body) query has the lineage of the query with the body inlined as a derived table
      under the use's alias and column names, wherever the query uses it: in later expressions, in
      nested queries, joins and set operands. */
  lemma WithEqualsInlined(cat: Catalog, q: Query, env: Env)
    requires q.ctes != [] && q.ctes[0].name != ""
    requires Resolve(cat, q.ctes[0].body, env).Ok?
    requires Clear(WithCtes(q, q.ctes[1..]), q.ctes[0])
    ensures Resolve(cat, q, env) == Resolve(cat, Inline(WithCtes(q, q.ctes[1..]), q.ctes[0]), env)
  {
    var c := q.ctes[0];
    var bound := env[Fold(c.name) := ApplyAliases(Resolve(cat, c.body, env).value, c.columns)];
    InlineQueryLineage(cat, WithCtes(q, q.ctes[1..]), c, bound, env);
  }

  /** All expressions of the list inlined, one after the other. */
  function InlineAll(q: Query): (r: Query)
    decreases |q.ctes|
  {
    if q.ctes == [] then q else InlineAll(Inline(WithCtes(q, q.ctes[1..]), q.ctes[0]))
  }

  /** The conditions under which each in turn may be. */
  ghost predicate AllClear(cat: Catalog, q: Query, env: Env)
    decreases |q.ctes|
  {
    q.ctes != [] ==>
      && q.ctes[0].name != "" && Resolve(cat, q.ctes[0].body, env).Ok? && Clear(WithCtes(q, q.ctes[1..]), q.ctes[0])
      && AllClear(cat, Inline(WithCtes(q, q.ctes[1..]), q.ctes[0]), env)
  }

  /** So a whole WITH list can be inlined: the result has no WITH of its own and the same lineage. */
  lemma {:induction false} WithListEqualsInlined(cat: Catalog, q: Query, env: Env)
    requires AllClear(cat, q, env)
    ensures InlineAll(q).ctes == [] && Resolve(cat, q, env) == Resolve(cat, InlineAll(q), env)
    decreases |q.ctes|
  {
    if q.ctes != [] {
      WithEqualsInlined(cat, q, env);
      WithListEqualsInlined(cat, Inline(WithCtes(q, q.ctes[1..]), q.ctes[0]), env);
    }
  }

  /** An expression whose body does not resolve fails the query under the expression's name, used or not. */
  lemma FailingBodyFails(cat: Catalog, q: Query, env: Env)
    requires q.ctes != [] && Resolve(cat, q.ctes[0].body, env).Err?
    ensures Resolve(cat, q, env) == Err(InCte(q.ctes[0].name, Resolve(cat, q.ctes[0].body, env).error))
  {
  }

  // ----- when exactly a qualified reference agrees -----

  /** The columns a reference ranges over only before inlining: those of uses under an alias, through
      the expression's own name. */
  function Extra(ref: Ref, xs: seq<Source>, ys: seq<Source>): (r: seq<Column>)
    requires |xs| == |ys|
  {
    if xs == [] then []
    else (if Visible(ref, xs[0]) && !Visible(ref, ys[0]) then xs[0].columns else []) + Extra(ref, xs[1..], ys[1..])
  }

  lemma ConcatHits(ref: Ref, all: seq<Column>, kept: seq<Column>, extra: seq<Column>, all': seq<Column>, kept': seq<Column>, extra': seq<Column>)
    requires multiset(HitOrigins(ref, all)) == multiset(HitOrigins(ref, kept)) + multiset(HitOrigins(ref, extra))
    requires multiset(HitOrigins(ref, all')) == multiset(HitOrigins(ref, kept')) + multiset(HitOrigins(ref, extra'))
    ensures multiset(HitOrigins(ref, all + all')) == multiset(HitOrigins(ref, kept + kept')) + multiset(HitOrigins(ref, extra + extra'))
  {
    HeadHits(ref, all, all');
    HeadHits(ref, kept, kept');
    HeadHits(ref, extra, extra');
  }

  function Seen(ref: Ref, s: Source): seq<Column> {
    if Visible(ref, s) then s.columns else []
  }

  lemma AlikeSeen(ref: Ref, x: Source, y: Source, c: Cte)
    requires Alike(x, y, c)
    ensures var extra := if Visible(ref, x) && !Visible(ref, y) then x.columns else [];
            multiset(HitOrigins(ref, Seen(ref, x))) == multiset(HitOrigins(ref, Seen(ref, y))) + multiset(HitOrigins(ref, extra))
  {
    assert Visible(ref, y) ==> Visible(ref, x);
    assert HitOrigins(ref, []) == [];
  }

  lemma {:induction false} AlikeScopeSplits(ref: Ref, xs: seq<Source>, ys: seq<Source>, c: Cte)
    requires AllAlike(xs, ys, c)
    ensures multiset(HitOrigins(ref, InScope(ref, xs)))
            == multiset(HitOrigins(ref, InScope(ref, ys))) + multiset(HitOrigins(ref, Extra(ref, xs, ys)))
  {
    if xs != [] {
      var extra := if Visible(ref, xs[0]) && !Visible(ref, ys[0]) then xs[0].columns else [];
      assert Alike(xs[0], ys[0], c);
      AlikeSeen(ref, xs[0], ys[0], c);
      AlikeRest(xs, ys, c);
      AlikeScopeSplits(ref, xs[1..], ys[1..], c);
      ConcatHits(ref, Seen(ref, xs[0]), Seen(ref, ys[0]), extra, InScope(ref, xs[1..]), InScope(ref, ys[1..]), Extra(ref, xs[1..], ys[1..]));
      assert InScope(ref, xs) == Seen(ref, xs[0]) + InScope(ref, xs[1..]);
      assert InScope(ref, ys) == Seen(ref, ys[0]) + InScope(ref, ys[1..]);
    }
  }

  lemma AlikeRest(xs: seq<Source>, ys: seq<Source>, c: Cte)
    requires AllAlike(xs, ys, c) && xs != []
    ensures AllAlike(xs[1..], ys[1..], c)
  {
  }

  /** With n matches through the expression's own name and m others: inlining loses nothing, or there
      are too many matches either way. */
  predicate Harmless(ref: Ref, xs: seq<Source>, ys: seq<Source>)
    requires |xs| == |ys|
  {
    var n, m := |HitOrigins(ref, Extra(ref, xs, ys))|, |HitOrigins(ref, InScope(ref, ys))|;
    n == 0 || m >= 2 || (m == 0 && n >= 2)
  }

  function Pick(matches: seq<Origin>): Option<Origin> {
    if |matches| == 1 then Some(matches[0]) else None
  }

  lemma PickAgreesIff(all: seq<Origin>, kept: seq<Origin>, extra: seq<Origin>)
    requires multiset(all) == multiset(kept) + multiset(extra)
    ensures Pick(all) == Pick(kept) <==> |extra| == 0 || |kept| >= 2 || (|kept| == 0 && |extra| >= 2)
  {
    assert |all| == |multiset(all)| == |kept| + |extra|;
    if |extra| == 0 && |all| == 1 {
      assert extra == [] && kept == [kept[0]];
      assert all[0] in multiset(kept);
    }
  }

  /** A reference resolves alike before and after inlining if and only if it is harmless. */
  lemma ReferenceAgreesIff(ref: Ref, xs: seq<Source>, ys: seq<Source>, c: Cte)
    requires AllAlike(xs, ys, c)
    ensures ResolveRef(ref, xs) == ResolveRef(ref, ys) <==> Harmless(ref, xs, ys)
  {
    AlikeScopeSplits(ref, xs, ys, c);
    PickAgreesIff(HitOrigins(ref, InScope(ref, xs)), HitOrigins(ref, InScope(ref, ys)), HitOrigins(ref, Extra(ref, xs, ys)));
  }

  /** A select item that is a plain column. */
  predicate IsPlain(f: Field) {
    f.Output? && f.expr.ColumnName?
  }

  lemma PlainColumn(f: Field, sources: seq<Source>)
    requires IsPlain(f)
    ensures var o := ResolveRef(f.expr.ref, sources);
            var origin := if o.Some? then o.value else NO_ORIGIN;
            ResolveField(f, sources)
            == Ok([Column(OutputName(f.asName, f.expr, origin), origin, if o.Some? then [o.value] else [])])
  {
    var ref := f.expr.ref;
    assert [ref][..0] == [];
    assert Collect([], sources) == [] && Keys([]) == {};
    var o := ResolveRef(ref, sources);
    if o.Some? {
      assert [] + [o.value] == [o.value];
      assert Collect([ref], sources) == [o.value];
    } else {
      assert Collect([ref], sources) == [];
    }
  }

  predicate HarmlessField(f: Field, xs: seq<Source>, ys: seq<Source>)
    requires |xs| == |ys|
  {
    IsPlain(f) ==> Harmless(f.expr.ref, xs, ys)
  }

  predicate AllHarmless(fields: seq<Field>, xs: seq<Source>, ys: seq<Source>)
    requires |xs| == |ys|
  {
    forall i :: 0 <= i < |fields| ==> HarmlessField(fields[i], xs, ys)
  }

  predicate AllPlain(fields: seq<Field>) {
    forall i :: 0 <= i < |fields| ==> IsPlain(fields[i])
  }

  lemma PlainFieldAgreesIff(f: Field, xs: seq<Source>, ys: seq<Source>, c: Cte)
    requires AllAlike(xs, ys, c) && IsPlain(f)
    ensures ResolveField(f, xs).Ok? && ResolveField(f, ys).Ok? && |ResolveField(f, xs).value| == |ResolveField(f, ys).value| == 1
    ensures ResolveField(f, xs) == ResolveField(f, ys) <==> HarmlessField(f, xs, ys)
  {
    PlainColumn(f, xs);
    PlainColumn(f, ys);
    ReferenceAgreesIff(f.expr.ref, xs, ys, c);
  }

  lemma {:induction false} PlainFieldsAgreeIff(fields: seq<Field>, xs: seq<Source>, ys: seq<Source>, c: Cte)
    requires AllAlike(xs, ys, c) && AllPlain(fields)
    ensures ResolveFields(fields, xs).Ok? && ResolveFields(fields, ys).Ok?
    ensures ResolveFields(fields, xs) == ResolveFields(fields, ys) <==> AllHarmless(fields, xs, ys)
  {
    if fields != [] {
      var f, rest := fields[0], fields[1..];
      PlainFieldAgreesIff(f, xs, ys, c);
      PlainFieldsAgreeIff(rest, xs, ys, c);
      FirstAndRest(ResolveField(f, xs).value, ResolveFields(rest, xs).value, ResolveField(f, ys).value, ResolveFields(rest, ys).value);
      AllOfFirstAndRest(fields, xs, ys);
    }
  }

  lemma FirstAndRest(a: seq<Column>, b: seq<Column>, a': seq<Column>, b': seq<Column>)
    requires |a| == |a'|
    ensures a + b == a' + b' <==> a == a' && b == b'
  {
    if a + b == a' + b' {
      assert a == (a + b)[..|a|] == (a' + b')[..|a'|] == a';
      assert b == (a + b)[|a|..] == (a' + b')[|a'|..] == b';
    }
  }

  lemma AllOfFirstAndRest(fields: seq<Field>, xs: seq<Source>, ys: seq<Source>)
    requires fields != [] && |xs| == |ys|
    ensures AllHarmless(fields, xs, ys) <==> HarmlessField(fields[0], xs, ys) && AllHarmless(fields[1..], xs, ys)
  {
    if HarmlessField(fields[0], xs, ys) && AllHarmless(fields[1..], xs, ys) {
      forall i | 0 <= i < |fields| ensures HarmlessField(fields[i], xs, ys) {
        assert i > 0 ==> fields[i] == fields[1..][i - 1];
      }
    }
    if AllHarmless(fields, xs, ys) {
      forall i | 0 <= i < |fields[1..]| ensures HarmlessField(fields[1..][i], xs, ys) {
        assert fields[1..][i] == fields[i + 1];
      }
    }
  }

  /** The environment a WITH list of one expression makes. */
  function Bound(cat: Catalog, c: Cte, env: Env): Env
    requires Resolve(cat, c.body, env).Ok?
  {
    env[Fold(c.name) := ApplyAliases(Resolve(cat, c.body, env).value, c.columns)]
  }

  /** For a select of plain columns, WITH and inlined form have the same lineage if and only if every
      reference is harmless among the sources of the FROM clause. */
  lemma WithEqualsInlinedIff(cat: Catalog, c: Cte, q: Query, env: Env, xs: seq<Source>, ys: seq<Source>)
    requires q.Select? && q.ctes == [c] && c.name != "" && Resolve(cat, c.body, env).Ok? && ClearNode(q.from, c)
    requires AllPlain(q.fields)
    requires ResolveNode(cat, q.from, Bound(cat, c, env)) == Ok(xs) && ResolveNode(cat, InlineNode(q.from, c), env) == Ok(ys)
    ensures |xs| == |ys|
    ensures Resolve(cat, q, env) == Resolve(cat, Inline(WithCtes(q, []), c), env)
            <==> AllHarmless(q.fields, xs, ys)
  {
    var bound := Bound(cat, c, env);
    InlineNodeLineage(cat, q.from, c, bound, env);
    PlainFieldsAgreeIff(q.fields, xs, ys, c);
    assert [c][1..] == [];
    assert ResolveCtes(cat, [c], env) == Ok(bound);
  }

  /** WITH c AS (SELECT x FROM t) SELECT c.x FROM c AS a JOIN u AS c: SQL reads u.x, and so does the
      resolver after inlining; before, it also finds t.x through the name of the expression behind
      the alias `a`, and drops the reference. */
  lemma QualifierUnderAliasDiffers(cat: Catalog, c: Cte, q: Query)
    requires cat.load(cat.defaultDatabase, "t") == Some(["x"]) && cat.load(cat.defaultDatabase, "u") == Some(["x"])
    requires c == Cte("c", Select([], Named("", "t", "", []), [Output("", ColumnName(Ref("", "", "x")))]), [])
    requires q == Select([c], Join(Named("", "c", "a", []), Named("", "u", "c", [])), [Output("", ColumnName(Ref("", "c", "x")))])
    ensures !Clear(WithCtes(q, []), c)
    ensures var o := Origin(cat.defaultDatabase, "", "u", "x");
      && Resolve(cat, q, map[]) == Ok([Column("x", NO_ORIGIN, [])])
      && Resolve(cat, Inline(WithCtes(q, []), c), map[]) == Ok([Column("x", o, [o])])
  {
    var o, p := Origin(cat.defaultDatabase, "", "t", "x"), Origin(cat.defaultDatabase, "", "u", "x");
    var x, y := Column("x", o, [o]), Column("x", p, [p]);
    BodyOfExample(cat, c, x);
    assert Fold("c")[0] == 'c' && Fold("a")[0] == 'a' && Fold("u")[0] == 'u';
    UseOfExample(cat, c, q, x, y);
    InlinedExample(cat, c, q, x, y);
    assert Qualifies(q.fields[0], c) by {
      assert Refs(q.fields[0].expr)[0] == Ref("", "c", "x");
    }
  }

  lemma BodyOfExample(cat: Catalog, c: Cte, x: Column)
    requires cat.load(cat.defaultDatabase, "t") == Some(["x"])
    requires c.body == Select([], Named("", "t", "", []), [Output("", ColumnName(Ref("", "", "x")))])
    requires x == Column("x", Origin(cat.defaultDatabase, "", "t", "x"), [Origin(cat.defaultDatabase, "", "t", "x")])
    ensures Resolve(cat, c.body, map[]) == Ok([x])
  {
    var base := Source("t", "t", cat.defaultDatabase, [x]);
    assert BaseColumns(cat.defaultDatabase, "t", ["x"]) == [x];
    assert ResolveNode(cat, c.body.from, map[]) == Ok([base]);
    OneColumn(Ref("", "", "x"), base, x);
    OneField(c.body.fields[0], [base]);
  }

  lemma OtherTableOfExample(cat: Catalog, y: Column, env: Env)
    requires cat.load(cat.defaultDatabase, "u") == Some(["x"]) && Fold("u") !in env
    requires y == Column("x", Origin(cat.defaultDatabase, "", "u", "x"), [Origin(cat.defaultDatabase, "", "u", "x")])
    ensures ResolveNode(cat, Named("", "u", "c", []), env) == Ok([Source("c", "u", cat.defaultDatabase, [y])])
  {
    assert BaseColumns(cat.defaultDatabase, "u", ["x"]) == [y];
  }

  lemma UseOfExample(cat: Catalog, c: Cte, q: Query, x: Column, y: Column)
    requires cat.load(cat.defaultDatabase, "u") == Some(["x"]) && Fold("c") != Fold("u")
    requires c.name == "c" && c.columns == [] && Resolve(cat, c.body, map[]) == Ok([x]) && x.name == "x"
    requires y == Column("x", Origin(cat.defaultDatabase, "", "u", "x"), [Origin(cat.defaultDatabase, "", "u", "x")])
    requires q == Select([c], Join(Named("", "c", "a", []), Named("", "u", "c", [])), [Output("", ColumnName(Ref("", "c", "x")))])
    ensures Resolve(cat, q, map[]) == Ok([Column("x", NO_ORIGIN, [])])
  {
    var env: Env := map[Fold("c") := [x]];
    var used, other, ref := Source("a", "c", "", [x]), Source("c", "u", cat.defaultDatabase, [y]), Ref("", "c", "x");
    assert ApplyAliases([x], []) == [x];
    assert ResolveCtes(cat, [c], map[]) == Ok(env) by {
      assert [c][1..] == [];
      assert map[][Fold("c") := [x]] == env;
    }
    assert ResolveNode(cat, Named("", "c", "a", []), env) == Ok([used]);
    OtherTableOfExample(cat, y, env);
    assert [used] + [other] == [used, other];
    assert ResolveNode(cat, q.from, env) == Ok([used, other]);
    TwoMatches(ref, used, other, x, y);
    PlainColumn(q.fields[0], [used, other]);
    OneField(q.fields[0], [used, other]);
  }

  lemma TwoMatches(ref: Ref, a: Source, b: Source, x: Column, y: Column)
    requires Visible(ref, a) && Visible(ref, b) && a.columns == [x] && b.columns == [y] && Hits(ref, x) && Hits(ref, y)
    ensures ResolveRef(ref, [a, b]) == None
  {
    assert [a, b][1..] == [b] && [b][1..] == [];
    assert InScope(ref, [b]) == [y] + [];
    assert InScope(ref, [a, b]) == [x] + ([y] + []);
    HitOriginsAppend(ref, [x], [y] + []);
    assert [y] + [] == [y] && [x][1..] == [] && [y][1..] == [];
    assert HitOrigins(ref, [x]) == [x.origin] + [] && HitOrigins(ref, [y]) == [y.origin] + [];
  }

  lemma InlinedExample(cat: Catalog, c: Cte, q: Query, x: Column, y: Column)
    requires cat.load(cat.defaultDatabase, "u") == Some(["x"]) && Fold("c") != Fold("a") && Fold("c") != Fold("u")
    requires c.name == "c" && c.columns == [] && Resolve(cat, c.body, map[]) == Ok([x])
    requires y == Column("x", Origin(cat.defaultDatabase, "", "u", "x"), [Origin(cat.defaultDatabase, "", "u", "x")])
    requires q == Select([c], Join(Named("", "c", "a", []), Named("", "u", "c", [])), [Output("", ColumnName(Ref("", "c", "x")))])
    ensures Resolve(cat, Inline(WithCtes(q, []), c), map[]) == Ok([y])
  {
    var used, other, ref := Source("a", "a", "", [x]), Source("c", "u", cat.defaultDatabase, [y]), Ref("", "c", "x");
    assert ApplyAliases([x], []) == [x];
    assert Overlay([], []) == [];
    var inlined := Inline(WithCtes(q, []), c);
    assert inlined.from == Join(Derived(c.body, "a", []), Named("", "u", "c", []));
    OtherTableOfExample(cat, y, map[]);
    assert [used] + [other] == [used, other];
    assert ResolveNode(cat, inlined.from, map[]) == Ok([used, other]);
    SecondMatches(ref, used, other, y);
    PlainColumn(q.fields[0], [used, other]);
    OneField(q.fields[0], [used, other]);
  }

  lemma SecondMatches(ref: Ref, a: Source, b: Source, y: Column)
    requires !Visible(ref, a) && Visible(ref, b) && b.columns == [y] && Hits(ref, y)
    ensures ResolveRef(ref, [a, b]) == Some(y.origin)
  {
    assert [a, b][1..] == [b] && [b][1..] == [];
    assert InScope(ref, [b]) == [y] + [];
    assert InScope(ref, [a, b]) == [] + ([y] + []);
    assert [] + ([y] + []) == [y] && [y][1..] == [];
    assert HitOrigins(ref, [y]) == [y.origin] + [];
  }

  lemma OneField(field: Field, sources: seq<Source>)
    ensures ResolveFields([field], sources) == ResolveField(field, sources)
  {
    assert [field][1..] == [];
    assert forall columns: seq<Column> :: columns + [] == columns;
  }

  lemma OneColumn(ref: Ref, source: Source, x: Column)
    requires Visible(ref, source) && source.columns == [x] && Hits(ref, x)
    ensures Collect([ref], [source]) == [x.origin]
  {
    assert InScope(ref, [source]) == [x] + InScope(ref, []);
    assert HitOrigins(ref, [x]) == [x.origin] + HitOrigins(ref, []);
    assert [ref][..0] == [];
    assert ResolveRef(ref, [source]) == Some(x.origin);
  }
}
