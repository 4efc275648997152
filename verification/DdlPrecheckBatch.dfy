/** The pre-check of a batch of DDL statements: derive the checks of each, read the metadata of all
    tables concerned at once, validate each statement and collect the clones of the valid ones. */
module DdlPrecheckBatch {
  import opened Text
  import opened DdlPrecheck
  import DdlNeeds

  datatype Statement = Statement(seqNo: int, ddl: Ddl)

  predicate Scoped(s: Statement) {
    !s.ddl.OtherDdl?
  }

  // ----- deriving clones and checks: the append loops -----

  lemma OneMoreHolder(hs: seq<Option<Holder>>, k: nat, selected: string)
    requires k < |hs|
    ensures HoldersClones(hs[..k + 1], selected) == HoldersClones(hs[..k], selected) + HolderClones(hs[k], selected)
  {
    assert hs[..k + 1][..k] == hs[..k];
  }

  method HolderReferences(hs: seq<Option<Holder>>, selected: string) returns (r: seq<Clone>)
    ensures r == HoldersClones(hs, selected)
  {
    r := [];
    var k := 0;
    while k < |hs|
      invariant 0 <= k <= |hs| && r == HoldersClones(hs[..k], selected)
    {
      var h := hs[k];
      OneMoreHolder(hs, k, selected);
      if h.Some? && h.value.refer.Some? && h.value.refer.value.table.Some? {
        r := r + [CloneFor(h.value.refer.value.table.value, selected, true)];
      }
      k := k + 1;
    }
    assert hs[..k] == hs;
  }

  lemma OneMoreColumn(columns: seq<Option<Column>>, k: nat, selected: string)
    requires k < |columns|
    ensures ColumnsClones(columns[..k + 1], selected) == ColumnsClones(columns[..k], selected) + ColumnClones(columns[k], selected)
    ensures columns[k].None? ==> ColumnsClones(columns[..k + 1], selected) == ColumnsClones(columns[..k], selected)
  {
    assert columns[..k + 1][..k] == columns[..k];
  }

  method ColumnReferences(columns: seq<Option<Column>>, selected: string) returns (r: seq<Clone>)
    ensures r == ColumnsClones(columns, selected)
  {
    r := [];
    var k := 0;
    while k < |columns|
      invariant 0 <= k <= |columns| && r == ColumnsClones(columns[..k], selected)
    {
      OneMoreColumn(columns, k, selected);
      var column := columns[k];
      k := k + 1;
      if column.None? {
        continue;
      }
      var more := HolderReferences(column.value.options, selected);
      r := r + more;
    }
    assert columns[..k] == columns;
  }

  method SpecReferences(spec: Spec, selected: string) returns (r: seq<Clone>)
    ensures r == SpecClones(Some(spec), selected)
  {
    var columns := ColumnReferences(spec.columns, selected);
    var single := [];
    if spec.single.Some? && spec.single.value.refer.Some? && spec.single.value.refer.value.table.Some? {
      single := [CloneFor(spec.single.value.refer.value.table.value, selected, true)];
    }
    assert single == HolderClones(spec.single, selected);
    var constraints := HolderReferences(spec.constraints, selected);
    r := columns + single + constraints;
  }

  lemma OneMoreSpec(specs: seq<Option<Spec>>, k: nat, selected: string)
    requires k < |specs|
    ensures SpecsClones(specs[..k + 1], selected) == SpecsClones(specs[..k], selected) + SpecClones(specs[k], selected)
    ensures specs[k].None? ==> SpecsClones(specs[..k + 1], selected) == SpecsClones(specs[..k], selected)
  {
    assert specs[..k + 1][..k] == specs[..k];
  }

  method AlterReferenceClones(specs: seq<Option<Spec>>, selected: string) returns (r: seq<Clone>)
    ensures r == SpecsClones(specs, selected)
    ensures forall x :: x in Required(r) <==> DdlNeeds.SomeSpecRefers(specs, selected, x)
  {
    forall x ensures x in Required(SpecsClones(specs, selected)) <==> DdlNeeds.SomeSpecRefers(specs, selected, x) {
      DdlNeeds.SpecsIff(specs, selected, x);
    }
    r := [];
    var k := 0;
    while k < |specs|
      invariant 0 <= k <= |specs| && r == SpecsClones(specs[..k], selected)
    {
      OneMoreSpec(specs, k, selected);
      var spec := specs[k];
      k := k + 1;
      if spec.None? {
        continue;
      }
      var more := SpecReferences(spec.value, selected);
      r := r + more;
    }
    assert specs[..k] == specs;
  }

  method CreateReferenceClones(columns: seq<Option<Column>>, constraints: seq<Option<Holder>>, selected: string) returns (r: seq<Clone>)
    ensures r == ColumnsClones(columns, selected) + HoldersClones(constraints, selected)
  {
    r := ColumnReferences(columns, selected);
    var more := HolderReferences(constraints, selected);
    r := r + more;
  }

  method DropTableClones(tables: seq<Option<TableName>>, selected: string, ifExists: bool) returns (items: seq<Clone>)
    ensures items == DropClones(tables, selected, ifExists)
  {
    items := [];
    var k := 0;
    while k < |tables|
      invariant 0 <= k <= |tables| && items == DropClones(tables[..k], selected, ifExists)
    {
      assert tables[..k + 1][..k] == tables[..k];
      var table := tables[k];
      k := k + 1;
      if table.None? {
        continue;
      }
      items := items + [CloneFor(table.value, selected, !ifExists)];
    }
    assert tables[..k] == tables;
  }

  method RenameTableClones(pairs: seq<Option<Pair>>, selected: string) returns (items: seq<Clone>)
    ensures items == RenameClones(pairs, selected)
  {
    items := [];
    var k := 0;
    while k < |pairs|
      invariant 0 <= k <= |pairs| && items == RenameClones(pairs[..k], selected)
    {
      assert pairs[..k + 1][..k] == pairs[..k];
      var pair := pairs[k];
      k := k + 1;
      if pair.None? {
        continue;
      }
      ghost var before := items;
      if pair.value.oldTable.Some? {
        items := items + [CloneFor(pair.value.oldTable.value, selected, true)];
      }
      if pair.value.newTable.Some? {
        items := items + [CloneFor(pair.value.newTable.value, selected, false)];
      }
      assert items == before + PairClones(pair, selected);
    }
    assert pairs[..k] == pairs;
  }

  lemma NeedsAreCloned(ddl: Ddl, selected: string)
    ensures var r := Clones(ddl, selected);
            r.Some? ==> forall x :: && (x in Required(r.value) <==> DdlNeeds.Needs(ddl, selected, x))
                                    && (DdlNeeds.SomeCopies(r.value, x) <==> DdlNeeds.Uses(ddl, selected, x))
  {
    var r := Clones(ddl, selected);
    if r.Some? {
      forall x ensures (x in Required(r.value) <==> DdlNeeds.Needs(ddl, selected, x)) && (DdlNeeds.SomeCopies(r.value, x) <==> DdlNeeds.Uses(ddl, selected, x)) {
        DdlNeeds.RequiredIff(ddl, selected, x);
        DdlNeeds.CopiedIff(ddl, selected, x);
      }
    }
  }

  method ShadowCloneTables(ddl: Ddl, selected: string) returns (r: Option<seq<Clone>>)
    ensures r == Clones(ddl, selected)
    ensures r.Some? ==> forall x :: x in Required(r.value) <==> DdlNeeds.Needs(ddl, selected, x)
    ensures r.Some? ==> forall x :: DdlNeeds.SomeCopies(r.value, x) <==> DdlNeeds.Uses(ddl, selected, x)
  {
    NeedsAreCloned(ddl, selected);
    match ddl {
      case CreateTable(table, _, like, columns, constraints) =>
        if table.None? {
          return None;
        }
        var items := [];
        if like.Some? {
          items := [CloneFor(like.value, selected, true)];
        }
        var refs := CreateReferenceClones(columns, constraints, selected);
        return Some(items + refs);
      case AlterTable(table, specs) =>
        if table.None? {
          return None;
        }
        var refs := AlterReferenceClones(specs, selected);
        return Some([CloneFor(table.value, selected, true)] + refs);
      case DropTable(tables, ifExists) =>
        var items := DropTableClones(tables, selected, ifExists);
        return Some(items);
      case TruncateTable(table) =>
        if table.None? {
          return None;
        }
        return Some([CloneFor(table.value, selected, true)]);
      case RenameTable(pairs) =>
        var items := RenameTableClones(pairs, selected);
        return Some(items);
      case OtherDdl =>
        return Some([]);
    }
  }

  method ChecksOfReferences(clones: seq<Clone>) returns (r: seq<Check>)
    ensures r == ReferenceChecks(clones)
  {
    r := [];
    var k := 0;
    while k < |clones|
      invariant 0 <= k <= |clones| && r == ReferenceChecks(clones[..k])
    {
      assert clones[..k + 1][..k] == clones[..k];
      r := r + [Check(clones[k].database, clones[k].table, MustExist, false)];
      k := k + 1;
    }
    assert clones[..k] == clones;
  }

  method DropTableChecks(tables: seq<Option<TableName>>, selected: string, ifExists: bool) returns (items: seq<Check>)
    ensures items == DropChecks(tables, selected, ifExists)
  {
    items := [];
    var k := 0;
    while k < |tables|
      invariant 0 <= k <= |tables| && items == DropChecks(tables[..k], selected, ifExists)
    {
      assert tables[..k + 1][..k] == tables[..k];
      var table := tables[k];
      k := k + 1;
      if table.None? {
        continue;
      }
      items := items + [CheckFor(table.value, selected, MustExist, ifExists)];
    }
    assert tables[..k] == tables;
  }

  method RenameTableChecks(pairs: seq<Option<Pair>>, selected: string) returns (items: seq<Check>)
    ensures items == RenameChecks(pairs, selected)
  {
    items := [];
    var k := 0;
    while k < |pairs|
      invariant 0 <= k <= |pairs| && items == RenameChecks(pairs[..k], selected)
    {
      assert pairs[..k + 1][..k] == pairs[..k];
      var pair := pairs[k];
      k := k + 1;
      if pair.None? {
        continue;
      }
      ghost var before := items;
      if pair.value.oldTable.Some? {
        items := items + [CheckFor(pair.value.oldTable.value, selected, MustExist, false)];
      }
      if pair.value.newTable.Some? {
        items := items + [CheckFor(pair.value.newTable.value, selected, MustNotExist, false)];
      }
      assert items == before + PairChecks(pair, selected);
    }
    assert pairs[..k] == pairs;
  }

  lemma NeedsAreChecked(ddl: Ddl, selected: string)
    ensures var r := Checks(ddl, selected);
            r.Some? ==> forall x :: && (x in Demanded(r.value) <==> DdlNeeds.Needs(ddl, selected, x))
                                    && (Forbidden(r.value, x) <==> DdlNeeds.Makes(ddl, selected, x))
                                    && (DdlNeeds.SomeAsks(r.value, x) <==> DdlNeeds.Mentions(ddl, selected, x))
  {
    var r := Checks(ddl, selected);
    ChecksDemandRequired(ddl, selected);
    if r.Some? {
      forall x ensures && (x in Demanded(r.value) <==> DdlNeeds.Needs(ddl, selected, x))
                       && (Forbidden(r.value, x) <==> DdlNeeds.Makes(ddl, selected, x))
                       && (DdlNeeds.SomeAsks(r.value, x) <==> DdlNeeds.Mentions(ddl, selected, x))
      {
        DdlNeeds.RequiredIff(ddl, selected, x);
        DdlNeeds.ChecksIff(ddl, selected, x);
      }
    }
  }

  method TableExistenceChecks(ddl: Ddl, selected: string) returns (r: Option<seq<Check>>)
    ensures r == Checks(ddl, selected)
    ensures r.Some? ==> forall x :: x in Demanded(r.value) <==> DdlNeeds.Needs(ddl, selected, x)
    ensures r.Some? ==> forall x :: Forbidden(r.value, x) <==> DdlNeeds.Makes(ddl, selected, x)
    ensures r.Some? ==> forall x :: DdlNeeds.SomeAsks(r.value, x) <==> DdlNeeds.Mentions(ddl, selected, x)
  {
    NeedsAreChecked(ddl, selected);
    match ddl {
      case CreateTable(table, ifNotExists, like, columns, constraints) =>
        if table.None? {
          return None;
        }
        var items := [CheckFor(table.value, selected, MustNotExist, ifNotExists)];
        if like.Some? {
          items := items + [CheckFor(like.value, selected, MustExist, false)];
        }
        assert items == [CheckFor(table.value, selected, MustNotExist, ifNotExists)] + LikeChecks(like, selected);
        var refs := CreateReferenceClones(columns, constraints, selected);
        var checks := ChecksOfReferences(refs);
        return Some(items + checks);
      case AlterTable(table, specs) =>
        if table.None? {
          return None;
        }
        var refs := AlterReferenceClones(specs, selected);
        var checks := ChecksOfReferences(refs);
        return Some([CheckFor(table.value, selected, MustExist, false)] + checks);
      case DropTable(tables, ifExists) =>
        var items := DropTableChecks(tables, selected, ifExists);
        return Some(items);
      case TruncateTable(table) =>
        if table.None? {
          return None;
        }
        return Some([CheckFor(table.value, selected, MustExist, false)]);
      case RenameTable(pairs) =>
        var items := RenameTableChecks(pairs, selected);
        return Some(items);
      case OtherDdl =>
        return Some([]);
    }
  }

  // ----- the metadata -----

  function Found(existence: map<Table, bool>): set<Table> {
    set t | t in existence && existence[t]
  }

  method AddTarget(targets: seq<Table>, database: string, table: string) returns (r: seq<Table>)
    ensures forall t :: t in r <==> t in targets || (t == (Trim(database), Trim(table)) && t.0 != "")
  {
    var target := (Trim(database), Trim(table));
    if target.0 == "" || target in targets {
      return targets;
    }
    return targets + [target];
  }

  predicate IsTarget(checks: seq<Check>, t: Table) {
    t.0 != "" && exists i :: 0 <= i < |checks| && Target(checks[i]) == t
  }

  lemma OneMoreCheck(checks: seq<Check>, c: Check, t: Table, database: string)
    ensures IsTarget(checks + [c], t) <==> IsTarget(checks, t) || (t.0 != "" && Target(c) == t)
    ensures Mentions(checks + [c], database) <==> Mentions(checks, database) || Trim(c.database) == database
  {
    var all := checks + [c];
    if i :| 0 <= i < |checks| && Target(checks[i]) == t {
      assert Target(all[i]) == t;
    }
    if i :| 0 <= i < |checks| && Trim(checks[i].database) == database {
      assert Trim(all[i].database) == database;
    }
    assert all[|checks|] == c;
  }

  method Targets(checks: seq<Check>, selected: string) returns (targets: seq<Table>)
    ensures forall t :: t in targets <==> Asked(checks, selected, t)
  {
    targets := [];
    var hasSelected := false;
    var k := 0;
    while k < |checks|
      invariant 0 <= k <= |checks|
      invariant forall t :: t in targets <==> IsTarget(checks[..k], t)
      invariant hasSelected <==> Mentions(checks[..k], Trim(selected))
    {
      var check := checks[k];
      ghost var before := checks[..k];
      assert checks[..k + 1] == before + [check];
      forall t ensures IsTarget(before + [check], t) <==> IsTarget(before, t) || (t.0 != "" && Target(check) == t) {
        OneMoreCheck(before, check, t, "");
      }
      OneMoreCheck(before, check, ("", ""), Trim(selected));
      targets := AddTarget(targets, check.database, check.table);
      if Trim(check.database) == Trim(selected) {
        hasSelected := true;
      }
      k := k + 1;
    }
    assert checks[..k] == checks;
    if !hasSelected {
      targets := AddTarget(targets, selected, "");
    }
  }

  ghost predicate NothingAsked(checks: seq<Check>, selected: string) {
    forall t :: !Asked(checks, selected, t)
  }

  /** The selected database is among those asked about, and exists. */
  ghost predicate SchemaFound(catalog: Catalog, checks: seq<Check>, selected: string) {
    selected in catalog.databases && exists t :: Asked(checks, selected, t) && t.0 == selected
  }

  /** What the source database answers for all targets; `reachable` is false if the query fails. */
  method LoadSourceMetadata(catalog: Catalog, reachable: bool, selected: string, checks: seq<Check>)
    returns (ok: bool, schemaFound: bool, existence: map<Table, bool>)
    ensures ok ==> Found(existence) == Present(catalog, checks, selected)
    ensures ok ==> (schemaFound <==> SchemaFound(catalog, checks, selected))
    ensures ok <==> reachable || NothingAsked(checks, selected)
  {
    existence, schemaFound := map[], false;
    var targets := Targets(checks, selected);
    if |targets| == 0 {
      assert Present(catalog, checks, selected) == {};
      return true, false, existence;
    }
    assert Asked(checks, selected, targets[0]);
    if !reachable {
      return false, false, existence;
    }
    var k := 0;
    while k < |targets|
      invariant 0 <= k <= |targets|
      invariant existence.Keys == set t | t in targets[..k]
      invariant forall t :: t in existence ==> existence[t] == (t in catalog.tables)
      invariant schemaFound <==> selected in catalog.databases && exists i :: 0 <= i < k && targets[i].0 == selected
    {
      existence := existence[targets[k] := targets[k] in catalog.tables];
      if targets[k].0 == selected && selected in catalog.databases {
        schemaFound := true;
      }
      k := k + 1;
    }
    assert targets[..k] == targets;
    forall t ensures t in Found(existence) <==> t in Present(catalog, checks, selected) {
      assert t in targets <==> Asked(checks, selected, t);
    }
    forall i | 0 <= i < |targets| ensures Asked(checks, selected, targets[i]) {
      assert targets[i] in targets;
    }
    return true, schemaFound, existence;
  }

  method ValidateTableExistence(checks: seq<Check>, existence: map<Table, bool>) returns (r: Option<Problem>)
    ensures r == Validate(checks, Found(existence))
  {
    var k := 0;
    assert checks[0..] == checks;
    while k < |checks|
      invariant 0 <= k <= |checks|
      invariant Validate(checks, Found(existence)) == Validate(checks[k..], Found(existence))
    {
      var check := checks[k];
      assert checks[k..][0] == check && checks[k..][1..] == checks[k + 1..];
      if Trim(check.database) == "" || Trim(check.table) == "" {
        return Some(EmptyName);
      }
      var key := (check.database, check.table);
      var exists' := key in existence && existence[key];
      match check.expectation {
        case MustExist =>
          if !exists' && !check.optional {
            return Some(Missing(check.table));
          }
        case MustNotExist =>
          if exists' && !check.optional {
            return Some(AlreadyThere(check.table));
          }
      }
      k := k + 1;
    }
    return None;
  }

  // ----- the batch -----

  /** The checks of the scoped statements by number, and all of them in order; None if one has no target. */
  function Gathered(statements: seq<Statement>, selected: string): Option<(map<int, seq<Check>>, seq<Check>)> {
    if statements == [] then Some((map[], []))
    else
      var s := statements[|statements| - 1];
      match Gathered(statements[..|statements| - 1], selected)
      case None => None
      case Some((bySeq, all)) =>
        if !Scoped(s) then Some((bySeq, all))
        else
          match Checks(s.ddl, selected)
          case None => None
          case Some(checks) => Some((bySeq[s.seqNo := checks], all + checks))
  }

  function Lookup(bySeq: map<int, seq<Check>>, n: int): seq<Check> {
    if n in bySeq then bySeq[n] else []
  }

  /** The clones of the statements without a problem, and the problems by number. */
  function Planned(statements: seq<Statement>, selected: string, bySeq: map<int, seq<Check>>, present: set<Table>)
    : Option<(seq<Clone>, map<int, Problem>)>
  {
    if statements == [] then Some(([], map[]))
    else
      var s := statements[|statements| - 1];
      match Planned(statements[..|statements| - 1], selected, bySeq, present)
      case None => None
      case Some((items, errors)) =>
        var problem := if Scoped(s) then Validate(Lookup(bySeq, s.seqNo), present) else None;
        if problem.Some? then Some((items, errors[s.seqNo := problem.value]))
        else
          match Clones(s.ddl, selected)
          case None => None
          case Some(more) => Some((items + more, errors))
  }

  function AllUnreadable(statements: seq<Statement>): map<int, Problem> {
    if statements == [] then map[]
    else
      var front, s := AllUnreadable(statements[..|statements| - 1]), statements[|statements| - 1];
      if Scoped(s) then front[s.seqNo := Unreadable] else front
  }

  datatype Batch =
    | NoTarget
    | NoDatabase(clones: seq<Clone>, errors: map<int, Problem>)
    | Planning(items: seq<Clone>, problems: map<int, Problem>)

  ghost function BatchOf(statements: seq<Statement>, selected: string, catalog: Catalog, reachable: bool): Batch {
    match Gathered(statements, selected)
    case None => NoTarget
    case Some((bySeq, all)) =>
      if !reachable && !NothingAsked(all, selected) then Planning([], AllUnreadable(statements))
      else
        match Planned(statements, selected, bySeq, Present(catalog, all, selected))
        case None => NoTarget
        case Some((items, errors)) =>
          if items != [] && !SchemaFound(catalog, all, selected) then NoDatabase(items, errors) else Planning(items, errors)
  }

  method CloneTablesForValidStatements(statements: seq<Statement>, selected: string, catalog: Catalog, reachable: bool) returns (r: Batch)
    ensures r == BatchOf(statements, selected, catalog, reachable)
  {
    var bySeq: map<int, seq<Check>>, all: seq<Check> := map[], [];
    var k := 0;
    while k < |statements|
      invariant 0 <= k <= |statements| && Gathered(statements[..k], selected) == Some((bySeq, all))
    {
      assert statements[..k + 1][..k] == statements[..k];
      var s := statements[k];
      k := k + 1;
      if !Scoped(s) {
        continue;
      }
      var checks := TableExistenceChecks(s.ddl, selected);
      if checks.None? {
        GatherStops(statements, k, selected);
        return NoTarget;
      }
      bySeq, all := bySeq[s.seqNo := checks.value], all + checks.value;
    }
    assert statements[..k] == statements;
    var ok, schemaFound, existence := LoadSourceMetadata(catalog, reachable, selected, all);
    if !ok {
      var errors := MarkUnreadable(statements);
      return Planning([], errors);
    }
    r := PlanStatements(statements, selected, bySeq, existence);
    if r.Planning? && |r.items| > 0 && !schemaFound {
      r := NoDatabase(r.items, r.problems);
    }
  }

  method MarkUnreadable(statements: seq<Statement>) returns (errors: map<int, Problem>)
    ensures errors == AllUnreadable(statements)
  {
    errors := map[];
    var k := 0;
    while k < |statements|
      invariant 0 <= k <= |statements| && errors == AllUnreadable(statements[..k])
    {
      assert statements[..k + 1][..k] == statements[..k];
      if Scoped(statements[k]) {
        errors := errors[statements[k].seqNo := Unreadable];
      }
      k := k + 1;
    }
    assert statements[..k] == statements;
  }

  method PlanStatements(statements: seq<Statement>, selected: string, bySeq: map<int, seq<Check>>, existence: map<Table, bool>) returns (r: Batch)
    ensures match Planned(statements, selected, bySeq, Found(existence))
            case None => r == NoTarget
            case Some((items, errors)) => r == Planning(items, errors)
  {
    var items: seq<Clone>, errors: map<int, Problem> := [], map[];
    var k := 0;
    while k < |statements|
      invariant 0 <= k <= |statements|
      invariant Planned(statements[..k], selected, bySeq, Found(existence)) == Some((items, errors))
    {
      assert statements[..k + 1][..k] == statements[..k];
      var s := statements[k];
      k := k + 1;
      if Scoped(s) {
        var problem := ValidateTableExistence(Lookup(bySeq, s.seqNo), existence);
        if problem.Some? {
          errors := errors[s.seqNo := problem.value];
          continue;
        }
      }
      var more := ShadowCloneTables(s.ddl, selected);
      if more.None? {
        PlanStops(statements, k, selected, bySeq, Found(existence));
        return NoTarget;
      }
      items := items + more.value;
    }
    assert statements[..k] == statements;
    return Planning(items, errors);
  }

  lemma {:induction false} GatherStops(statements: seq<Statement>, k: nat, selected: string)
    requires k <= |statements| && Gathered(statements[..k], selected).None?
    ensures Gathered(statements, selected).None?
  {
    if k == |statements| {
      assert statements[..k] == statements;
    } else {
      assert statements[..|statements| - 1][..k] == statements[..k];
      GatherStops(statements[..|statements| - 1], k, selected);
    }
  }

  lemma {:induction false} PlanStops(statements: seq<Statement>, k: nat, selected: string, bySeq: map<int, seq<Check>>, present: set<Table>)
    requires k <= |statements| && Planned(statements[..k], selected, bySeq, present).None?
    ensures Planned(statements, selected, bySeq, present).None?
  {
    if k == |statements| {
      assert statements[..k] == statements;
    } else {
      assert statements[..|statements| - 1][..k] == statements[..k];
      PlanStops(statements[..|statements| - 1], k, selected, bySeq, present);
    }
  }

  // ----- what the batch guarantees -----

  /** The parser numbers the statements. */
  predicate DistinctNumbers(statements: seq<Statement>) {
    forall i, j :: 0 <= i < j < |statements| ==> statements[i].seqNo != statements[j].seqNo
  }

  /** Scoped statements of one number have the same checks. */
  ghost predicate Consistent(statements: seq<Statement>, selected: string) {
    forall i, j :: 0 <= i < j < |statements| && Scoped(statements[i]) && Scoped(statements[j]) && statements[i].seqNo == statements[j].seqNo
      ==> Checks(statements[i].ddl, selected) == Checks(statements[j].ddl, selected)
  }

  /** The checks kept for a number are those of its last scoped statement. */
  lemma {:induction false} LastChecks(statements: seq<Statement>, selected: string, i: nat)
    requires i < |statements| && Scoped(statements[i]) && Gathered(statements, selected).Some?
    requires forall j :: i < j < |statements| && Scoped(statements[j]) ==> statements[j].seqNo != statements[i].seqNo
    ensures Checks(statements[i].ddl, selected) == Some(Lookup(Gathered(statements, selected).value.0, statements[i].seqNo))
  {
    var n := |statements| - 1;
    if i < n {
      assert statements[..n][i] == statements[i];
      forall j | i < j < n && Scoped(statements[..n][j]) ensures statements[..n][j].seqNo != statements[i].seqNo {
        assert statements[..n][j] == statements[j];
      }
      LastChecks(statements[..n], selected, i);
    }
  }

  lemma {:induction false} LastOfNumber(statements: seq<Statement>, i: nat) returns (k: nat)
    requires i < |statements| && Scoped(statements[i])
    ensures i <= k < |statements| && Scoped(statements[k]) && statements[k].seqNo == statements[i].seqNo
    ensures forall j :: k < j < |statements| && Scoped(statements[j]) ==> statements[j].seqNo != statements[k].seqNo
  {
    k := i;
    var n := i + 1;
    while n < |statements|
      invariant i <= k < n <= |statements| && Scoped(statements[k]) && statements[k].seqNo == statements[i].seqNo
      invariant forall j :: k < j < n && Scoped(statements[j]) ==> statements[j].seqNo != statements[k].seqNo
    {
      if Scoped(statements[n]) && statements[n].seqNo == statements[i].seqNo {
        k := n;
      }
      n := n + 1;
    }
  }

  /** The checks a statement is validated against are its own. */
  ghost predicate ChecksAreOwn(statements: seq<Statement>, selected: string, bySeq: map<int, seq<Check>>) {
    forall i :: 0 <= i < |statements| && Scoped(statements[i]) ==> Checks(statements[i].ddl, selected) == Some(Lookup(bySeq, statements[i].seqNo))
  }

  lemma OwnChecksPrefix(statements: seq<Statement>, n: nat, selected: string, bySeq: map<int, seq<Check>>)
    requires n <= |statements| && ChecksAreOwn(statements, selected, bySeq)
    ensures ChecksAreOwn(statements[..n], selected, bySeq)
  {
    forall i | 0 <= i < n && Scoped(statements[..n][i])
      ensures Checks(statements[..n][i].ddl, selected) == Some(Lookup(bySeq, statements[..n][i].seqNo))
    {
      assert statements[..n][i] == statements[i];
    }
  }

  /** Every clone the plan requires is a table of the source. */
  lemma {:induction false} PlanIsCloneable(statements: seq<Statement>, selected: string, bySeq: map<int, seq<Check>>, catalog: Catalog, all: seq<Check>, c: Clone)
    requires ChecksAreOwn(statements, selected, bySeq)
    requires Planned(statements, selected, bySeq, Present(catalog, all, selected)).Some?
    requires c in Planned(statements, selected, bySeq, Present(catalog, all, selected)).value.0 && c.required
    ensures (c.database, c.table) in catalog.tables
  {
    var n := |statements| - 1;
    var present := Present(catalog, all, selected);
    var front := Planned(statements[..n], selected, bySeq, present).value.0;
    if c in front {
      OwnChecksPrefix(statements, n, selected, bySeq);
      PlanIsCloneable(statements[..n], selected, bySeq, catalog, all, c);
    } else {
      var s := statements[n];
      assert c in Clones(s.ddl, selected).value;
      assert Scoped(s);
      AcceptedIsCloneable(s.ddl, selected, catalog, all, c);
    }
  }

  /** Every scoped statement is validated against its own checks if and only if those of one number
      have the same checks; distinct numbers, as the parser gives, suffice. */
  lemma {:induction false} OwnChecksIff(statements: seq<Statement>, selected: string)
    requires Gathered(statements, selected).Some?
    ensures ChecksAreOwn(statements, selected, Gathered(statements, selected).value.0) <==> Consistent(statements, selected)
    ensures DistinctNumbers(statements) ==> Consistent(statements, selected)
  {
    var bySeq := Gathered(statements, selected).value.0;
    if Consistent(statements, selected) {
      forall i | 0 <= i < |statements| && Scoped(statements[i])
        ensures Checks(statements[i].ddl, selected) == Some(Lookup(bySeq, statements[i].seqNo))
      {
        var k := LastOfNumber(statements, i);
        LastChecks(statements, selected, k);
        assert i == k || Checks(statements[i].ddl, selected) == Checks(statements[k].ddl, selected);
      }
    }
  }

  /** The clones a batch has planned, also when the selected database turns out not to exist. */
  function PlannedClones(r: Batch): seq<Clone> {
    match r case NoTarget => [] case NoDatabase(clones, _) => clones case Planning(items, _) => items
  }

  function RecordedProblems(r: Batch): map<int, Problem> {
    match r case NoTarget => map[] case NoDatabase(_, errors) => errors case Planning(_, problems) => problems
  }

  /** The whole batch: whatever it contains, every table that the resulting plan requires exists. */
  lemma BatchIsCloneable(statements: seq<Statement>, selected: string, catalog: Catalog, reachable: bool, c: Clone)
    requires Consistent(statements, selected)
    requires c in PlannedClones(BatchOf(statements, selected, catalog, reachable)) && c.required
    ensures (c.database, c.table) in catalog.tables
  {
    var (bySeq, all) := Gathered(statements, selected).value;
    OwnChecksIff(statements, selected);
    PlanIsCloneable(statements, selected, bySeq, catalog, all, c);
  }

  lemma {:induction false} ErrorsAreNumbered(statements: seq<Statement>, selected: string, bySeq: map<int, seq<Check>>, present: set<Table>, n: int)
    requires Planned(statements, selected, bySeq, present).Some? && n in Planned(statements, selected, bySeq, present).value.1
    ensures exists i :: 0 <= i < |statements| && statements[i].seqNo == n
  {
    var k := |statements| - 1;
    if statements[k].seqNo != n {
      ErrorsAreNumbered(statements[..k], selected, bySeq, present, n);
      var i :| 0 <= i < k && statements[..k][i].seqNo == n;
      assert statements[i].seqNo == n;
    }
  }

  /** What the plan records of one statement. */
  predicate Recorded(s: Statement, problem: Option<Problem>, selected: string, plan: (seq<Clone>, map<int, Problem>)) {
    && (s.seqNo in plan.1 <==> problem.Some?)
    && (problem.Some? ==> s.seqNo in plan.1 && plan.1[s.seqNo] == problem.value)
    && (problem.None? ==> Clones(s.ddl, selected).Some? && forall c :: c in Clones(s.ddl, selected).value ==> c in plan.0)
  }

  lemma NotRecordedYet(statements: seq<Statement>, selected: string, bySeq: map<int, seq<Check>>, present: set<Table>)
    requires statements != [] && DistinctNumbers(statements)
    requires Planned(statements[..|statements| - 1], selected, bySeq, present).Some?
    ensures statements[|statements| - 1].seqNo !in Planned(statements[..|statements| - 1], selected, bySeq, present).value.1
  {
    var n := |statements| - 1;
    if statements[n].seqNo in Planned(statements[..n], selected, bySeq, present).value.1 {
      ErrorsAreNumbered(statements[..n], selected, bySeq, present, statements[n].seqNo);
      assert false;
    }
  }

  /** The next statement adds to the clones or to the problems, under its own number. */
  lemma RecordedStays(s: Statement, problem: Option<Problem>, selected: string, plan: (seq<Clone>, map<int, Problem>),
                      next: (seq<Clone>, map<int, Problem>), number: int)
    requires Recorded(s, problem, selected, plan) && number != s.seqNo
    requires plan.0 <= next.0 && (next.1 == plan.1 || (number in next.1 && next.1 == plan.1[number := next.1[number]]))
    ensures Recorded(s, problem, selected, next)
  {
  }

  lemma PlannedNext(statements: seq<Statement>, selected: string, bySeq: map<int, seq<Check>>, present: set<Table>)
    requires statements != [] && Planned(statements, selected, bySeq, present).Some?
    ensures Planned(statements[..|statements| - 1], selected, bySeq, present).Some?
    ensures var plan, next, number := Planned(statements[..|statements| - 1], selected, bySeq, present).value,
                                      Planned(statements, selected, bySeq, present).value, statements[|statements| - 1].seqNo;
            plan.0 <= next.0 && (next.1 == plan.1 || (number in next.1 && next.1 == plan.1[number := next.1[number]]))
  {
  }

  lemma LastIsRecorded(statements: seq<Statement>, selected: string, bySeq: map<int, seq<Check>>, present: set<Table>, checks: seq<Check>)
    requires statements != [] && DistinctNumbers(statements) && Scoped(statements[|statements| - 1])
    requires checks == Lookup(bySeq, statements[|statements| - 1].seqNo) && Planned(statements, selected, bySeq, present).Some?
    ensures Recorded(statements[|statements| - 1], Validate(checks, present), selected, Planned(statements, selected, bySeq, present).value)
  {
    PlannedNext(statements, selected, bySeq, present);
    NotRecordedYet(statements, selected, bySeq, present);
  }

  /** A statement has a problem recorded exactly if its own checks fail; otherwise its clones are planned. */
  lemma {:induction false} ProblemIff(statements: seq<Statement>, selected: string, bySeq: map<int, seq<Check>>, present: set<Table>, i: nat)
    requires DistinctNumbers(statements) && ChecksAreOwn(statements, selected, bySeq) && i < |statements| && Scoped(statements[i])
    requires Planned(statements, selected, bySeq, present).Some?
    ensures Recorded(statements[i], Validate(Checks(statements[i].ddl, selected).value, present), selected, Planned(statements, selected, bySeq, present).value)
  {
    var n := |statements| - 1;
    var front, problem := statements[..n], Validate(Checks(statements[i].ddl, selected).value, present);
    PlannedNext(statements, selected, bySeq, present);
    if i < n {
      OwnChecksPrefix(statements, n, selected, bySeq);
      assert front[i] == statements[i];
      ProblemIff(front, selected, bySeq, present, i);
      RecordedStays(statements[i], problem, selected, Planned(front, selected, bySeq, present).value,
                    Planned(statements, selected, bySeq, present).value, statements[n].seqNo);
    } else {
      LastIsRecorded(statements, selected, bySeq, present, Checks(statements[i].ddl, selected).value);
    }
  }

  lemma {:induction false} UnreadableCovers(statements: seq<Statement>, i: nat)
    requires i < |statements| && Scoped(statements[i])
    ensures statements[i].seqNo in AllUnreadable(statements)
  {
    var n := |statements| - 1;
    if i < n {
      assert statements[..n][i] == statements[i];
      UnreadableCovers(statements[..n], i);
    }
  }

  /** Hence a statement without a recorded problem has every table that its own clones require, unless
      the batch was given up because a statement has no target. */
  lemma UnflaggedIsCloneable(statements: seq<Statement>, selected: string, catalog: Catalog, reachable: bool, i: nat, c: Clone)
    requires DistinctNumbers(statements) && !BatchOf(statements, selected, catalog, reachable).NoTarget?
    requires i < |statements| && Scoped(statements[i])
    requires statements[i].seqNo !in RecordedProblems(BatchOf(statements, selected, catalog, reachable))
    requires Clones(statements[i].ddl, selected).Some? && c in Clones(statements[i].ddl, selected).value && c.required
    ensures (c.database, c.table) in catalog.tables
  {
    UnreadableCovers(statements, i);
    var (bySeq, all) := Gathered(statements, selected).value;
    OwnChecksIff(statements, selected);
    ProblemIff(statements, selected, bySeq, Present(catalog, all, selected), i);
    AcceptedIsCloneable(statements[i].ddl, selected, catalog, all, c);
  }

  /** Numbers must be distinct: with two statements of the same number the first is validated against
      the checks of the second, and a table that does not exist is planned as required. */
  lemma RepeatedNumbersMislead(app: string, t: string, u: string)
    requires !Blank(app) && !Blank(t) && !Blank(u) && t != u && IsTrimmed(app) && IsTrimmed(u)
    ensures var statements := [Statement(1, TruncateTable(Some(TableName(app, t)))), Statement(1, TruncateTable(Some(TableName(app, u))))];
            var catalog := Catalog({(app, u)}, {app});
            && Gathered(statements, app).Some?
            && var (bySeq, all) := Gathered(statements, app).value;
               var plan := Planned(statements, app, bySeq, Present(catalog, all, app));
               plan.Some? && plan.value.1 == map[] && Clone(app, t, true) in plan.value.0 && (app, t) !in catalog.tables
  {
    var one, two := Statement(1, TruncateTable(Some(TableName(app, t)))), Statement(1, TruncateTable(Some(TableName(app, u))));
    var catalog := Catalog({(app, u)}, {app});
    var k1, k2 := Check(app, t, MustExist, false), Check(app, u, MustExist, false);
    var plan := [Clone(app, t, true), Clone(app, u, true)];
    var bySeq: map<int, seq<Check>>, present := map[1 := [k2]], Present(catalog, [k1, k2], app);
    GatherNext([], one, [one], app, (map[], []), [k1], (map[1 := [k1]], [k1]));
    GatherNext([one], two, [one, two], app, (map[1 := [k1]], [k1]), [k2], (bySeq, [k1, k2]));
    TrimOfTrimmed(app);
    TrimOfTrimmed(u);
    assert Target([k1, k2][1]) == (app, u);
    assert Validate([k2], present) == None;
    PlanNext([], one, [one], app, bySeq, present, ([], map[]), [Clone(app, t, true)], ([Clone(app, t, true)], map[]));
    PlanNext([one], two, [one, two], app, bySeq, present, ([Clone(app, t, true)], map[]), [Clone(app, u, true)], (plan, map[]));
    assert plan[0] in plan;
  }

  lemma GatherNext(front: seq<Statement>, s: Statement, all: seq<Statement>, selected: string,
                   before: (map<int, seq<Check>>, seq<Check>), checks: seq<Check>, after: (map<int, seq<Check>>, seq<Check>))
    requires all == front + [s] && Scoped(s) && Checks(s.ddl, selected) == Some(checks)
    requires Gathered(front, selected) == Some(before) && after.0 == before.0[s.seqNo := checks] && after.1 == before.1 + checks
    ensures Gathered(all, selected) == Some(after)
  {
    assert all[..|front|] == front;
  }

  lemma PlanNext(front: seq<Statement>, s: Statement, all: seq<Statement>, selected: string, bySeq: map<int, seq<Check>>, present: set<Table>,
                 before: (seq<Clone>, map<int, Problem>), more: seq<Clone>, after: (seq<Clone>, map<int, Problem>))
    requires all == front + [s] && Clones(s.ddl, selected) == Some(more)
    requires Scoped(s) ==> Validate(Lookup(bySeq, s.seqNo), present) == None
    requires Planned(front, selected, bySeq, present) == Some(before) && after.0 == before.0 + more && after.1 == before.1
    ensures Planned(all, selected, bySeq, present) == Some(after)
  {
    assert all[..|front|] == front;
  }
}
