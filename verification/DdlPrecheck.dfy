/** Which tables a MySQL DDL statement needs copied into the shadow database, and which it needs
    checked beforehand. The two are derived separately from the syntax tree; what matters is that a
    statement that passes its checks can be given its copies. */
module DdlPrecheck {
  import opened Text

  // ----- the parts of the syntax tree that are looked at; None stands for a nil pointer -----

  datatype TableName = TableName(schema: string, name: string)

  datatype Reference = Reference(table: Option<TableName>)

  /** A column option or a constraint: what matters is the foreign key it may hold. */
  datatype Holder = Holder(refer: Option<Reference>)

  datatype Column = Column(options: seq<Option<Holder>>)

  datatype Spec = Spec(columns: seq<Option<Column>>, single: Option<Holder>, constraints: seq<Option<Holder>>)

  datatype Pair = Pair(oldTable: Option<TableName>, newTable: Option<TableName>)

  datatype Ddl =
    | CreateTable(table: Option<TableName>, ifNotExists: bool, like: Option<TableName>,
                  columns: seq<Option<Column>>, constraints: seq<Option<Holder>>)
    | AlterTable(table: Option<TableName>, specs: seq<Option<Spec>>)
    | DropTable(tables: seq<Option<TableName>>, ifExists: bool)
    | TruncateTable(table: Option<TableName>)
    | RenameTable(pairs: seq<Option<Pair>>)
    | OtherDdl

  datatype Clone = Clone(database: string, table: string, required: bool)

  datatype Expectation = MustExist | MustNotExist

  datatype Check = Check(database: string, table: string, expectation: Expectation, optional: bool)

  function DatabaseOf(t: TableName, selected: string): string {
    if Blank(t.schema) then selected else t.schema
  }

  function CloneFor(t: TableName, selected: string, required: bool): Clone {
    Clone(DatabaseOf(t, selected), t.name, required)
  }

  function CheckFor(t: TableName, selected: string, expectation: Expectation, optional: bool): Check {
    Check(DatabaseOf(t, selected), t.name, expectation, optional)
  }

  // ----- the tables foreign keys refer to -----

  function HolderClones(h: Option<Holder>, selected: string): seq<Clone> {
    if h.Some? && h.value.refer.Some? && h.value.refer.value.table.Some?
    then [CloneFor(h.value.refer.value.table.value, selected, true)] else []
  }

  function HoldersClones(hs: seq<Option<Holder>>, selected: string): seq<Clone> {
    if hs == [] then [] else HoldersClones(hs[..|hs| - 1], selected) + HolderClones(hs[|hs| - 1], selected)
  }

  function ColumnClones(c: Option<Column>, selected: string): seq<Clone> {
    if c.None? then [] else HoldersClones(c.value.options, selected)
  }

  function ColumnsClones(cs: seq<Option<Column>>, selected: string): seq<Clone> {
    if cs == [] then [] else ColumnsClones(cs[..|cs| - 1], selected) + ColumnClones(cs[|cs| - 1], selected)
  }

  function SpecClones(s: Option<Spec>, selected: string): seq<Clone> {
    if s.None? then []
    else ColumnsClones(s.value.columns, selected) + HolderClones(s.value.single, selected) + HoldersClones(s.value.constraints, selected)
  }

  function SpecsClones(specs: seq<Option<Spec>>, selected: string): seq<Clone> {
    if specs == [] then [] else SpecsClones(specs[..|specs| - 1], selected) + SpecClones(specs[|specs| - 1], selected)
  }

  // ----- the clone plan -----

  function DropClones(tables: seq<Option<TableName>>, selected: string, ifExists: bool): seq<Clone> {
    if tables == [] then []
    else
      var front, t := DropClones(tables[..|tables| - 1], selected, ifExists), tables[|tables| - 1];
      if t.None? then front else front + [CloneFor(t.value, selected, !ifExists)]
  }

  function PairClones(p: Option<Pair>, selected: string): seq<Clone> {
    if p.None? then []
    else (if p.value.oldTable.Some? then [CloneFor(p.value.oldTable.value, selected, true)] else [])
         + (if p.value.newTable.Some? then [CloneFor(p.value.newTable.value, selected, false)] else [])
  }

  function RenameClones(pairs: seq<Option<Pair>>, selected: string): seq<Clone> {
    if pairs == [] then [] else RenameClones(pairs[..|pairs| - 1], selected) + PairClones(pairs[|pairs| - 1], selected)
  }

  function LikeClones(like: Option<TableName>, selected: string): seq<Clone> {
    if like.Some? then [CloneFor(like.value, selected, true)] else []
  }

  /** None if the statement has no target. */
  function Clones(ddl: Ddl, selected: string): Option<seq<Clone>> {
    match ddl
    case CreateTable(table, _, like, columns, constraints) =>
      if table.None? then None
      else Some(LikeClones(like, selected) + (ColumnsClones(columns, selected) + HoldersClones(constraints, selected)))
    case AlterTable(table, specs) =>
      if table.None? then None else Some([CloneFor(table.value, selected, true)] + SpecsClones(specs, selected))
    case DropTable(tables, ifExists) => Some(DropClones(tables, selected, ifExists))
    case TruncateTable(table) => if table.None? then None else Some([CloneFor(table.value, selected, true)])
    case RenameTable(pairs) => Some(RenameClones(pairs, selected))
    case OtherDdl => Some([])
  }

  // ----- the checks -----

  function ReferenceChecks(clones: seq<Clone>): seq<Check> {
    if clones == [] then []
    else
      var c := clones[|clones| - 1];
      ReferenceChecks(clones[..|clones| - 1]) + [Check(c.database, c.table, MustExist, false)]
  }

  function DropChecks(tables: seq<Option<TableName>>, selected: string, ifExists: bool): seq<Check> {
    if tables == [] then []
    else
      var front, t := DropChecks(tables[..|tables| - 1], selected, ifExists), tables[|tables| - 1];
      if t.None? then front else front + [CheckFor(t.value, selected, MustExist, ifExists)]
  }

  function PairChecks(p: Option<Pair>, selected: string): seq<Check> {
    if p.None? then []
    else (if p.value.oldTable.Some? then [CheckFor(p.value.oldTable.value, selected, MustExist, false)] else [])
         + (if p.value.newTable.Some? then [CheckFor(p.value.newTable.value, selected, MustNotExist, false)] else [])
  }

  function RenameChecks(pairs: seq<Option<Pair>>, selected: string): seq<Check> {
    if pairs == [] then [] else RenameChecks(pairs[..|pairs| - 1], selected) + PairChecks(pairs[|pairs| - 1], selected)
  }

  function LikeChecks(like: Option<TableName>, selected: string): seq<Check> {
    if like.Some? then [CheckFor(like.value, selected, MustExist, false)] else []
  }

  function Checks(ddl: Ddl, selected: string): Option<seq<Check>> {
    match ddl
    case CreateTable(table, ifNotExists, like, columns, constraints) =>
      if table.None? then None
      else Some([CheckFor(table.value, selected, MustNotExist, ifNotExists)] + LikeChecks(like, selected)
                + ReferenceChecks(ColumnsClones(columns, selected) + HoldersClones(constraints, selected)))
    case AlterTable(table, specs) =>
      if table.None? then None
      else Some([CheckFor(table.value, selected, MustExist, false)] + ReferenceChecks(SpecsClones(specs, selected)))
    case DropTable(tables, ifExists) => Some(DropChecks(tables, selected, ifExists))
    case TruncateTable(table) => if table.None? then None else Some([CheckFor(table.value, selected, MustExist, false)])
    case RenameTable(pairs) => Some(RenameChecks(pairs, selected))
    case OtherDdl => Some([])
  }

  // ----- clones and checks agree -----

  type Table = (string, string)

  /** The tables a clone plan cannot do without, in order. */
  function Required(clones: seq<Clone>): seq<Table> {
    if clones == [] then []
    else
      var front, c := Required(clones[..|clones| - 1]), clones[|clones| - 1];
      if c.required then front + [(c.database, c.table)] else front
  }

  /** The tables a list of checks insists on, in order. */
  function Demanded(checks: seq<Check>): seq<Table> {
    if checks == [] then []
    else
      var front, c := Demanded(checks[..|checks| - 1]), checks[|checks| - 1];
      if c.expectation == MustExist && !c.optional then front + [(c.database, c.table)] else front
  }

  lemma {:induction false} RequiredAppend(a: seq<Clone>, b: seq<Clone>)
    ensures Required(a + b) == Required(a) + Required(b)
  {
    if b == [] {
      assert a + b == a;
    } else {
      assert (a + b)[..|a + b| - 1] == a + b[..|b| - 1];
      RequiredAppend(a, b[..|b| - 1]);
    }
  }

  lemma {:induction false} DemandedAppend(a: seq<Check>, b: seq<Check>)
    ensures Demanded(a + b) == Demanded(a) + Demanded(b)
  {
    if b == [] {
      assert a + b == a;
    } else {
      assert (a + b)[..|a + b| - 1] == a + b[..|b| - 1];
      DemandedAppend(a, b[..|b| - 1]);
    }
  }

  lemma RequiredOne(c: Clone)
    ensures Required([c]) == if c.required then [(c.database, c.table)] else []
  {
    assert [c][..0] == [];
  }

  lemma DemandedOne(c: Check)
    ensures Demanded([c]) == if c.expectation == MustExist && !c.optional then [(c.database, c.table)] else []
  {
    assert [c][..0] == [];
  }

  predicate AllRequired(clones: seq<Clone>) {
    forall i :: 0 <= i < |clones| ==> clones[i].required
  }

  lemma {:induction false} HoldersRequired(hs: seq<Option<Holder>>, selected: string)
    ensures AllRequired(HoldersClones(hs, selected))
  {
    if hs != [] {
      HoldersRequired(hs[..|hs| - 1], selected);
    }
  }

  lemma {:induction false} ColumnsRequired(cs: seq<Option<Column>>, selected: string)
    ensures AllRequired(ColumnsClones(cs, selected))
  {
    if cs != [] {
      ColumnsRequired(cs[..|cs| - 1], selected);
      if cs[|cs| - 1].Some? {
        HoldersRequired(cs[|cs| - 1].value.options, selected);
      }
    }
  }

  lemma {:induction false} SpecsRequired(specs: seq<Option<Spec>>, selected: string)
    ensures AllRequired(SpecsClones(specs, selected))
  {
    if specs != [] {
      SpecsRequired(specs[..|specs| - 1], selected);
      if specs[|specs| - 1].Some? {
        ColumnsRequired(specs[|specs| - 1].value.columns, selected);
        HoldersRequired(specs[|specs| - 1].value.constraints, selected);
      }
    }
  }

  lemma {:induction false} ReferencesDemanded(clones: seq<Clone>)
    requires AllRequired(clones)
    ensures Demanded(ReferenceChecks(clones)) == Required(clones)
  {
    if clones != [] {
      var n := |clones| - 1;
      ReferencesDemanded(clones[..n]);
      DemandedAppend(ReferenceChecks(clones[..n]), [Check(clones[n].database, clones[n].table, MustExist, false)]);
      DemandedOne(Check(clones[n].database, clones[n].table, MustExist, false));
    }
  }

  lemma {:induction false} DropsDemanded(tables: seq<Option<TableName>>, selected: string, ifExists: bool)
    ensures Demanded(DropChecks(tables, selected, ifExists)) == Required(DropClones(tables, selected, ifExists))
  {
    if tables != [] {
      var n := |tables| - 1;
      DropsDemanded(tables[..n], selected, ifExists);
      if tables[n].Some? {
        RequiredAppend(DropClones(tables[..n], selected, ifExists), [CloneFor(tables[n].value, selected, !ifExists)]);
        DemandedAppend(DropChecks(tables[..n], selected, ifExists), [CheckFor(tables[n].value, selected, MustExist, ifExists)]);
        RequiredOne(CloneFor(tables[n].value, selected, !ifExists));
        DemandedOne(CheckFor(tables[n].value, selected, MustExist, ifExists));
      }
    }
  }

  lemma PairDemanded(p: Option<Pair>, selected: string)
    ensures Demanded(PairChecks(p, selected)) == Required(PairClones(p, selected))
  {
    if p.Some? {
      var o, n := p.value.oldTable, p.value.newTable;
      RequiredAppend(if o.Some? then [CloneFor(o.value, selected, true)] else [], if n.Some? then [CloneFor(n.value, selected, false)] else []);
      DemandedAppend(if o.Some? then [CheckFor(o.value, selected, MustExist, false)] else [],
                     if n.Some? then [CheckFor(n.value, selected, MustNotExist, false)] else []);
      if o.Some? {
        RequiredOne(CloneFor(o.value, selected, true));
        DemandedOne(CheckFor(o.value, selected, MustExist, false));
      }
      if n.Some? {
        RequiredOne(CloneFor(n.value, selected, false));
        DemandedOne(CheckFor(n.value, selected, MustNotExist, false));
      }
    }
  }

  lemma {:induction false} RenamesDemanded(pairs: seq<Option<Pair>>, selected: string)
    ensures Demanded(RenameChecks(pairs, selected)) == Required(RenameClones(pairs, selected))
  {
    if pairs != [] {
      var n := |pairs| - 1;
      RenamesDemanded(pairs[..n], selected);
      PairDemanded(pairs[n], selected);
      RequiredAppend(RenameClones(pairs[..n], selected), PairClones(pairs[n], selected));
      DemandedAppend(RenameChecks(pairs[..n], selected), PairChecks(pairs[n], selected));
    }
  }

  lemma LikeDemanded(like: Option<TableName>, selected: string)
    ensures Demanded(LikeChecks(like, selected)) == Required(LikeClones(like, selected))
  {
    if like.Some? {
      RequiredOne(CloneFor(like.value, selected, true));
      DemandedOne(CheckFor(like.value, selected, MustExist, false));
    }
  }

  lemma CreateDemanded(t: TableName, ifNotExists: bool, like: Option<TableName>, refs: seq<Clone>, selected: string)
    requires AllRequired(refs)
    ensures Demanded([CheckFor(t, selected, MustNotExist, ifNotExists)] + LikeChecks(like, selected) + ReferenceChecks(refs))
            == Required(LikeClones(like, selected) + refs)
  {
    var target := [CheckFor(t, selected, MustNotExist, ifNotExists)];
    DemandedOne(target[0]);
    DemandedAppend(target, LikeChecks(like, selected));
    DemandedAppend(target + LikeChecks(like, selected), ReferenceChecks(refs));
    LikeDemanded(like, selected);
    ReferencesDemanded(refs);
    RequiredAppend(LikeClones(like, selected), refs);
  }

  lemma AlterDemanded(t: TableName, refs: seq<Clone>, selected: string)
    requires AllRequired(refs)
    ensures Demanded([CheckFor(t, selected, MustExist, false)] + ReferenceChecks(refs)) == Required([CloneFor(t, selected, true)] + refs)
  {
    DemandedOne(CheckFor(t, selected, MustExist, false));
    RequiredOne(CloneFor(t, selected, true));
    DemandedAppend([CheckFor(t, selected, MustExist, false)], ReferenceChecks(refs));
    RequiredAppend([CloneFor(t, selected, true)], refs);
    ReferencesDemanded(refs);
  }

  /** For every kind of statement, and columns, constraints, specs, tables and pairs of any number, the
      checks insist on exactly the tables the clone plan requires, in the same order; and the two
      derivations fail for the same statements. */
  lemma ChecksDemandRequired(ddl: Ddl, selected: string)
    ensures Checks(ddl, selected).Some? <==> Clones(ddl, selected).Some?
    ensures Checks(ddl, selected).Some? ==> Demanded(Checks(ddl, selected).value) == Required(Clones(ddl, selected).value)
  {
    match ddl {
      case CreateTable(table, ifNotExists, like, columns, constraints) =>
        if table.Some? {
          ColumnsRequired(columns, selected);
          HoldersRequired(constraints, selected);
          CreateDemanded(table.value, ifNotExists, like, ColumnsClones(columns, selected) + HoldersClones(constraints, selected), selected);
        }
      case AlterTable(table, specs) =>
        if table.Some? {
          SpecsRequired(specs, selected);
          AlterDemanded(table.value, SpecsClones(specs, selected), selected);
        }
      case DropTable(tables, ifExists) => DropsDemanded(tables, selected, ifExists);
      case TruncateTable(table) =>
        if table.Some? {
          RequiredOne(CloneFor(table.value, selected, true));
          DemandedOne(CheckFor(table.value, selected, MustExist, false));
        }
      case RenameTable(pairs) => RenamesDemanded(pairs, selected);
      case OtherDdl =>
    }
  }

  // ----- the metadata of the source -----

  /** The base tables and the databases of the source. */
  datatype Catalog = Catalog(tables: set<Table>, databases: set<string>)

  function Target(c: Check): Table {
    (Trim(c.database), Trim(c.table))
  }

  predicate Mentions(checks: seq<Check>, database: string) {
    exists i :: 0 <= i < |checks| && Trim(checks[i].database) == database
  }

  /** The tables asked about: those of the checks, by trimmed names, and the selected database. */
  predicate Asked(checks: seq<Check>, selected: string, t: Table) {
    && t.0 != ""
    && ((exists i :: 0 <= i < |checks| && Target(checks[i]) == t)
        || (t == (Trim(selected), "") && !Mentions(checks, Trim(selected))))
  }

  /** The tables found to exist. */
  ghost function Present(catalog: Catalog, checks: seq<Check>, selected: string): set<Table> {
    set t | t in catalog.tables && Asked(checks, selected, t)
  }

  datatype Problem = EmptyName | Missing(table: string) | AlreadyThere(table: string) | Unreadable

  predicate Named(c: Check) {
    !Blank(c.database) && !Blank(c.table)
  }

  function CheckProblem(c: Check, present: set<Table>): Option<Problem> {
    if !Named(c) then Some(EmptyName)
    else if c.expectation == MustExist && (c.database, c.table) !in present && !c.optional then Some(Missing(c.table))
    else if c.expectation == MustNotExist && (c.database, c.table) in present && !c.optional then Some(AlreadyThere(c.table))
    else None
  }

  /** The first problem. */
  function Validate(checks: seq<Check>, present: set<Table>): (r: Option<Problem>) {
    if checks == [] then None
    else if CheckProblem(checks[0], present).Some? then CheckProblem(checks[0], present)
    else Validate(checks[1..], present)
  }

  lemma {:induction false} ValidIff(checks: seq<Check>, present: set<Table>)
    ensures Validate(checks, present).None? <==> forall i :: 0 <= i < |checks| ==> CheckProblem(checks[i], present).None?
  {
    if checks != [] {
      ValidIff(checks[1..], present);
      if CheckProblem(checks[0], present).None? && Validate(checks[1..], present).None? {
        forall i | 0 <= i < |checks| ensures CheckProblem(checks[i], present).None? {
          assert i > 0 ==> checks[i] == checks[1..][i - 1];
        }
      }
      if forall i :: 0 <= i < |checks| ==> CheckProblem(checks[i], present).None? {
        forall i | 0 <= i < |checks[1..]| ensures CheckProblem(checks[1..][i], present).None? {
          assert checks[1..][i] == checks[i + 1];
        }
      }
    }
  }

  predicate Insists(c: Check, t: Table) {
    c.expectation == MustExist && !c.optional && (c.database, c.table) == t
  }

  predicate Forbids(c: Check, t: Table) {
    c.expectation == MustNotExist && !c.optional && (c.database, c.table) == t
  }

  /** The tables that must not exist. */
  predicate Forbidden(checks: seq<Check>, t: Table) {
    exists i :: 0 <= i < |checks| && Forbids(checks[i], t)
  }

  lemma {:induction false} InDemanded(checks: seq<Check>, t: Table)
    ensures t in Demanded(checks) <==> exists i :: 0 <= i < |checks| && Insists(checks[i], t)
  {
    if checks != [] {
      var n := |checks| - 1;
      InDemanded(checks[..n], t);
      if i :| 0 <= i < n && Insists(checks[..n][i], t) {
        assert Insists(checks[i], t);
      }
      if i :| 0 <= i < |checks| && Insists(checks[i], t) {
        assert i < n ==> Insists(checks[..n][i], t);
      }
      assert Insists(checks[n], t) ==> exists i :: 0 <= i < |checks| && Insists(checks[i], t);
    }
  }

  predicate AllNamed(checks: seq<Check>) {
    forall i :: 0 <= i < |checks| ==> Named(checks[i])
  }

  lemma ValidMeansMet(checks: seq<Check>, present: set<Table>)
    requires Validate(checks, present).None?
    ensures AllNamed(checks)
    ensures forall t :: t in Demanded(checks) ==> t in present
    ensures forall t :: Forbidden(checks, t) ==> t !in present
  {
    ValidIff(checks, present);
    forall t | t in Demanded(checks) ensures t in present {
      InDemanded(checks, t);
      var i :| 0 <= i < |checks| && Insists(checks[i], t);
      assert CheckProblem(checks[i], present).None?;
    }
    forall t | Forbidden(checks, t) ensures t !in present {
      var i :| 0 <= i < |checks| && Forbids(checks[i], t);
      assert CheckProblem(checks[i], present).None?;
    }
  }

  lemma MetMeansValid(checks: seq<Check>, present: set<Table>)
    requires AllNamed(checks) && (forall t :: t in Demanded(checks) ==> t in present)
    requires forall t :: Forbidden(checks, t) ==> t !in present
    ensures Validate(checks, present).None?
  {
    forall i | 0 <= i < |checks| ensures CheckProblem(checks[i], present).None? {
      var t := (checks[i].database, checks[i].table);
      InDemanded(checks, t);
      assert Insists(checks[i], t) ==> t in present;
      assert Forbids(checks[i], t) ==> Forbidden(checks, t);
    }
    ValidIff(checks, present);
  }

  /** A statement is accepted exactly if all names are given, every table its clone plan requires is
      present, and no table it must not find is. */
  lemma AcceptedIff(ddl: Ddl, selected: string, present: set<Table>)
    requires Checks(ddl, selected).Some? && Clones(ddl, selected).Some?
    ensures var checks := Checks(ddl, selected).value;
            Validate(checks, present).None? <==>
            && AllNamed(checks)
            && (forall t :: t in Required(Clones(ddl, selected).value) ==> t in present)
            && (forall t :: Forbidden(checks, t) ==> t !in present)
  {
    var checks, required := Checks(ddl, selected).value, Required(Clones(ddl, selected).value);
    ChecksDemandRequired(ddl, selected);
    assert Demanded(checks) == required;
    AcceptedWhen(checks, required, present);
  }

  lemma AcceptedWhen(checks: seq<Check>, required: seq<Table>, present: set<Table>)
    requires Demanded(checks) == required
    ensures Validate(checks, present).None? <==>
            && AllNamed(checks)
            && (forall t :: t in required ==> t in present)
            && (forall t :: Forbidden(checks, t) ==> t !in present)
  {
    if Validate(checks, present).None? {
      ValidMeansMet(checks, present);
    } else if AllNamed(checks) && (forall t :: t in required ==> t in present) && (forall t :: Forbidden(checks, t) ==> t !in present) {
      MetMeansValid(checks, present);
    }
  }

  /** What an accepted statement's clones can count on. */
  lemma AcceptedIsCloneable(ddl: Ddl, selected: string, catalog: Catalog, asked: seq<Check>, c: Clone)
    requires Checks(ddl, selected).Some? && Clones(ddl, selected).Some? && Validate(Checks(ddl, selected).value, Present(catalog, asked, selected)).None?
    requires c in Clones(ddl, selected).value && c.required
    ensures (c.database, c.table) in catalog.tables
  {
    AcceptedIff(ddl, selected, Present(catalog, asked, selected));
    RequiredHolds(Clones(ddl, selected).value, c);
  }

  lemma {:induction false} RequiredHolds(clones: seq<Clone>, c: Clone)
    requires c in clones && c.required
    ensures (c.database, c.table) in Required(clones)
  {
    if c in clones[..|clones| - 1] {
      RequiredHolds(clones[..|clones| - 1], c);
    }
  }
}
