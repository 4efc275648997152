/** Which tables a DDL statement names, read off the syntax tree, and that its clone plan and its checks
    ask for exactly these. */
module DdlNeeds {
  import opened Text
  import opened DdlPrecheck

  /** A table name with its database: the schema written, or the selected database if that is blank. */
  predicate IsAt(t: Option<TableName>, selected: string, x: Table) {
    t.Some? && x.1 == t.value.name && x.0 == if Trim(t.value.schema) == "" then selected else t.value.schema
  }

  // ----- what a statement names -----

  /** A column option or constraint refers to the table. */
  predicate Refers(h: Option<Holder>, selected: string, x: Table) {
    h.Some? && h.value.refer.Some? && IsAt(h.value.refer.value.table, selected, x)
  }

  predicate SomeRefers(hs: seq<Option<Holder>>, selected: string, x: Table) {
    exists i :: 0 <= i < |hs| && Refers(hs[i], selected, x)
  }

  predicate ColumnRefers(c: Option<Column>, selected: string, x: Table) {
    c.Some? && SomeRefers(c.value.options, selected, x)
  }

  predicate SomeColumnRefers(cs: seq<Option<Column>>, selected: string, x: Table) {
    exists i :: 0 <= i < |cs| && ColumnRefers(cs[i], selected, x)
  }

  predicate SpecRefers(s: Option<Spec>, selected: string, x: Table) {
    && s.Some?
    && (|| SomeColumnRefers(s.value.columns, selected, x)
        || Refers(s.value.single, selected, x)
        || SomeRefers(s.value.constraints, selected, x))
  }

  predicate SomeSpecRefers(specs: seq<Option<Spec>>, selected: string, x: Table) {
    exists i :: 0 <= i < |specs| && SpecRefers(specs[i], selected, x)
  }

  predicate SomeIsAt(tables: seq<Option<TableName>>, selected: string, x: Table) {
    exists i :: 0 <= i < |tables| && IsAt(tables[i], selected, x)
  }

  predicate OldIsAt(p: Option<Pair>, selected: string, x: Table) {
    p.Some? && IsAt(p.value.oldTable, selected, x)
  }

  predicate NewIsAt(p: Option<Pair>, selected: string, x: Table) {
    p.Some? && IsAt(p.value.newTable, selected, x)
  }

  predicate SomeOldIsAt(pairs: seq<Option<Pair>>, selected: string, x: Table) {
    exists i :: 0 <= i < |pairs| && OldIsAt(pairs[i], selected, x)
  }

  predicate SomeNewIsAt(pairs: seq<Option<Pair>>, selected: string, x: Table) {
    exists i :: 0 <= i < |pairs| && NewIsAt(pairs[i], selected, x)
  }

  /** The tables the statement cannot do without. */
  predicate Needs(ddl: Ddl, selected: string, x: Table) {
    match ddl
    case CreateTable(_, _, like, columns, constraints) =>
      IsAt(like, selected, x) || SomeColumnRefers(columns, selected, x) || SomeRefers(constraints, selected, x)
    case AlterTable(table, specs) => IsAt(table, selected, x) || SomeSpecRefers(specs, selected, x)
    case DropTable(tables, ifExists) => !ifExists && SomeIsAt(tables, selected, x)
    case TruncateTable(table) => IsAt(table, selected, x)
    case RenameTable(pairs) => SomeOldIsAt(pairs, selected, x)
    case OtherDdl => false
  }

  /** The tables that must not be there yet. */
  predicate Makes(ddl: Ddl, selected: string, x: Table) {
    match ddl
    case CreateTable(table, ifNotExists, _, _, _) => !ifNotExists && IsAt(table, selected, x)
    case RenameTable(pairs) => SomeNewIsAt(pairs, selected, x)
    case _ => false
  }

  /** All tables the statement names. */
  predicate Mentions(ddl: Ddl, selected: string, x: Table) {
    match ddl
    case CreateTable(table, _, _, _, _) => IsAt(table, selected, x) || Needs(ddl, selected, x)
    case DropTable(tables, _) => SomeIsAt(tables, selected, x)
    case RenameTable(pairs) => SomeOldIsAt(pairs, selected, x) || SomeNewIsAt(pairs, selected, x)
    case _ => Needs(ddl, selected, x)
  }

  lemma NamedAreMentioned(ddl: Ddl, selected: string, x: Table)
    requires Needs(ddl, selected, x) || Makes(ddl, selected, x)
    ensures Mentions(ddl, selected, x)
  {
  }

  // ----- the clone plan asks for them -----

  lemma SomeRefersLast(hs: seq<Option<Holder>>, selected: string, x: Table)
    requires hs != []
    ensures var n := |hs| - 1; SomeRefers(hs, selected, x) <==> SomeRefers(hs[..n], selected, x) || Refers(hs[n], selected, x)
  {
    var n := |hs| - 1;
    if i :| 0 <= i < n && Refers(hs[..n][i], selected, x) {
      assert Refers(hs[i], selected, x);
    }
    if i :| 0 <= i < |hs| && Refers(hs[i], selected, x) {
      assert i < n ==> Refers(hs[..n][i], selected, x);
    }
  }

  lemma SomeColumnLast(cs: seq<Option<Column>>, selected: string, x: Table)
    requires cs != []
    ensures var n := |cs| - 1; SomeColumnRefers(cs, selected, x) <==> SomeColumnRefers(cs[..n], selected, x) || ColumnRefers(cs[n], selected, x)
  {
    var n := |cs| - 1;
    if i :| 0 <= i < n && ColumnRefers(cs[..n][i], selected, x) {
      assert ColumnRefers(cs[i], selected, x);
    }
    if i :| 0 <= i < |cs| && ColumnRefers(cs[i], selected, x) {
      assert i < n ==> ColumnRefers(cs[..n][i], selected, x);
    }
  }

  lemma SomeSpecLast(specs: seq<Option<Spec>>, selected: string, x: Table)
    requires specs != []
    ensures var n := |specs| - 1; SomeSpecRefers(specs, selected, x) <==> SomeSpecRefers(specs[..n], selected, x) || SpecRefers(specs[n], selected, x)
  {
    var n := |specs| - 1;
    if i :| 0 <= i < n && SpecRefers(specs[..n][i], selected, x) {
      assert SpecRefers(specs[i], selected, x);
    }
    if i :| 0 <= i < |specs| && SpecRefers(specs[i], selected, x) {
      assert i < n ==> SpecRefers(specs[..n][i], selected, x);
    }
  }

  lemma {:induction false} HoldersIff(hs: seq<Option<Holder>>, selected: string, x: Table)
    ensures x in Required(HoldersClones(hs, selected)) <==> SomeRefers(hs, selected, x)
  {
    if hs != [] {
      var n := |hs| - 1;
      HoldersIff(hs[..n], selected, x);
      HolderIff(hs[n], selected, x);
      RequiredAppend(HoldersClones(hs[..n], selected), HolderClones(hs[n], selected));
      SomeRefersLast(hs, selected, x);
    }
  }

  lemma HolderIff(h: Option<Holder>, selected: string, x: Table)
    ensures x in Required(HolderClones(h, selected)) <==> Refers(h, selected, x)
  {
    if HolderClones(h, selected) != [] {
      RequiredOne(CloneFor(h.value.refer.value.table.value, selected, true));
    }
  }

  lemma {:induction false} ColumnsIff(cs: seq<Option<Column>>, selected: string, x: Table)
    ensures x in Required(ColumnsClones(cs, selected)) <==> SomeColumnRefers(cs, selected, x)
  {
    if cs != [] {
      var n := |cs| - 1;
      ColumnsIff(cs[..n], selected, x);
      RequiredAppend(ColumnsClones(cs[..n], selected), ColumnClones(cs[n], selected));
      if cs[n].Some? {
        HoldersIff(cs[n].value.options, selected, x);
      }
      SomeColumnLast(cs, selected, x);
    }
  }

  lemma SpecIff(s: Option<Spec>, selected: string, x: Table)
    ensures x in Required(SpecClones(s, selected)) <==> SpecRefers(s, selected, x)
  {
    if s.Some? {
      var columns, single, constraints :=
        ColumnsClones(s.value.columns, selected), HolderClones(s.value.single, selected), HoldersClones(s.value.constraints, selected);
      ColumnsIff(s.value.columns, selected, x);
      HolderIff(s.value.single, selected, x);
      HoldersIff(s.value.constraints, selected, x);
      RequiredAppend(columns, single);
      RequiredAppend(columns + single, constraints);
    }
  }

  lemma {:induction false} SpecsIff(specs: seq<Option<Spec>>, selected: string, x: Table)
    ensures x in Required(SpecsClones(specs, selected)) <==> SomeSpecRefers(specs, selected, x)
  {
    if specs != [] {
      var n := |specs| - 1;
      SpecsIff(specs[..n], selected, x);
      SpecIff(specs[n], selected, x);
      RequiredAppend(SpecsClones(specs[..n], selected), SpecClones(specs[n], selected));
      SomeSpecLast(specs, selected, x);
    }
  }

  lemma {:induction false} DropsIff(tables: seq<Option<TableName>>, selected: string, ifExists: bool, x: Table)
    ensures x in Required(DropClones(tables, selected, ifExists)) <==> !ifExists && SomeIsAt(tables, selected, x)
  {
    if tables != [] {
      var n := |tables| - 1;
      DropsIff(tables[..n], selected, ifExists, x);
      if tables[n].Some? {
        RequiredAppend(DropClones(tables[..n], selected, ifExists), [CloneFor(tables[n].value, selected, !ifExists)]);
        RequiredOne(CloneFor(tables[n].value, selected, !ifExists));
      }
      SomeIsAtLast(tables, selected, x);
    }
  }

  lemma SomeIsAtLast(tables: seq<Option<TableName>>, selected: string, x: Table)
    requires tables != []
    ensures var n := |tables| - 1; SomeIsAt(tables, selected, x) <==> SomeIsAt(tables[..n], selected, x) || IsAt(tables[n], selected, x)
  {
    var n := |tables| - 1;
    if i :| 0 <= i < n && IsAt(tables[..n][i], selected, x) {
      assert IsAt(tables[i], selected, x);
    }
    if i :| 0 <= i < |tables| && IsAt(tables[i], selected, x) {
      assert i < n ==> IsAt(tables[..n][i], selected, x);
    }
  }

  lemma PairIff(p: Option<Pair>, selected: string, x: Table)
    ensures x in Required(PairClones(p, selected)) <==> OldIsAt(p, selected, x)
  {
    if p.Some? {
      var o, n := p.value.oldTable, p.value.newTable;
      RequiredAppend(if o.Some? then [CloneFor(o.value, selected, true)] else [], if n.Some? then [CloneFor(n.value, selected, false)] else []);
      if o.Some? {
        RequiredOne(CloneFor(o.value, selected, true));
      }
      if n.Some? {
        RequiredOne(CloneFor(n.value, selected, false));
      }
    }
  }

  lemma {:induction false} RenamesIff(pairs: seq<Option<Pair>>, selected: string, x: Table)
    ensures x in Required(RenameClones(pairs, selected)) <==> SomeOldIsAt(pairs, selected, x)
  {
    if pairs != [] {
      var n := |pairs| - 1;
      RenamesIff(pairs[..n], selected, x);
      PairIff(pairs[n], selected, x);
      RequiredAppend(RenameClones(pairs[..n], selected), PairClones(pairs[n], selected));
      SomePairLast(pairs, selected, x);
    }
  }

  lemma SomePairLast(pairs: seq<Option<Pair>>, selected: string, x: Table)
    requires pairs != []
    ensures var n := |pairs| - 1;
            && (SomeOldIsAt(pairs, selected, x) <==> SomeOldIsAt(pairs[..n], selected, x) || OldIsAt(pairs[n], selected, x))
            && (SomeNewIsAt(pairs, selected, x) <==> SomeNewIsAt(pairs[..n], selected, x) || NewIsAt(pairs[n], selected, x))
  {
    var n := |pairs| - 1;
    if i :| 0 <= i < n && OldIsAt(pairs[..n][i], selected, x) {
      assert OldIsAt(pairs[i], selected, x);
    }
    if i :| 0 <= i < |pairs| && OldIsAt(pairs[i], selected, x) {
      assert i < n ==> OldIsAt(pairs[..n][i], selected, x);
    }
    if i :| 0 <= i < n && NewIsAt(pairs[..n][i], selected, x) {
      assert NewIsAt(pairs[i], selected, x);
    }
    if i :| 0 <= i < |pairs| && NewIsAt(pairs[i], selected, x) {
      assert i < n ==> NewIsAt(pairs[..n][i], selected, x);
    }
  }

  /** The plan requires exactly the tables the statement needs: its target where that must be there, the
      LIKE table, and every table a foreign key refers to, wherever it is written. */
  lemma RequiredIff(ddl: Ddl, selected: string, x: Table)
    requires Clones(ddl, selected).Some?
    ensures x in Required(Clones(ddl, selected).value) <==> Needs(ddl, selected, x)
  {
    match ddl {
      case CreateTable(_, _, like, columns, constraints) =>
        var first, second := ColumnsClones(columns, selected), HoldersClones(constraints, selected);
        ColumnsIff(columns, selected, x);
        HoldersIff(constraints, selected, x);
        RequiredAppend(first, second);
        RequiredAppend(LikeClones(like, selected), first + second);
        if like.Some? {
          RequiredOne(CloneFor(like.value, selected, true));
        }
      case AlterTable(table, specs) =>
        SpecsIff(specs, selected, x);
        RequiredOne(CloneFor(table.value, selected, true));
        RequiredAppend([CloneFor(table.value, selected, true)], SpecsClones(specs, selected));
      case DropTable(tables, ifExists) => DropsIff(tables, selected, ifExists, x);
      case TruncateTable(table) => RequiredOne(CloneFor(table.value, selected, true));
      case RenameTable(pairs) => RenamesIff(pairs, selected, x);
      case OtherDdl =>
    }
  }

  /** A plan is made exactly if the statement has its target. */
  lemma PlannedIff(ddl: Ddl, selected: string)
    ensures Clones(ddl, selected).Some? <==>
            ((ddl.CreateTable? ==> ddl.table.Some?) && (ddl.AlterTable? ==> ddl.table.Some?) && (ddl.TruncateTable? ==> ddl.table.Some?))
  {
  }

  // ----- what is copied, required or not -----

  predicate Copies(c: Clone, x: Table) {
    (c.database, c.table) == x
  }

  predicate SomeCopies(clones: seq<Clone>, x: Table) {
    exists i :: 0 <= i < |clones| && Copies(clones[i], x)
  }

  /** The tables the statement names, but for one that it creates. */
  predicate Uses(ddl: Ddl, selected: string, x: Table) {
    if ddl.CreateTable? then Needs(ddl, selected, x) else Mentions(ddl, selected, x)
  }

  lemma CopiesAppend(a: seq<Clone>, b: seq<Clone>, x: Table)
    ensures SomeCopies(a + b, x) <==> SomeCopies(a, x) || SomeCopies(b, x)
  {
    var all := a + b;
    if i :| 0 <= i < |a| && Copies(a[i], x) {
      assert Copies(all[i], x);
    }
    if i :| 0 <= i < |b| && Copies(b[i], x) {
      assert Copies(all[|a| + i], x);
    }
    if i :| 0 <= i < |all| && Copies(all[i], x) {
      assert if i < |a| then Copies(a[i], x) else Copies(b[i - |a|], x);
    }
  }

  lemma CopiesOne(c: Clone, x: Table)
    ensures SomeCopies([c], x) <==> Copies(c, x)
  {
    assert [c][0] == c;
  }

  lemma {:induction false} RequiredAreCopied(clones: seq<Clone>, x: Table)
    requires AllRequired(clones)
    ensures SomeCopies(clones, x) <==> x in Required(clones)
  {
    if clones != [] {
      var n := |clones| - 1;
      RequiredAreCopied(clones[..n], x);
      assert clones == clones[..n] + [clones[n]];
      CopiesAppend(clones[..n], [clones[n]], x);
      CopiesOne(clones[n], x);
    }
  }

  lemma {:induction false} DropsCopied(tables: seq<Option<TableName>>, selected: string, ifExists: bool, x: Table)
    ensures SomeCopies(DropClones(tables, selected, ifExists), x) <==> SomeIsAt(tables, selected, x)
  {
    if tables != [] {
      var n := |tables| - 1;
      DropsCopied(tables[..n], selected, ifExists, x);
      SomeIsAtLast(tables, selected, x);
      if tables[n].Some? {
        var c := CloneFor(tables[n].value, selected, !ifExists);
        CopiesAppend(DropClones(tables[..n], selected, ifExists), [c], x);
        CopiesOne(c, x);
      }
    }
  }

  lemma PairCopied(p: Option<Pair>, selected: string, x: Table)
    ensures SomeCopies(PairClones(p, selected), x) <==> OldIsAt(p, selected, x) || NewIsAt(p, selected, x)
  {
    if p.Some? {
      var o, n := p.value.oldTable, p.value.newTable;
      var first := if o.Some? then [CloneFor(o.value, selected, true)] else [];
      var second := if n.Some? then [CloneFor(n.value, selected, false)] else [];
      CopiesAppend(first, second, x);
      if o.Some? {
        CopiesOne(CloneFor(o.value, selected, true), x);
      }
      if n.Some? {
        CopiesOne(CloneFor(n.value, selected, false), x);
      }
    }
  }

  lemma {:induction false} RenamesCopied(pairs: seq<Option<Pair>>, selected: string, x: Table)
    ensures SomeCopies(RenameClones(pairs, selected), x) <==> SomeOldIsAt(pairs, selected, x) || SomeNewIsAt(pairs, selected, x)
  {
    if pairs != [] {
      var n := |pairs| - 1;
      RenamesCopied(pairs[..n], selected, x);
      PairCopied(pairs[n], selected, x);
      CopiesAppend(RenameClones(pairs[..n], selected), PairClones(pairs[n], selected), x);
      SomePairLast(pairs, selected, x);
    }
  }

  /** The plan copies exactly the tables the statement names, but for one that it creates. */
  lemma CopiedIff(ddl: Ddl, selected: string, x: Table)
    requires Clones(ddl, selected).Some?
    ensures SomeCopies(Clones(ddl, selected).value, x) <==> Uses(ddl, selected, x)
  {
    match ddl {
      case CreateTable(_, _, like, columns, constraints) =>
        ColumnsRequired(columns, selected);
        HoldersRequired(constraints, selected);
        RequiredAreCopied(Clones(ddl, selected).value, x);
        RequiredIff(ddl, selected, x);
      case AlterTable(table, specs) =>
        SpecsRequired(specs, selected);
        RequiredAreCopied(Clones(ddl, selected).value, x);
        RequiredIff(ddl, selected, x);
      case DropTable(tables, ifExists) => DropsCopied(tables, selected, ifExists, x);
      case TruncateTable(table) => CopiesOne(CloneFor(table.value, selected, true), x);
      case RenameTable(pairs) => RenamesCopied(pairs, selected, x);
      case OtherDdl =>
    }
  }

  // ----- the checks ask for them -----

  predicate Asks(c: Check, x: Table) {
    (c.database, c.table) == x
  }

  predicate SomeAsks(checks: seq<Check>, x: Table) {
    exists i :: 0 <= i < |checks| && Asks(checks[i], x)
  }

  lemma AskedAppend(a: seq<Check>, b: seq<Check>, x: Table)
    ensures Forbidden(a + b, x) <==> Forbidden(a, x) || Forbidden(b, x)
    ensures SomeAsks(a + b, x) <==> SomeAsks(a, x) || SomeAsks(b, x)
  {
    var all := a + b;
    forall i | 0 <= i < |a| ensures all[i] == a[i] {
    }
    forall i | 0 <= i < |b| ensures all[|a| + i] == b[i] {
    }
    if i :| 0 <= i < |b| && Forbids(b[i], x) {
      assert Forbids(all[|a| + i], x);
    }
    if i :| 0 <= i < |b| && Asks(b[i], x) {
      assert Asks(all[|a| + i], x);
    }
    if i :| 0 <= i < |all| && Forbids(all[i], x) {
      assert if i < |a| then Forbids(a[i], x) else Forbids(b[i - |a|], x);
    }
    if i :| 0 <= i < |all| && Asks(all[i], x) {
      assert if i < |a| then Asks(a[i], x) else Asks(b[i - |a|], x);
    }
  }

  lemma AskedOne(c: Check, x: Table)
    ensures Forbidden([c], x) <==> Forbids(c, x)
    ensures SomeAsks([c], x) <==> Asks(c, x)
  {
    assert [c][0] == c;
  }

  lemma {:induction false} ReferencesAsk(clones: seq<Clone>, x: Table)
    requires AllRequired(clones)
    ensures SomeAsks(ReferenceChecks(clones), x) <==> x in Required(clones)
    ensures !Forbidden(ReferenceChecks(clones), x)
  {
    if clones != [] {
      var n := |clones| - 1;
      var c := Check(clones[n].database, clones[n].table, MustExist, false);
      ReferencesAsk(clones[..n], x);
      AskedAppend(ReferenceChecks(clones[..n]), [c], x);
      AskedOne(c, x);
    }
  }

  lemma {:induction false} DropsAsk(tables: seq<Option<TableName>>, selected: string, ifExists: bool, x: Table)
    ensures SomeAsks(DropChecks(tables, selected, ifExists), x) <==> SomeIsAt(tables, selected, x)
    ensures !Forbidden(DropChecks(tables, selected, ifExists), x)
  {
    if tables != [] {
      var n := |tables| - 1;
      DropsAsk(tables[..n], selected, ifExists, x);
      SomeIsAtLast(tables, selected, x);
      if tables[n].Some? {
        var c := CheckFor(tables[n].value, selected, MustExist, ifExists);
        AskedAppend(DropChecks(tables[..n], selected, ifExists), [c], x);
        AskedOne(c, x);
      }
    }
  }

  lemma PairAsks(p: Option<Pair>, selected: string, x: Table)
    ensures SomeAsks(PairChecks(p, selected), x) <==> OldIsAt(p, selected, x) || NewIsAt(p, selected, x)
    ensures Forbidden(PairChecks(p, selected), x) <==> NewIsAt(p, selected, x)
  {
    if p.Some? {
      var o, n := p.value.oldTable, p.value.newTable;
      var first := if o.Some? then [CheckFor(o.value, selected, MustExist, false)] else [];
      var second := if n.Some? then [CheckFor(n.value, selected, MustNotExist, false)] else [];
      AskedAppend(first, second, x);
      if o.Some? {
        AskedOne(CheckFor(o.value, selected, MustExist, false), x);
      }
      if n.Some? {
        AskedOne(CheckFor(n.value, selected, MustNotExist, false), x);
      }
    }
  }

  lemma {:induction false} RenamesAsk(pairs: seq<Option<Pair>>, selected: string, x: Table)
    ensures SomeAsks(RenameChecks(pairs, selected), x) <==> SomeOldIsAt(pairs, selected, x) || SomeNewIsAt(pairs, selected, x)
    ensures Forbidden(RenameChecks(pairs, selected), x) <==> SomeNewIsAt(pairs, selected, x)
  {
    if pairs != [] {
      var n := |pairs| - 1;
      RenamesAsk(pairs[..n], selected, x);
      PairAsks(pairs[n], selected, x);
      AskedAppend(RenameChecks(pairs[..n], selected), PairChecks(pairs[n], selected), x);
      SomePairLast(pairs, selected, x);
    }
  }

  lemma CreateAsks(t: TableName, ifNotExists: bool, like: Option<TableName>, refs: seq<Clone>, selected: string, x: Table)
    requires AllRequired(refs)
    ensures var checks := [CheckFor(t, selected, MustNotExist, ifNotExists)] + LikeChecks(like, selected) + ReferenceChecks(refs);
            && (SomeAsks(checks, x) <==> IsAt(Some(t), selected, x) || IsAt(like, selected, x) || x in Required(refs))
            && (Forbidden(checks, x) <==> !ifNotExists && IsAt(Some(t), selected, x))
  {
    var target := CheckFor(t, selected, MustNotExist, ifNotExists);
    AskedOne(target, x);
    if like.Some? {
      AskedOne(CheckFor(like.value, selected, MustExist, false), x);
    }
    ReferencesAsk(refs, x);
    AskedAppend([target], LikeChecks(like, selected), x);
    AskedAppend([target] + LikeChecks(like, selected), ReferenceChecks(refs), x);
  }

  /** The checks ask about exactly the tables the statement names, and forbid exactly those it makes. */
  lemma ChecksIff(ddl: Ddl, selected: string, x: Table)
    requires Checks(ddl, selected).Some?
    ensures SomeAsks(Checks(ddl, selected).value, x) <==> Mentions(ddl, selected, x)
    ensures Forbidden(Checks(ddl, selected).value, x) <==> Makes(ddl, selected, x)
  {
    match ddl {
      case CreateTable(table, ifNotExists, like, columns, constraints) =>
        var first, second := ColumnsClones(columns, selected), HoldersClones(constraints, selected);
        ColumnsRequired(columns, selected);
        HoldersRequired(constraints, selected);
        CreateAsks(table.value, ifNotExists, like, first + second, selected, x);
        ColumnsIff(columns, selected, x);
        HoldersIff(constraints, selected, x);
        RequiredAppend(first, second);
      case AlterTable(table, specs) =>
        SpecsRequired(specs, selected);
        ReferencesAsk(SpecsClones(specs, selected), x);
        SpecsIff(specs, selected, x);
        AskedOne(CheckFor(table.value, selected, MustExist, false), x);
        AskedAppend([CheckFor(table.value, selected, MustExist, false)], ReferenceChecks(SpecsClones(specs, selected)), x);
      case DropTable(tables, ifExists) => DropsAsk(tables, selected, ifExists, x);
      case TruncateTable(table) => AskedOne(CheckFor(table.value, selected, MustExist, false), x);
      case RenameTable(pairs) => RenamesAsk(pairs, selected, x);
      case OtherDdl =>
    }
  }

  // ----- acceptance -----

  predicate Given(x: Table) {
    Trim(x.0) != "" && Trim(x.1) != ""
  }

  lemma AllNamedIff(checks: seq<Check>)
    ensures AllNamed(checks) <==> forall x :: SomeAsks(checks, x) ==> Given(x)
  {
    if forall x :: SomeAsks(checks, x) ==> Given(x) {
      forall i | 0 <= i < |checks| ensures Named(checks[i]) {
        var x := (checks[i].database, checks[i].table);
        assert Asks(checks[i], x);
        assert SomeAsks(checks, x);
      }
    }
    if AllNamed(checks) {
      forall x | SomeAsks(checks, x) ensures Given(x) {
        var i :| 0 <= i < |checks| && Asks(checks[i], x);
        assert Named(checks[i]);
      }
    }
  }

  /** A statement is accepted exactly if every table it names has a name and a database, every table it
      needs is present, and no table it makes is. */
  lemma AcceptedByNeeds(ddl: Ddl, selected: string, present: set<Table>)
    requires Checks(ddl, selected).Some? && Clones(ddl, selected).Some?
    ensures Validate(Checks(ddl, selected).value, present).None? <==>
            && (forall x :: Mentions(ddl, selected, x) ==> Given(x))
            && (forall x :: Needs(ddl, selected, x) ==> x in present)
            && (forall x :: Makes(ddl, selected, x) ==> x !in present)
  {
    var checks, required := Checks(ddl, selected).value, Required(Clones(ddl, selected).value);
    AcceptedIff(ddl, selected, present);
    AllNamedIff(checks);
    forall x ensures (SomeAsks(checks, x) <==> Mentions(ddl, selected, x)) && (Forbidden(checks, x) <==> Makes(ddl, selected, x)) {
      ChecksIff(ddl, selected, x);
    }
    forall x ensures x in required <==> Needs(ddl, selected, x) {
      RequiredIff(ddl, selected, x);
    }
  }

  lemma {:induction false} FailingCheck(checks: seq<Check>, present: set<Table>) returns (i: nat)
    requires Validate(checks, present).Some?
    ensures i < |checks| && Validate(checks, present) == CheckProblem(checks[i], present)
  {
    i := 0;
    if CheckProblem(checks[0], present).None? {
      i := FailingCheck(checks[1..], present);
      i := i + 1;
    }
  }

  /** The problem found is one the statement has. */
  lemma ProblemIsReal(ddl: Ddl, selected: string, present: set<Table>) returns (x: Table)
    requires Checks(ddl, selected).Some? && Validate(Checks(ddl, selected).value, present).Some?
    ensures Mentions(ddl, selected, x)
    ensures match Validate(Checks(ddl, selected).value, present).value
            case EmptyName => !Given(x)
            case Missing(name) => Needs(ddl, selected, x) && x.1 == name && x !in present
            case AlreadyThere(name) => Makes(ddl, selected, x) && x.1 == name && x in present
            case Unreadable => false
  {
    var checks := Checks(ddl, selected).value;
    var i := FailingCheck(checks, present);
    x := (checks[i].database, checks[i].table);
    assert Asks(checks[i], x);
    ChecksIff(ddl, selected, x);
    ChecksDemandRequired(ddl, selected);
    InDemanded(checks, x);
    RequiredIff(ddl, selected, x);
    assert Insists(checks[i], x) ==> x in Demanded(checks);
    assert DdlPrecheck.Forbids(checks[i], x) ==> Forbidden(checks, x);
  }
}
