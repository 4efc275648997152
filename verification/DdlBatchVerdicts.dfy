/** What the pre-check of a batch decides, in terms of the tables the statements name and the catalog
    of the source alone. */
module DdlBatchVerdicts {
  import opened Text
  import opened DdlPrecheck
  import DdlNeeds
  import opened DdlPrecheckBatch

  /** A table is looked up under its trimmed names, and compared with the names as written. */
  predicate Findable(catalog: Catalog, x: Table) {
    x in catalog.tables && IsTrimmed(x.0) && IsTrimmed(x.1)
  }

  predicate HasTarget(ddl: Ddl) {
    (ddl.CreateTable? ==> ddl.table.Some?) && (ddl.AlterTable? ==> ddl.table.Some?) && (ddl.TruncateTable? ==> ddl.table.Some?)
  }

  lemma PresentIff(catalog: Catalog, all: seq<Check>, selected: string, x: Table)
    requires DdlNeeds.SomeAsks(all, x) && DdlNeeds.Given(x)
    ensures x in Present(catalog, all, selected) <==> Findable(catalog, x)
  {
    if x in Present(catalog, all, selected) {
      var i :| 0 <= i < |all| && Target(all[i]) == x;
      TrimIsTrimmed(all[i].database);
      TrimIsTrimmed(all[i].table);
    }
    if Findable(catalog, x) {
      var i :| 0 <= i < |all| && DdlNeeds.Asks(all[i], x);
      TrimOfTrimmed(x.0);
      TrimOfTrimmed(x.1);
      assert Target(all[i]) == x;
    }
  }

  lemma GatheredLast(statements: seq<Statement>, selected: string)
    requires statements != [] && Gathered(statements, selected).Some?
    ensures var front, s := Gathered(statements[..|statements| - 1], selected), statements[|statements| - 1];
            && front.Some?
            && (!Scoped(s) ==> Gathered(statements, selected).value.1 == front.value.1)
            && (Scoped(s) ==> Checks(s.ddl, selected).Some? && Gathered(statements, selected).value.1 == front.value.1 + Checks(s.ddl, selected).value)
  {
  }

  /** Whatever a scoped statement checks is among the checks of the batch. */
  lemma {:induction false} GatheredCovers(statements: seq<Statement>, selected: string, i: nat, checks: seq<Check>, x: Table)
    requires Gathered(statements, selected).Some? && i < |statements| && Scoped(statements[i])
    requires Checks(statements[i].ddl, selected) == Some(checks) && DdlNeeds.SomeAsks(checks, x)
    ensures DdlNeeds.SomeAsks(Gathered(statements, selected).value.1, x)
  {
    var n := |statements| - 1;
    GatheredLast(statements, selected);
    var front := Gathered(statements[..n], selected).value.1;
    if i < n {
      assert statements[..n][i] == statements[i];
      GatheredCovers(statements[..n], selected, i, checks, x);
    }
    if Scoped(statements[n]) {
      DdlNeeds.AskedAppend(front, Checks(statements[n].ddl, selected).value, x);
    }
  }

  lemma {:induction false} GatheredIff(statements: seq<Statement>, selected: string)
    ensures Gathered(statements, selected).Some? <==> forall i :: 0 <= i < |statements| ==> HasTarget(statements[i].ddl)
  {
    if statements != [] {
      var n := |statements| - 1;
      var front, last := statements[..n], statements[n];
      GatheredIff(front, selected);
      DdlNeeds.PlannedIff(last.ddl, selected);
      ChecksDemandRequired(last.ddl, selected);
      if Gathered(front, selected).Some? && HasTarget(last.ddl) {
        forall i | 0 <= i < |statements| ensures HasTarget(statements[i].ddl) {
          assert i < n ==> front[i] == statements[i];
        }
      }
      if forall i :: 0 <= i < |statements| ==> HasTarget(statements[i].ddl) {
        forall i | 0 <= i < n ensures HasTarget(front[i].ddl) {
          assert front[i] == statements[i];
        }
      }
    }
  }

  lemma {:induction false} PlannedWhenTargets(statements: seq<Statement>, selected: string, bySeq: map<int, seq<Check>>, present: set<Table>)
    requires forall i :: 0 <= i < |statements| ==> HasTarget(statements[i].ddl)
    ensures Planned(statements, selected, bySeq, present).Some?
  {
    if statements != [] {
      var n := |statements| - 1;
      forall i | 0 <= i < n ensures HasTarget(statements[..n][i].ddl) {
        assert statements[..n][i] == statements[i];
      }
      PlannedWhenTargets(statements[..n], selected, bySeq, present);
      DdlNeeds.PlannedIff(statements[n].ddl, selected);
    }
  }

  /** The batch is given up exactly if some statement lacks its target. */
  lemma NoTargetIff(statements: seq<Statement>, selected: string, catalog: Catalog, reachable: bool)
    ensures BatchOf(statements, selected, catalog, reachable).NoTarget? <==> exists i :: 0 <= i < |statements| && !HasTarget(statements[i].ddl)
  {
    GatheredIff(statements, selected);
    if forall i :: 0 <= i < |statements| ==> HasTarget(statements[i].ddl) {
      var (bySeq, all) := Gathered(statements, selected).value;
      PlannedWhenTargets(statements, selected, bySeq, Present(catalog, all, selected));
    }
  }

  /** The selected database is found exactly if it is written without surrounding space and exists. */
  lemma SchemaFoundIff(catalog: Catalog, checks: seq<Check>, selected: string)
    ensures SchemaFound(catalog, checks, selected) <==> selected != "" && IsTrimmed(selected) && selected in catalog.databases
  {
    if t :| Asked(checks, selected, t) && t.0 == selected {
      TrimIsTrimmed(selected);
      if i :| 0 <= i < |checks| && Target(checks[i]) == t {
        TrimIsTrimmed(checks[i].database);
      }
    }
    if selected != "" && IsTrimmed(selected) {
      TrimOfTrimmed(selected);
      if i :| 0 <= i < |checks| && Trim(checks[i].database) == selected {
        assert Asked(checks, selected, Target(checks[i]));
      } else {
        assert Asked(checks, selected, (selected, ""));
      }
    }
  }

  /** Every table the statement names has a name and a database, every table it needs is found in the
      catalog, and no table it makes is. */
  ghost predicate Passes(ddl: Ddl, selected: string, catalog: Catalog) {
    && (forall x :: DdlNeeds.Mentions(ddl, selected, x) ==> DdlNeeds.Given(x))
    && (forall x :: DdlNeeds.Needs(ddl, selected, x) ==> Findable(catalog, x))
    && (forall x :: DdlNeeds.Makes(ddl, selected, x) ==> !Findable(catalog, x))
  }

  lemma ValidIffPasses(ddl: Ddl, selected: string, catalog: Catalog, all: seq<Check>, checks: seq<Check>)
    requires Checks(ddl, selected) == Some(checks) && forall x :: DdlNeeds.SomeAsks(checks, x) ==> DdlNeeds.SomeAsks(all, x)
    ensures Validate(checks, Present(catalog, all, selected)).None? <==> Passes(ddl, selected, catalog)
  {
    var present := Present(catalog, all, selected);
    ChecksDemandRequired(ddl, selected);
    DdlNeeds.AcceptedByNeeds(ddl, selected, present);
    if forall x :: DdlNeeds.Mentions(ddl, selected, x) ==> DdlNeeds.Given(x) {
      forall x | DdlNeeds.Needs(ddl, selected, x) || DdlNeeds.Makes(ddl, selected, x) ensures x in present <==> Findable(catalog, x) {
        DdlNeeds.NamedAreMentioned(ddl, selected, x);
        DdlNeeds.ChecksIff(ddl, selected, x);
        PresentIff(catalog, all, selected, x);
      }
    }
  }

  /** In a batch of distinctly numbered statements, each with its target, a statement is flagged exactly
      if it does not pass on its own, whatever else the batch contains. */
  lemma FlaggedIff(statements: seq<Statement>, selected: string, catalog: Catalog, i: nat)
    requires DistinctNumbers(statements) && !BatchOf(statements, selected, catalog, true).NoTarget?
    requires i < |statements| && Scoped(statements[i])
    ensures statements[i].seqNo in RecordedProblems(BatchOf(statements, selected, catalog, true)) <==> !Passes(statements[i].ddl, selected, catalog)
  {
    var (bySeq, all) := Gathered(statements, selected).value;
    OwnChecksIff(statements, selected);
    ProblemIff(statements, selected, bySeq, Present(catalog, all, selected), i);
    var checks := Checks(statements[i].ddl, selected).value;
    forall x | DdlNeeds.SomeAsks(checks, x) ensures DdlNeeds.SomeAsks(all, x) {
      GatheredCovers(statements, selected, i, checks, x);
    }
    ValidIffPasses(statements[i].ddl, selected, catalog, all, checks);
  }

  // ----- the plan -----

  predicate Contributes(s: Statement, selected: string, errors: map<int, Problem>, x: Table) {
    s.seqNo !in errors && DdlNeeds.Uses(s.ddl, selected, x)
  }

  predicate SomeContributes(statements: seq<Statement>, selected: string, errors: map<int, Problem>, x: Table) {
    exists i :: 0 <= i < |statements| && Contributes(statements[i], selected, errors, x)
  }

  lemma SomeContributesLast(statements: seq<Statement>, selected: string, errors: map<int, Problem>, x: Table)
    requires statements != []
    ensures var n := |statements| - 1;
            SomeContributes(statements, selected, errors, x) <==>
            SomeContributes(statements[..n], selected, errors, x) || Contributes(statements[n], selected, errors, x)
  {
    var n := |statements| - 1;
    if i :| 0 <= i < n && Contributes(statements[..n][i], selected, errors, x) {
      assert Contributes(statements[i], selected, errors, x);
    }
    if i :| 0 <= i < |statements| && Contributes(statements[i], selected, errors, x) {
      assert i < n ==> Contributes(statements[..n][i], selected, errors, x);
    }
  }

  /** A number recorded for another statement makes no difference. */
  lemma OthersContribute(statements: seq<Statement>, selected: string, before: map<int, Problem>, after: map<int, Problem>, number: int, x: Table)
    requires forall i :: 0 <= i < |statements| ==> statements[i].seqNo != number
    requires forall n :: n != number ==> (n in before <==> n in after)
    ensures SomeContributes(statements, selected, before, x) <==> SomeContributes(statements, selected, after, x)
  {
    if i :| 0 <= i < |statements| && Contributes(statements[i], selected, before, x) {
      assert Contributes(statements[i], selected, after, x);
    }
    if i :| 0 <= i < |statements| && Contributes(statements[i], selected, after, x) {
      assert Contributes(statements[i], selected, before, x);
    }
  }

  /** The plan copies exactly the tables used by the statements that were not flagged. */
  lemma {:induction false} PlanIff(statements: seq<Statement>, selected: string, bySeq: map<int, seq<Check>>, present: set<Table>,
                                   plan: (seq<Clone>, map<int, Problem>), x: Table)
    requires DistinctNumbers(statements) && Planned(statements, selected, bySeq, present) == Some(plan)
    ensures DdlNeeds.SomeCopies(plan.0, x) <==> SomeContributes(statements, selected, plan.1, x)
  {
    if statements != [] {
      var n := |statements| - 1;
      var front, last := statements[..n], statements[n];
      PlannedNext(statements, selected, bySeq, present);
      NotRecordedYet(statements, selected, bySeq, present);
      var before := Planned(front, selected, bySeq, present).value;
      PlanIff(front, selected, bySeq, present, before, x);
      OthersContribute(front, selected, before.1, plan.1, last.seqNo, x);
      SomeContributesLast(statements, selected, plan.1, x);
      if last.seqNo !in plan.1 {
        DdlNeeds.CopiesAppend(before.0, Clones(last.ddl, selected).value, x);
        DdlNeeds.CopiedIff(last.ddl, selected, x);
      }
    }
  }

  /** So the tables copied for a batch are those used by the statements that pass. */
  lemma CopiedForBatch(statements: seq<Statement>, selected: string, catalog: Catalog, x: Table)
    requires DistinctNumbers(statements) && !BatchOf(statements, selected, catalog, true).NoTarget?
    ensures DdlNeeds.SomeCopies(PlannedClones(BatchOf(statements, selected, catalog, true)), x) <==>
            exists i :: 0 <= i < |statements| && Passes(statements[i].ddl, selected, catalog) && DdlNeeds.Uses(statements[i].ddl, selected, x)
  {
    var batch := BatchOf(statements, selected, catalog, true);
    var (bySeq, all) := Gathered(statements, selected).value;
    var plan := (PlannedClones(batch), RecordedProblems(batch));
    PlanIff(statements, selected, bySeq, Present(catalog, all, selected), plan, x);
    forall i | 0 <= i < |statements| && DdlNeeds.Uses(statements[i].ddl, selected, x)
      ensures statements[i].seqNo in plan.1 <==> !Passes(statements[i].ddl, selected, catalog)
    {
      FlaggedIff(statements, selected, catalog, i);
    }
    if i :| 0 <= i < |statements| && Contributes(statements[i], selected, plan.1, x) {
      assert Passes(statements[i].ddl, selected, catalog);
    }
    if i :| 0 <= i < |statements| && Passes(statements[i].ddl, selected, catalog) && DdlNeeds.Uses(statements[i].ddl, selected, x) {
      assert Contributes(statements[i], selected, plan.1, x);
    }
  }

  /** Without a connection to the source every statement with a table to look at is flagged, and nothing is copied. */
  lemma UnreachableFlagsAll(statements: seq<Statement>, selected: string, catalog: Catalog, i: nat)
    requires !BatchOf(statements, selected, catalog, false).NoTarget? && i < |statements| && Scoped(statements[i])
    requires Trim(selected) != ""
    ensures PlannedClones(BatchOf(statements, selected, catalog, false)) == []
    ensures statements[i].seqNo in RecordedProblems(BatchOf(statements, selected, catalog, false))
  {
    var (bySeq, all) := Gathered(statements, selected).value;
    UnreadableCovers(statements, i);
    if j :| 0 <= j < |all| && Trim(all[j].database) == Trim(selected) {
      assert Asked(all, selected, Target(all[j]));
    } else {
      assert Asked(all, selected, (Trim(selected), ""));
    }
  }
}
