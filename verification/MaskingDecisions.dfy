/** What the analysis of a result decides: which columns by their lineage or heading, from which origins,
    and with which rule; and what is captured of it. */
module MaskingDecisions {
  import opened Text
  import Lineage
  import opened MaskingGrants

  // ----- with which rule -----

  predicate AllRuled(policy: Policy, origins: seq<Origin>) {
    forall j :: 0 <= j < |origins| ==> policy.lookup(origins[j].column).Some?
  }

  /** All the origins fall under rules of one mode. */
  predicate OneMode(policy: Policy, origins: seq<Origin>)
    requires AllRuled(policy, origins)
  {
    forall i, j :: 0 <= i < j < |origins| ==> policy.lookup(origins[i].column).value.mode == policy.lookup(origins[j].column).value.mode
  }

  /** The first origin's mode and configuration, or the full mask where modes differ. */
  predicate RuleIsRight(policy: Policy, heading: string, origins: seq<Origin>, rule: Rule) {
    && origins != [] && AllRuled(policy, origins)
    && rule.column == heading
    && (OneMode(policy, origins) ==>
          var first := policy.lookup(origins[0].column).value; rule.mode == first.mode && rule.config == first.config)
    && (!OneMode(policy, origins) ==> rule.mode == "full" && rule.config == "")
  }

  lemma DecideIsRight(policy: Policy, heading: string, origins: seq<Origin>)
    requires origins != [] && forall k :: 0 <= k < |origins| ==> Matchable(policy, origins[k])
    ensures RuleIsRight(policy, heading, origins, Decide(heading, Fired(policy, origins)))
  {
    var fired := Fired(policy, origins);
    forall k | 0 <= k < |origins| ensures fired[k] == policy.lookup(origins[k].column).value {
    }
    if OneMode(policy, origins) {
      forall k | 0 <= k < |fired| ensures fired[k].mode == fired[0].mode {
      }
    } else {
      var i, j :| 0 <= i < j < |origins| && policy.lookup(origins[i].column).value.mode != policy.lookup(origins[j].column).value.mode;
      assert fired[i].mode != fired[0].mode || fired[j].mode != fired[0].mode;
    }
  }

  // ----- from which origins -----

  predicate Stands(policy: Policy, dep: Origin, heading: string, at: Origin) {
    IsSensitive(policy, dep, heading) && at == Located(policy, dep, heading)
  }

  /** Each origin is that of a sensitive dependency. */
  lemma {:induction false} OriginsFrom(policy: Policy, deps: seq<Origin>, heading: string, at: Origin)
    requires at in SensitiveOrigins(policy, deps, heading)
    ensures exists k :: 0 <= k < |deps| && Stands(policy, deps[k], heading, at)
  {
    var n := |deps| - 1;
    if at in SensitiveOrigins(policy, deps[..n], heading) {
      OriginsFrom(policy, deps[..n], heading, at);
      var k :| 0 <= k < n && Stands(policy, deps[..n][k], heading, at);
      assert Stands(policy, deps[k], heading, at);
    } else {
      assert Stands(policy, deps[n], heading, at);
    }
  }

  lemma SeenAfter(origins: seq<Origin>, next: Origin, o: Origin)
    ensures Seen(origins, o) ==> Seen(origins + [next], o)
    ensures Seen(origins + [o], o)
  {
    if k :| 0 <= k < |origins| && OriginKey(origins[k]) == OriginKey(o) {
      assert (origins + [next])[k] == origins[k];
    }
    assert (origins + [o])[|origins|] == o;
  }

  lemma SeenNext(front: seq<Origin>, last: Origin, sensitive: bool, all: seq<Origin>, at: Origin)
    requires all == if sensitive && !Seen(front, last) then front + [last] else front
    ensures Seen(front, at) ==> Seen(all, at)
    ensures sensitive && at == last ==> Seen(all, at)
  {
    SeenAfter(front, last, at);
  }

  lemma OriginsGrow(policy: Policy, deps: seq<Origin>, heading: string)
    requires deps != []
    ensures SensitiveOrigins(policy, deps[..|deps| - 1], heading) <= SensitiveOrigins(policy, deps, heading)
  {
  }

  lemma {:induction false} OriginsStay(policy: Policy, deps: seq<Origin>, heading: string, k: nat, part: seq<Origin>)
    requires k <= |deps| && part == deps[..k]
    ensures SensitiveOrigins(policy, part, heading) <= SensitiveOrigins(policy, deps, heading)
  {
    if k == |deps| {
      assert part == deps;
    } else {
      var front := deps[..|deps| - 1];
      assert front[..k] == part;
      OriginsStay(policy, front, heading, k, part);
      OriginsGrow(policy, deps, heading);
    }
  }

  lemma OriginsCoverLast(policy: Policy, deps: seq<Origin>, heading: string, dep: Origin, at: Origin)
    requires deps != [] && deps[|deps| - 1] == dep && IsSensitive(policy, dep, heading) && at == Located(policy, dep, heading)
    ensures Seen(SensitiveOrigins(policy, deps, heading), at)
  {
    SeenNext(SensitiveOrigins(policy, deps[..|deps| - 1], heading), at, true, SensitiveOrigins(policy, deps, heading), at);
  }

  lemma SeenInPrefix(part: seq<Origin>, all: seq<Origin>, at: Origin)
    requires part <= all && Seen(part, at)
    ensures Seen(all, at)
  {
    var k :| 0 <= k < |part| && OriginKey(part[k]) == OriginKey(at);
    assert all[k] == part[k];
  }

  /** Each sensitive dependency has its origin, up to case. */
  lemma OriginsCover(policy: Policy, deps: seq<Origin>, heading: string, k: nat, dep: Origin, at: Origin)
    requires k < |deps| && deps[k] == dep && IsSensitive(policy, dep, heading) && at == Located(policy, dep, heading)
    ensures Seen(SensitiveOrigins(policy, deps, heading), at)
  {
    var part := deps[..k + 1];
    OriginsCoverLast(policy, part, heading, dep, at);
    OriginsStay(policy, deps, heading, k + 1, part);
    SeenInPrefix(SensitiveOrigins(policy, part, heading), SensitiveOrigins(policy, deps, heading), at);
  }

  lemma {:induction false} OriginsDiffer(policy: Policy, deps: seq<Origin>, heading: string, i: nat, j: nat)
    requires i < j < |SensitiveOrigins(policy, deps, heading)|
    ensures OriginKey(SensitiveOrigins(policy, deps, heading)[i]) != OriginKey(SensitiveOrigins(policy, deps, heading)[j])
  {
    var n := |deps| - 1;
    var front := SensitiveOrigins(policy, deps[..n], heading);
    if j < |front| {
      OriginsDiffer(policy, deps[..n], heading, i, j);
    }
  }

  /** The first sensitive dependency. */
  predicate IsFirst(policy: Policy, deps: seq<Origin>, heading: string, k: nat) {
    k < |deps| && IsSensitive(policy, deps[k], heading) && forall j :: 0 <= j < k ==> !IsSensitive(policy, deps[j], heading)
  }

  ghost predicate FirstComesFirst(policy: Policy, deps: seq<Origin>, heading: string, origins: seq<Origin>) {
    forall k: nat :: IsFirst(policy, deps, heading, k) ==> origins != [] && origins[0] == Located(policy, deps[k], heading)
  }

  lemma NothingBefore(policy: Policy, deps: seq<Origin>, heading: string, k: nat)
    requires k <= |deps| && forall j :: 0 <= j < k ==> !IsSensitive(policy, deps[j], heading)
    ensures SensitiveOrigins(policy, deps[..k], heading) == []
  {
    SensitiveOriginsIff(policy, deps[..k], heading);
    forall d | d in deps[..k] ensures !IsSensitive(policy, d, heading) {
      var j :| 0 <= j < k && deps[..k][j] == d;
      assert deps[j] == d;
    }
  }

  lemma FirstOriginIs(policy: Policy, deps: seq<Origin>, heading: string, k: nat)
    requires IsFirst(policy, deps, heading, k)
    ensures SensitiveOrigins(policy, deps, heading) != [] && SensitiveOrigins(policy, deps, heading)[0] == Located(policy, deps[k], heading)
  {
    var at, upTo := Located(policy, deps[k], heading), deps[..k + 1];
    NothingBefore(policy, deps, heading, k);
    assert upTo[..k] == deps[..k] && upTo[k] == deps[k];
    OnlyOrigin(policy, upTo, heading, at);
    OriginsStay(policy, deps, heading, k + 1, upTo);
  }

  lemma OnlyOrigin(policy: Policy, deps: seq<Origin>, heading: string, at: Origin)
    requires deps != [] && SensitiveOrigins(policy, deps[..|deps| - 1], heading) == [] && Stands(policy, deps[|deps| - 1], heading, at)
    ensures SensitiveOrigins(policy, deps, heading) == [at]
  {
    assert !Seen([], at);
  }

  /** A decision's rule carries the column's heading and follows the rules of its origins; its origins
      are those of the sensitive dependencies, each once up to case, the first of them first. */
  ghost predicate DecisionIsRight(policy: Policy, r: Result, d: Decision)
    requires d.index < |r.columns|
  {
    var heading, deps := r.columns[d.index], Dependencies(policy, r, d.index);
    && RuleIsRight(policy, heading, d.origins, d.rule)
    && (forall at :: at in d.origins ==> exists k :: 0 <= k < |deps| && Stands(policy, deps[k], heading, at))
    && (forall k :: 0 <= k < |deps| && IsSensitive(policy, deps[k], heading) ==> Seen(d.origins, Located(policy, deps[k], heading)))
    && (forall i, j :: 0 <= i < j < |d.origins| ==> OriginKey(d.origins[i]) != OriginKey(d.origins[j]))
    && FirstComesFirst(policy, deps, heading, d.origins)
  }

  lemma ColumnDecisionIsRight(policy: Policy, r: Result, i: nat)
    requires i < |r.columns| && ColumnDecision(policy, r, i).Some?
    ensures ColumnDecision(policy, r, i).value.index == i
    ensures DecisionIsRight(policy, r, ColumnDecision(policy, r, i).value)
  {
    var heading, deps := r.columns[i], Dependencies(policy, r, i);
    var origins := SensitiveOrigins(policy, deps, heading);
    SensitiveOriginsMatch(policy, deps, heading);
    DecideIsRight(policy, heading, origins);
    forall at | at in origins ensures exists k :: 0 <= k < |deps| && Stands(policy, deps[k], heading, at) {
      OriginsFrom(policy, deps, heading, at);
    }
    forall k | 0 <= k < |deps| && IsSensitive(policy, deps[k], heading) ensures Seen(origins, Located(policy, deps[k], heading)) {
      OriginsCover(policy, deps, heading, k, deps[k], Located(policy, deps[k], heading));
    }
    forall j, k | 0 <= j < k < |origins| ensures OriginKey(origins[j]) != OriginKey(origins[k]) {
      OriginsDiffer(policy, deps, heading, j, k);
    }
    forall k: nat | IsFirst(policy, deps, heading, k) ensures origins[0] == Located(policy, deps[k], heading) {
      FirstOriginIs(policy, deps, heading, k);
    }
  }

  lemma AnalyzedIsRight(policy: Policy, r: Result, k: nat)
    requires k < |Analyze(policy, r)|
    ensures Analyze(policy, r)[k].index < |r.columns| && DecisionIsRight(policy, r, Analyze(policy, r)[k])
  {
    var found := seq(|r.columns|, i requires 0 <= i < |r.columns| => ColumnDecision(policy, r, i));
    forall i | 0 <= i < |found| && found[i].Some? ensures found[i].value.index == i {
      ColumnDecisionIs(policy, r, i);
    }
    KeptIsFound(found, k);
    ColumnDecisionIsRight(policy, r, Analyze(policy, r)[k].index);
  }

  // ----- the rules left -----

  lemma {:induction false} RuleLeftIs(ds: seq<Decision>, granted: set<nat>, k: nat)
    requires k < |ds| && ds[k].index !in granted
    requires forall j :: k < j < |ds| ==> ds[j].index != ds[k].index
    ensures ds[k].index in RulesLeft(ds, granted) && RulesLeft(ds, granted)[ds[k].index] == ds[k].rule
  {
    var n := |ds| - 1;
    if k < n {
      forall j | k < j < n ensures ds[..n][j].index != ds[..n][k].index {
      }
      RuleLeftIs(ds[..n], granted, k);
      assert ds[n].index != ds[k].index;
    }
  }

  /** Which columns of a result are masked, and how: exactly the sensitive ones without a grant, each
      with the rule of its own decision. */
  lemma MaskedColumnsAre(policy: Policy, r: Result, granted: set<nat>, c: nat)
    ensures var left := RulesLeft(Analyze(policy, r), granted);
            && (c in left <==> c < |r.columns| && SensitiveColumn(policy, r, c) && c !in granted)
            && (c in left ==> exists k :: 0 <= k < |Analyze(policy, r)| && IsFor(policy, r, Analyze(policy, r)[k], c, left[c]))
  {
    var ds := Analyze(policy, r);
    AnalysisIsSound(policy, r);
    RulesLeftAre(ds, granted);
    if c in RulesLeft(ds, granted) {
      var k :| 0 <= k < |ds| && ds[k].index == c;
      RuleLeftIs(ds, granted, k);
      AnalyzedIsRight(policy, r, k);
      assert IsFor(policy, r, ds[k], c, RulesLeft(ds, granted)[c]);
    }
  }

  ghost predicate IsFor(policy: Policy, r: Result, d: Decision, c: nat, rule: Rule) {
    d.index == c < |r.columns| && d.rule == rule && DecisionIsRight(policy, r, d)
  }

  // ----- which columns -----

  /** A column that has a rule and is not on the whitelist; a column without a known place cannot be on it. */
  predicate SensitiveAt(policy: Policy, database: string, schema: string, table: string, column: string) {
    policy.lookup(column).Some? && !(table != "" && database != "" && policy.exempt(database, schema, table, column))
  }

  function Place(policy: Policy, database: string): string {
    if Trim(database) == "" then policy.database else Trim(database)
  }

  predicate SensitiveDep(policy: Policy, o: Origin) {
    SensitiveAt(policy, Place(policy, o.database), o.schema, Trim(o.table), Trim(o.column))
  }

  /** A column with lineage is decided exactly if one of the columns it depends on is sensitive. */
  lemma LineageDecides(policy: Policy, r: Result, i: nat)
    requires i < |r.columns| && i < |r.dependencies| && r.dependencies[i] != []
    requires forall o :: o in r.dependencies[i] ==> !Blank(o.table) && !Blank(o.column)
    ensures Decided(Analyze(policy, r), i) <==> exists o :: o in r.dependencies[i] && SensitiveDep(policy, o)
  {
    AnalysisIsSound(policy, r);
    forall o | o in r.dependencies[i] ensures IsSensitive(policy, o, r.columns[i]) <==> SensitiveDep(policy, o) {
    }
  }

  /** Only one place is considered: a column without lineage is decided exactly if that place is sensitive. */
  lemma OnePlaceDecides(policy: Policy, r: Result, i: nat, at: Origin, again: Origin)
    requires i < |r.columns| && Dependencies(policy, r, i) == [at] && again == Located(policy, at, r.columns[i]) && again.column != ""
    ensures Decided(Analyze(policy, r), i) <==> SensitiveAt(policy, again.database, again.schema, again.table, again.column)
  {
    AnalysisIsSound(policy, r);
    assert forall d :: d in Dependencies(policy, r, i) <==> d == at;
    assert SensitiveColumn(policy, r, i) <==> IsSensitive(policy, at, r.columns[i]);
  }

  /** A column without lineage whose origin is known goes by that. */
  lemma OriginDecides(policy: Policy, r: Result, i: nat, o: Origin)
    requires i < |r.columns| && (i < |r.dependencies| ==> r.dependencies[i] == [])
    requires i < |r.origins| && r.origins[i] == o && !Blank(o.table) && !Blank(o.column)
    ensures Decided(Analyze(policy, r), i) <==>
            SensitiveAt(policy, Place(policy, Place(policy, o.database)), o.schema, Trim(o.table), Trim(o.column))
  {
    var at := Located(policy, o, r.columns[i]);
    TrimIsTrimmed(o.table);
    TrimIsTrimmed(o.column);
    OnePlaceDecides(policy, r, i, at, Located(policy, at, r.columns[i]));
  }

  predicate Unplaced(r: Result, i: nat) {
    (i < |r.dependencies| ==> r.dependencies[i] == []) && (i < |r.origins| ==> r.origins[i] == Lineage.NO_ORIGIN)
  }

  /** The column and the table a heading names: its last two parts. */
  predicate HeadingNames(heading: string, pieces: seq<string>, table: string, column: string) {
    && pieces != [] && (forall k :: 0 <= k < |pieces| ==> '.' !in pieces[k]) && Trim(heading) == Join(pieces, '.')
    && column == Trim(pieces[|pieces| - 1])
    && table == if |pieces| >= 2 then Trim(pieces[|pieces| - 2]) else ""
  }

  lemma LocatedByHeading(policy: Policy, o: Origin, heading: string, pieces: seq<string>, table: string, column: string)
    requires HeadingNames(heading, pieces, table, column)
    ensures Blank(o.column) ==> ColumnName(o, heading) == column
    ensures Blank(o.table) ==> TableName(o, heading) == table
    ensures IsTrimmed(table) && IsTrimmed(column)
  {
    SplitOfJoin(pieces, '.');
    TrimIsTrimmed(pieces[|pieces| - 1]);
    if |pieces| >= 2 {
      TrimIsTrimmed(pieces[|pieces| - 2]);
    }
  }

  /** A column without lineage and origin goes by its heading; without a name there it is not decided. */
  lemma HeadingDecides(policy: Policy, r: Result, i: nat, pieces: seq<string>, table: string, column: string)
    requires i < |r.columns| && Unplaced(r, i) && HeadingNames(r.columns[i], pieces, table, column)
    ensures column == "" ==> !Decided(Analyze(policy, r), i)
    ensures column != "" ==>
              (Decided(Analyze(policy, r), i) <==> SensitiveAt(policy, Place(policy, policy.database), "", table, column))
  {
    var heading := r.columns[i];
    var at := Lineage.Origin(policy.database, "", table, column);
    LocatedByHeading(policy, Lineage.NO_ORIGIN, heading, pieces, table, column);
    assert Blank("");
    assert Located(policy, Lineage.NO_ORIGIN, heading) == at;
    if column == "" {
      AnalysisIsSound(policy, r);
      assert Dependencies(policy, r, i) == [];
    } else {
      TrimOfTrimmed(table);
      TrimOfTrimmed(column);
      LocatedByHeading(policy, at, heading, pieces, table, column);
      OnePlaceDecides(policy, r, i, at, Located(policy, at, heading));
    }
  }

  // ----- what is captured -----

  function OptionalName(name: string): Option<string> {
    if Trim(name) == "" then None else Some(Trim(name))
  }

  /** The scope that asks for one column: its names without surrounding space, a blank one left out. */
  predicate IsScopeFor(conn: nat, o: Origin, s: Scope) {
    && s.connection == conn && s.sensitive && s.kind == "query_column" && s.column == Trim(o.column)
    && s.database == OptionalName(o.database) && s.schema == OptionalName(o.schema) && s.table == OptionalName(o.table)
  }

  /** The scopes captured are those of the origins that name a column, each once. */
  lemma CapturedAre(conn: nat, ds: seq<Decision>, s: Scope)
    ensures s in Captured(conn, ds) <==> exists k, o :: 0 <= k < |ds| && o in ds[k].origins && Trim(o.column) != "" && IsScopeFor(conn, o, s)
    ensures multiset(Captured(conn, ds))[s] <= 1
  {
    var origins := AllOrigins(ds);
    ScopesOnce(conn, origins, s);
    if s in Captured(conn, ds) {
      var i := ScopesFrom(conn, origins, s);
      AllOriginsFrom(ds, origins[i]);
      assert IsScopeFor(conn, origins[i], s);
    }
    if k, o :| 0 <= k < |ds| && o in ds[k].origins && Trim(o.column) != "" && IsScopeFor(conn, o, s) {
      AllOriginsContain(ds, k, o);
      var i :| 0 <= i < |origins| && origins[i] == o;
      ScopesContain(conn, origins, i);
    }
  }

  lemma {:induction false} ScopesOnce(conn: nat, origins: seq<Origin>, s: Scope)
    ensures multiset(Scopes(conn, origins))[s] <= 1
  {
    if origins != [] {
      var n := |origins| - 1;
      ScopesOnce(conn, origins[..n], s);
      var front, o := Scopes(conn, origins[..n]), origins[n];
      if !Blank(o.column) && ScopeOf(conn, o) !in front {
        assert multiset(front + [ScopeOf(conn, o)]) == multiset(front) + multiset{ScopeOf(conn, o)};
        assert ScopeOf(conn, o) !in multiset(front);
      }
    }
  }

  /** The claim for a captured scope names the origin as it stands, without surrounding space. */
  lemma ClaimNames(conn: nat, o: Origin, s: Scope)
    requires IsScopeFor(conn, o, s)
    ensures ToClaims([s]) == [Claim(Trim(o.database), Trim(o.schema), Trim(o.table), Trim(o.column))]
  {
    TrimIsTrimmed(o.column);
  }
}
