/** Sensitive columns: deciding which result columns to mask, capturing the decisions as ticket
    scopes and token claims, and unlocking with approved scopes. */
module MaskingGrants {
  import opened Text
  import Lineage

  type Origin = Lineage.Origin

  /** `None` stands for an absent (null) name. */
  datatype Scope = Scope(
    connection: nat, database: Option<string>, schema: Option<string>, table: Option<string>,
    column: string, sensitive: bool, kind: string)

  datatype Claim = Claim(database: string, schema: string, table: string, column: string)

  datatype Rule = Rule(column: string, mode: string, config: string)

  datatype Decision = Decision(index: nat, rule: Rule, origins: seq<Origin>)

  // ----- capturing decisions as scopes and claims -----

  function Optional(s: string): Option<string> {
    if Blank(s) then None else Some(Trim(s))
  }

  function OrEmpty(o: Option<string>): string {
    if o.None? then "" else o.value
  }

  function ScopeOf(conn: nat, o: Origin): Scope {
    Scope(conn, Optional(o.database), Optional(o.schema), Optional(o.table), Trim(o.column), true, "query_column")
  }

  function AllOrigins(ds: seq<Decision>): (r: seq<Origin>) {
    if ds == [] then [] else AllOrigins(ds[..|ds| - 1]) + ds[|ds| - 1].origins
  }

  /** One scope per distinct trimmed origin with a column name, in order of first occurrence. */
  function Scopes(conn: nat, origins: seq<Origin>): (r: seq<Scope>) {
    if origins == [] then []
    else
      var front, o := Scopes(conn, origins[..|origins| - 1]), origins[|origins| - 1];
      if Blank(o.column) || ScopeOf(conn, o) in front then front else front + [ScopeOf(conn, o)]
  }

  function Captured(conn: nat, ds: seq<Decision>): seq<Scope> {
    Scopes(conn, AllOrigins(ds))
  }

  function ClaimOf(s: Scope): Claim {
    Claim(OrEmpty(s.database), OrEmpty(s.schema), OrEmpty(s.table), Trim(s.column))
  }

  function ToClaims(scopes: seq<Scope>): (r: seq<Claim>) {
    seq(|scopes|, i requires 0 <= i < |scopes| => ClaimOf(scopes[i]))
  }

  function FromClaim(conn: nat, c: Claim): Scope {
    Scope(conn, Optional(c.database), Optional(c.schema), Optional(c.table), Trim(c.column), true, "query_column")
  }

  function FromClaims(conn: nat, claims: seq<Claim>): (r: seq<Scope>) {
    if claims == [] then []
    else
      var front, c := FromClaims(conn, claims[..|claims| - 1]), claims[|claims| - 1];
      if Blank(c.column) then front else front + [FromClaim(conn, c)]
  }

  lemma OptionalRoundTrip(s: string)
    ensures Optional(OrEmpty(Optional(s))) == Optional(s)
  {
    TrimIsTrimmed(s);
  }

  lemma ClaimRoundTrip(conn: nat, o: Origin)
    ensures FromClaim(conn, ClaimOf(ScopeOf(conn, o))) == ScopeOf(conn, o)
    ensures ClaimOf(ScopeOf(conn, o)).column == Trim(o.column) == Trim(Trim(o.column))
  {
    OptionalRoundTrip(o.database);
    OptionalRoundTrip(o.schema);
    OptionalRoundTrip(o.table);
    TrimIsTrimmed(o.column);
  }

  /** Each origin that has a column name has its scope captured. */
  lemma {:induction false} ScopesContain(conn: nat, origins: seq<Origin>, k: nat)
    requires k < |origins| && !Blank(origins[k].column)
    ensures ScopeOf(conn, origins[k]) in Scopes(conn, origins)
  {
    var n := |origins| - 1;
    if k < n {
      ScopesContain(conn, origins[..n], k);
    }
  }

  /** A captured scope is the scope of one of the origins, one that has a column name. */
  lemma {:induction false} ScopesFrom(conn: nat, origins: seq<Origin>, s: Scope) returns (k: nat)
    requires s in Scopes(conn, origins)
    ensures k < |origins| && !Blank(origins[k].column) && s == ScopeOf(conn, origins[k])
  {
    var n := |origins| - 1;
    if s in Scopes(conn, origins[..n]) {
      k := ScopesFrom(conn, origins[..n], s);
    } else {
      k := n;
    }
  }

  lemma {:induction false} ScopesRoundTrip(conn: nat, origins: seq<Origin>)
    ensures FromClaims(conn, ToClaims(Scopes(conn, origins))) == Scopes(conn, origins)
  {
    if origins != [] {
      var n := |origins| - 1;
      ScopesRoundTrip(conn, origins[..n]);
      var front, all := Scopes(conn, origins[..n]), Scopes(conn, origins);
      if all != front {
        ClaimRoundTrip(conn, origins[n]);
        var claims := ToClaims(all);
        assert claims[..|claims| - 1] == ToClaims(front);
      }
    }
  }

  /** Decisions captured as scopes survive the trip through the query-context token unchanged. */
  lemma CaptureRoundTrip(conn: nat, ds: seq<Decision>)
    ensures FromClaims(conn, ToClaims(Captured(conn, ds))) == Captured(conn, ds)
  {
    ScopesRoundTrip(conn, AllOrigins(ds));
  }

  // ----- unlocking -----

  predicate NameMatches(name: Option<string>, actual: string) {
    name.Some? && !Blank(name.value) ==> SameFold(Trim(name.value), Trim(actual))
  }

  predicate ScopeMatches(s: Scope, o: Origin) {
    && SameFold(Trim(s.column), Trim(o.column))
    && NameMatches(s.table, o.table) && NameMatches(s.schema, o.schema) && NameMatches(s.database, o.database)
  }

  predicate Covered(scopes: seq<Scope>, o: Origin) {
    exists s :: s in scopes && ScopeMatches(s, o)
  }

  predicate Granted(scopes: seq<Scope>, d: Decision) {
    forall o :: o in d.origins ==> Covered(scopes, o)
  }

  /** The column indexes a user's active scopes unlock. */
  function GrantedIndexes(user: nat, scopes: seq<Scope>, ds: seq<Decision>): (r: set<nat>) {
    if user == 0 || scopes == [] then {}
    else set k | 0 <= k < |ds| && Granted(scopes, ds[k]) :: ds[k].index
  }

  lemma OwnScopeMatches(conn: nat, o: Origin)
    ensures ScopeMatches(ScopeOf(conn, o), o)
  {
    TrimIsTrimmed(o.column);
    TrimIsTrimmed(o.table);
    TrimIsTrimmed(o.schema);
    TrimIsTrimmed(o.database);
  }

  lemma BlankIsNeverMatched(conn: nat, o: Origin, blank: Origin)
    requires !Blank(o.column) && Blank(blank.column)
    ensures !ScopeMatches(ScopeOf(conn, o), blank)
  {
    TrimIsTrimmed(o.column);
    assert |Fold(Trim(o.column))| == |Trim(o.column)|;
  }

  lemma {:induction false} AllOriginsContain(ds: seq<Decision>, k: nat, o: Origin)
    requires k < |ds| && o in ds[k].origins
    ensures o in AllOrigins(ds)
  {
    if k < |ds| - 1 {
      AllOriginsContain(ds[..|ds| - 1], k, o);
    }
  }

  lemma {:induction false} AllOriginsFrom(ds: seq<Decision>, o: Origin)
    requires o in AllOrigins(ds)
    ensures exists k :: 0 <= k < |ds| && o in ds[k].origins
  {
    var n := |ds| - 1;
    if o !in ds[n].origins {
      AllOriginsFrom(ds[..n], o);
      var k :| 0 <= k < n && o in ds[..n][k].origins;
      assert ds[k] == ds[..n][k];
    }
  }

  predicate Named(d: Decision) {
    forall o :: o in d.origins ==> !Blank(o.column)
  }

  lemma CoveredIffNamed(conn: nat, ds: seq<Decision>, k: nat, o: Origin)
    requires k < |ds| && o in ds[k].origins
    ensures Covered(Captured(conn, ds), o) <==> !Blank(o.column)
  {
    var origins, scopes := AllOrigins(ds), Captured(conn, ds);
    AllOriginsContain(ds, k, o);
    var i :| 0 <= i < |origins| && origins[i] == o;
    if !Blank(o.column) {
      OwnScopeMatches(conn, o);
      ScopesContain(conn, origins, i);
    } else if s :| s in scopes && ScopeMatches(s, o) {
      var j := ScopesFrom(conn, origins, s);
      BlankIsNeverMatched(conn, origins[j], o);
    }
  }

  lemma GrantedIffNamed(conn: nat, ds: seq<Decision>, k: nat)
    requires k < |ds|
    ensures Granted(Captured(conn, ds), ds[k]) <==> Named(ds[k])
  {
    forall o | o in ds[k].origins ensures Covered(Captured(conn, ds), o) <==> !Blank(o.column) {
      CoveredIffNamed(conn, ds, k, o);
    }
  }

  /** Granting the scopes captured from a decision list unlocks exactly the decisions all of whose
      origins have a column name, provided some origin has one at all. */
  lemma CaptureUnlocksIff(user: nat, conn: nat, ds: seq<Decision>, index: nat)
    requires user != 0
    ensures index in GrantedIndexes(user, Captured(conn, ds), ds) <==>
      && (exists k :: 0 <= k < |ds| && ds[k].index == index && Named(ds[k]))
      && (exists k, o :: 0 <= k < |ds| && o in ds[k].origins && !Blank(o.column))
  {
    var scopes := Captured(conn, ds);
    forall k | 0 <= k < |ds| ensures Granted(scopes, ds[k]) <==> Named(ds[k]) {
      GrantedIffNamed(conn, ds, k);
    }
    CapturedEmptyIff(conn, ds);
  }

  /** A decision on an origin without a column name stays locked. */
  lemma UnnamedOriginStaysLocked(user: nat, conn: nat, rule: Rule)
    requires user != 0
    ensures var ds := [Decision(0, rule, [Lineage.NO_ORIGIN])];
            0 !in GrantedIndexes(user, Captured(conn, ds), ds)
  {
    var ds := [Decision(0, rule, [Lineage.NO_ORIGIN])];
    CaptureUnlocksIff(user, conn, ds, 0);
    assert ds[0].origins[0] in ds[0].origins && Blank("");
  }

  lemma CapturedEmptyIff(conn: nat, ds: seq<Decision>)
    ensures Captured(conn, ds) != [] <==> exists k, o :: 0 <= k < |ds| && o in ds[k].origins && !Blank(o.column)
  {
    var origins, scopes := AllOrigins(ds), Captured(conn, ds);
    if scopes != [] {
      var i := ScopesFrom(conn, origins, scopes[0]);
      AllOriginsFrom(ds, origins[i]);
    }
    if k, o :| 0 <= k < |ds| && o in ds[k].origins && !Blank(o.column) {
      AllOriginsContain(ds, k, o);
      var i :| 0 <= i < |origins| && origins[i] == o;
      ScopesContain(conn, origins, i);
    }
  }

  /** An origin of one query whose scope reaches an origin of another: the same column, and the same
      table, schema and database wherever it names them. */
  predicate Reaches(p: Origin, o: Origin) {
    && !Blank(p.column) && SameFold(Trim(p.column), Trim(o.column))
    && (Blank(p.table) || SameFold(Trim(p.table), Trim(o.table)))
    && (Blank(p.schema) || SameFold(Trim(p.schema), Trim(o.schema)))
    && (Blank(p.database) || SameFold(Trim(p.database), Trim(o.database)))
  }

  predicate Reached(ds: seq<Decision>, o: Origin) {
    exists k, p :: 0 <= k < |ds| && p in ds[k].origins && Reaches(p, o)
  }

  lemma OptionalMatchesIff(name: string, actual: string)
    ensures NameMatches(Optional(name), actual) <==> Blank(name) || SameFold(Trim(name), Trim(actual))
  {
    TrimIsTrimmed(name);
  }

  lemma ScopeReachesIff(conn: nat, p: Origin, o: Origin)
    requires !Blank(p.column)
    ensures ScopeMatches(ScopeOf(conn, p), o) <==> Reaches(p, o)
  {
    TrimIsTrimmed(p.column);
    OptionalMatchesIff(p.table, o.table);
    OptionalMatchesIff(p.schema, o.schema);
    OptionalMatchesIff(p.database, o.database);
  }

  lemma CoveredIffReached(conn: nat, ds: seq<Decision>, o: Origin)
    ensures Covered(Captured(conn, ds), o) <==> Reached(ds, o)
  {
    var origins := AllOrigins(ds);
    if s :| s in Captured(conn, ds) && ScopeMatches(s, o) {
      var i := ScopesFrom(conn, origins, s);
      ScopeReachesIff(conn, origins[i], o);
      AllOriginsFrom(ds, origins[i]);
    }
    if k, p :| 0 <= k < |ds| && p in ds[k].origins && Reaches(p, o) {
      AllOriginsContain(ds, k, p);
      var i :| 0 <= i < |origins| && origins[i] == p;
      ScopesContain(conn, origins, i);
      ScopeReachesIff(conn, p, o);
    }
  }

  /** What the scopes captured from one query unlock of another: exactly the columns with a decision all
      of whose origins are reached from the first query, provided it captured any scope. */
  lemma CaptureUnlocksOthersIff(user: nat, conn: nat, ds: seq<Decision>, others: seq<Decision>, index: nat)
    requires user != 0
    ensures index in GrantedIndexes(user, Captured(conn, ds), others) <==>
      && (exists k, o :: 0 <= k < |ds| && o in ds[k].origins && !Blank(o.column))
      && (exists k :: 0 <= k < |others| && others[k].index == index && forall o :: o in others[k].origins ==> Reached(ds, o))
  {
    var scopes := Captured(conn, ds);
    CapturedEmptyIff(conn, ds);
    forall k | 0 <= k < |others| ensures Granted(scopes, others[k]) <==> forall o :: o in others[k].origins ==> Reached(ds, o) {
      GrantedIffReached(conn, ds, others[k]);
    }
  }

  lemma GrantedIffReached(conn: nat, ds: seq<Decision>, d: Decision)
    ensures Granted(Captured(conn, ds), d) <==> forall o :: o in d.origins ==> Reached(ds, o)
  {
    forall o | o in d.origins ensures Covered(Captured(conn, ds), o) <==> Reached(ds, o) {
      CoveredIffReached(conn, ds, o);
    }
  }

  /** More scopes never take a grant away. */
  lemma GrantsAreMonotone(user: nat, scopes: seq<Scope>, more: seq<Scope>, ds: seq<Decision>)
    requires forall s :: s in scopes ==> s in more
    ensures GrantedIndexes(user, scopes, ds) <= GrantedIndexes(user, more, ds)
  {
    if scopes != [] {
      assert scopes[0] in more;
      forall d | Granted(scopes, d) ensures Granted(more, d) {
        forall o | o in d.origins ensures Covered(more, o) {
          assert Covered(scopes, o);
        }
      }
    }
  }

  // ----- deciding what is sensitive -----

  /** The rule a column name falls under, the unmask whitelist, and the connection's database. */
  datatype Policy = Policy(
    lookup: string -> Option<Rule>,
    exempt: (string, string, string, string) -> bool,
    database: string)

  function ColumnName(o: Origin, heading: string): string {
    if !Blank(o.column) then Trim(o.column)
    else var parts := Split(Trim(heading), '.'); Trim(parts[|parts| - 1])
  }

  function TableName(o: Origin, heading: string): string {
    if !Blank(o.table) then Trim(o.table)
    else var parts := Split(Trim(heading), '.'); if |parts| >= 2 then Trim(parts[|parts| - 2]) else ""
  }

  function DatabaseName(policy: Policy, o: Origin): string {
    if !Blank(o.database) then Trim(o.database) else policy.database
  }

  function Located(policy: Policy, o: Origin, heading: string): Origin {
    Lineage.Origin(DatabaseName(policy, o), o.schema, TableName(o, heading), ColumnName(o, heading))
  }

  predicate IsExempt(policy: Policy, at: Origin) {
    at.table != "" && at.database != "" && policy.exempt(at.database, at.schema, at.table, at.column)
  }

  predicate IsSensitive(policy: Policy, o: Origin, heading: string) {
    var at := Located(policy, o, heading);
    at.column != "" && policy.lookup(at.column).Some? && !IsExempt(policy, at)
  }

  function OriginKey(o: Origin): (string, string, string, string) {
    (Fold(Trim(o.database)), Fold(Trim(o.schema)), Fold(Trim(o.table)), Fold(Trim(o.column)))
  }

  predicate Seen(origins: seq<Origin>, o: Origin) {
    exists k :: 0 <= k < |origins| && OriginKey(origins[k]) == OriginKey(o)
  }

  /** The sensitive origins of a column's dependencies, each once up to case. */
  function SensitiveOrigins(policy: Policy, deps: seq<Origin>, heading: string): (r: seq<Origin>) {
    if deps == [] then []
    else
      var front, o := SensitiveOrigins(policy, deps[..|deps| - 1], heading), deps[|deps| - 1];
      var at := Located(policy, o, heading);
      if IsSensitive(policy, o, heading) && !Seen(front, at) then front + [at] else front
  }

  function Fired(policy: Policy, origins: seq<Origin>): (r: seq<Rule>)
    requires forall k :: 0 <= k < |origins| ==> Matchable(policy, origins[k])
  {
    seq(|origins|, k requires 0 <= k < |origins| && Matchable(policy, origins[k]) => policy.lookup(origins[k].column).value)
  }

  /** The first rule's mode when all fired rules have it, and the full mask when they differ. */
  function Decide(heading: string, fired: seq<Rule>): Rule
    requires fired != []
  {
    if forall k :: 0 <= k < |fired| ==> fired[k].mode == fired[0].mode
    then Rule(heading, fired[0].mode, fired[0].config)
    else Rule(heading, "full", "")
  }

  lemma LocatedIsTrimmed(policy: Policy, o: Origin, heading: string)
    ensures IsTrimmed(Located(policy, o, heading).column)
  {
    TrimIsTrimmed(o.column);
    var parts := Split(Trim(heading), '.');
    TrimIsTrimmed(parts[|parts| - 1]);
  }

  predicate Matchable(policy: Policy, at: Origin) {
    at.column != "" && IsTrimmed(at.column) && policy.lookup(at.column).Some?
  }

  lemma {:induction false} SensitiveOriginsMatch(policy: Policy, deps: seq<Origin>, heading: string)
    ensures forall k :: 0 <= k < |SensitiveOrigins(policy, deps, heading)| ==> Matchable(policy, SensitiveOrigins(policy, deps, heading)[k])
  {
    if deps != [] {
      SensitiveOriginsMatch(policy, deps[..|deps| - 1], heading);
      LocatedIsTrimmed(policy, deps[|deps| - 1], heading);
    }
  }

  lemma {:induction false} SensitiveShows(policy: Policy, deps: seq<Origin>, heading: string, k: nat)
    requires k < |deps| && IsSensitive(policy, deps[k], heading)
    ensures SensitiveOrigins(policy, deps, heading) != []
  {
    if k < |deps| - 1 {
      SensitiveShows(policy, deps[..|deps| - 1], heading, k);
    }
  }

  lemma {:induction false} ShownIsSensitive(policy: Policy, deps: seq<Origin>, heading: string) returns (k: nat)
    requires SensitiveOrigins(policy, deps, heading) != []
    ensures k < |deps| && IsSensitive(policy, deps[k], heading)
  {
    var n := |deps| - 1;
    if SensitiveOrigins(policy, deps[..n], heading) == [] {
      k := n;
    } else {
      k := ShownIsSensitive(policy, deps[..n], heading);
    }
  }

  lemma SensitiveOriginsIff(policy: Policy, deps: seq<Origin>, heading: string)
    ensures SensitiveOrigins(policy, deps, heading) != [] <==> exists d :: d in deps && IsSensitive(policy, d, heading)
  {
    if SensitiveOrigins(policy, deps, heading) != [] {
      var k := ShownIsSensitive(policy, deps, heading);
      assert deps[k] in deps;
    }
    if d :| d in deps && IsSensitive(policy, d, heading) {
      var k :| 0 <= k < |deps| && deps[k] == d;
      SensitiveShows(policy, deps, heading, k);
    }
  }

  /** A result: column labels, and per column its dependencies, empty when lineage gave none, and
      its origin. */
  datatype Result = Result(columns: seq<string>, dependencies: seq<seq<Origin>>, origins: seq<Origin>)

  /** A column without dependencies is judged by its origin or, failing that, by its heading. */
  function Dependencies(policy: Policy, r: Result, i: nat): seq<Origin>
    requires i < |r.columns|
  {
    if i < |r.dependencies| && r.dependencies[i] != [] then r.dependencies[i]
    else
      var o := if i < |r.origins| then r.origins[i] else Lineage.NO_ORIGIN;
      var at := Located(policy, o, r.columns[i]);
      if at.column == "" then [] else [at]
  }

  /** The decision for one column, if it is sensitive. */
  function ColumnDecision(policy: Policy, r: Result, i: nat): Option<Decision>
    requires i < |r.columns|
  {
    var origins := SensitiveOrigins(policy, Dependencies(policy, r, i), r.columns[i]);
    SensitiveOriginsMatch(policy, Dependencies(policy, r, i), r.columns[i]);
    if origins == [] then None else Some(Decision(i, Decide(r.columns[i], Fired(policy, origins)), origins))
  }

  function Kept(found: seq<Option<Decision>>): (ds: seq<Decision>) {
    if found == [] then []
    else
      var n := |found| - 1;
      Kept(found[..n]) + (if found[n].Some? then [found[n].value] else [])
  }

  function Analyze(policy: Policy, r: Result): (ds: seq<Decision>) {
    Kept(seq(|r.columns|, i requires 0 <= i < |r.columns| => ColumnDecision(policy, r, i)))
  }

  predicate SensitiveColumn(policy: Policy, r: Result, i: nat)
    requires i < |r.columns|
  {
    exists d :: d in Dependencies(policy, r, i) && IsSensitive(policy, d, r.columns[i])
  }

  predicate Decided(ds: seq<Decision>, i: nat) {
    exists k :: 0 <= k < |ds| && ds[k].index == i
  }

  lemma ColumnDecisionIs(policy: Policy, r: Result, i: nat)
    requires i < |r.columns|
    ensures ColumnDecision(policy, r, i).Some? <==> SensitiveColumn(policy, r, i)
    ensures ColumnDecision(policy, r, i).Some? ==>
      var d := ColumnDecision(policy, r, i).value; d.index == i && d.origins != [] && Named(d)
  {
    var deps := Dependencies(policy, r, i);
    SensitiveOriginsMatch(policy, deps, r.columns[i]);
    SensitiveOriginsIff(policy, deps, r.columns[i]);
    forall o | o in SensitiveOrigins(policy, deps, r.columns[i]) ensures !Blank(o.column) {
      TrimOfTrimmed(o.column);
    }
  }

  predicate Indexed(found: seq<Option<Decision>>) {
    forall i :: 0 <= i < |found| && found[i].Some? ==> found[i].value.index == i
  }

  lemma {:induction false} KeptIsFound(found: seq<Option<Decision>>, k: nat)
    requires Indexed(found) && k < |Kept(found)|
    ensures Kept(found)[k].index < |found| && found[Kept(found)[k].index] == Some(Kept(found)[k])
  {
    var n := |found| - 1;
    if k < |Kept(found[..n])| {
      KeptIsFound(found[..n], k);
    }
  }

  lemma {:induction false} KeptInOrder(found: seq<Option<Decision>>, j: nat, k: nat)
    requires Indexed(found) && j < k < |Kept(found)|
    ensures Kept(found)[j].index < Kept(found)[k].index
  {
    var n := |found| - 1;
    if k < |Kept(found[..n])| {
      KeptInOrder(found[..n], j, k);
    } else {
      KeptIsFound(found[..n], j);
    }
  }

  lemma {:induction false} FoundIsKept(found: seq<Option<Decision>>, i: nat)
    requires i < |found| && found[i].Some?
    ensures found[i].value in Kept(found)
  {
    var n := |found| - 1;
    if i < n {
      FoundIsKept(found[..n], i);
    }
  }

  lemma KeptAre(found: seq<Option<Decision>>)
    requires Indexed(found)
    ensures forall k :: 0 <= k < |Kept(found)| ==> Kept(found)[k].index < |found| && found[Kept(found)[k].index] == Some(Kept(found)[k])
    ensures forall j, k :: 0 <= j < k < |Kept(found)| ==> Kept(found)[j].index < Kept(found)[k].index
    ensures forall i :: 0 <= i < |found| && found[i].Some? ==> found[i].value in Kept(found)
  {
    forall k | 0 <= k < |Kept(found)| ensures Kept(found)[k].index < |found| && found[Kept(found)[k].index] == Some(Kept(found)[k]) {
      KeptIsFound(found, k);
    }
    forall j, k | 0 <= j < k < |Kept(found)| ensures Kept(found)[j].index < Kept(found)[k].index {
      KeptInOrder(found, j, k);
    }
    forall i | 0 <= i < |found| && found[i].Some? ensures found[i].value in Kept(found) {
      FoundIsKept(found, i);
    }
  }

  /** Decisions come in column order, one per column, with named origins, and a column gets one if
      and only if one of its dependencies falls under a rule and is not exempt. */
  lemma AnalysisIsSound(policy: Policy, r: Result)
    ensures var ds := Analyze(policy, r);
      && (forall k :: 0 <= k < |ds| ==> ds[k].index < |r.columns| && ds[k].origins != [] && Named(ds[k]))
      && (forall j, k :: 0 <= j < k < |ds| ==> ds[j].index < ds[k].index)
      && (forall i :: 0 <= i < |r.columns| ==> (Decided(ds, i) <==> SensitiveColumn(policy, r, i)))
  {
    var found := seq(|r.columns|, i requires 0 <= i < |r.columns| => ColumnDecision(policy, r, i));
    forall i | 0 <= i < |found|
      ensures found[i].Some? <==> SensitiveColumn(policy, r, i)
      ensures found[i].Some? ==> found[i].value.index == i && found[i].value.origins != [] && Named(found[i].value)
    {
      ColumnDecisionIs(policy, r, i);
    }
    KeptAre(found);
  }

  // ----- masking -----

  /** The rules left to apply, by column. */
  function RulesLeft(ds: seq<Decision>, granted: set<nat>): (r: map<nat, Rule>) {
    if ds == [] then map[]
    else
      var front, d := RulesLeft(ds[..|ds| - 1], granted), ds[|ds| - 1];
      if d.index in granted then front else front[d.index := d.rule]
  }

  lemma {:induction false} RulesLeftAre(ds: seq<Decision>, granted: set<nat>)
    ensures forall c :: c in RulesLeft(ds, granted) <==> c !in granted && Decided(ds, c)
  {
    if ds != [] {
      var n := |ds| - 1;
      RulesLeftAre(ds[..n], granted);
      forall c ensures Decided(ds, c) <==> Decided(ds[..n], c) || ds[n].index == c {
        assert Decided(ds[..n], c) ==> exists k :: 0 <= k < n && ds[..n][k] == ds[k] && ds[k].index == c;
        assert Decided(ds, c) ==> ds[n].index == c || exists k :: 0 <= k < n && ds[..n][k] == ds[k] && ds[k].index == c;
      }
    }
  }

  /** The whole pipeline: whatever a query returns, the scopes captured from its analysis, sent
      through the token and approved, leave no rule to apply when the same query is run again,
      also among any other active scopes. */
  lemma ApprovedQueryIsUnmasked(policy: Policy, r: Result, user: nat, conn: nat, active: seq<Scope>)
    requires user != 0
    requires forall s :: s in FromClaims(conn, ToClaims(Captured(conn, Analyze(policy, r)))) ==> s in active
    ensures var ds := Analyze(policy, r);
      RulesLeft(ds, GrantedIndexes(user, active, ds)) == map[]
  {
    var ds := Analyze(policy, r);
    AnalysisIsSound(policy, r);
    CaptureRoundTrip(conn, ds);
    NamedDecisionsAreUnlocked(ds, user, conn, active);
  }

  lemma NamedDecisionIsUnlocked(ds: seq<Decision>, user: nat, conn: nat, active: seq<Scope>, k: nat)
    requires user != 0 && k < |ds| && ds[k].origins != [] && Named(ds[k])
    requires forall s :: s in Captured(conn, ds) ==> s in active
    ensures ds[k].index in GrantedIndexes(user, active, ds)
  {
    assert ds[k].origins[0] in ds[k].origins;
    CaptureUnlocksIff(user, conn, ds, ds[k].index);
    GrantsAreMonotone(user, Captured(conn, ds), active, ds);
  }

  lemma NamedDecisionsAreUnlocked(ds: seq<Decision>, user: nat, conn: nat, active: seq<Scope>)
    requires user != 0 && forall k :: 0 <= k < |ds| ==> ds[k].origins != [] && Named(ds[k])
    requires forall s :: s in Captured(conn, ds) ==> s in active
    ensures RulesLeft(ds, GrantedIndexes(user, active, ds)) == map[]
  {
    var granted := GrantedIndexes(user, active, ds);
    forall k | 0 <= k < |ds| ensures ds[k].index in granted {
      NamedDecisionIsUnlocked(ds, user, conn, active, k);
    }
    RulesLeftAre(ds, granted);
  }
}
