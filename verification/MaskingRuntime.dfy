/** The masking runtime as it runs: append loops with `seen` sets, nested searches with early exit,
    and masking in place. Each method is proved against the function of the same step in
    `MaskingGrants`. */
module MaskingRuntime {
  import opened Text
  import opened MaskingGrants

  function ScopeKey(o: Origin): (string, string, string, string) {
    (OrEmpty(Optional(o.database)), OrEmpty(Optional(o.schema)), OrEmpty(Optional(o.table)), Trim(o.column))
  }

  lemma OptionalIsKey(a: string, b: string)
    ensures Optional(a) == Optional(b) <==> OrEmpty(Optional(a)) == OrEmpty(Optional(b))
  {
  }

  lemma ScopeKeyIsScope(conn: nat, a: Origin, b: Origin)
    ensures ScopeKey(a) == ScopeKey(b) <==> ScopeOf(conn, a) == ScopeOf(conn, b)
  {
    OptionalIsKey(a.database, b.database);
    OptionalIsKey(a.schema, b.schema);
    OptionalIsKey(a.table, b.table);
  }

  /** The keys of the origins that name a column. */
  function ScopeKeys(origins: seq<Origin>): set<(string, string, string, string)> {
    set i | 0 <= i < |origins| && !Blank(origins[i].column) :: ScopeKey(origins[i])
  }

  lemma ScopeKeysOneMore(before: seq<Origin>, o: Origin)
    ensures ScopeKeys(before + [o]) == if Blank(o.column) then ScopeKeys(before) else ScopeKeys(before) + {ScopeKey(o)}
  {
    var all := before + [o];
    assert all[|before|] == o;
    forall i | 0 <= i < |before| && !Blank(before[i].column) ensures ScopeKey(before[i]) in ScopeKeys(all) {
      assert all[i] == before[i];
    }
    if !Blank(o.column) {
      assert ScopeKey(all[|before|]) in ScopeKeys(all);
    }
  }

  /** A scope has been captured exactly if its key has been seen. */
  lemma SeenIffCaptured(conn: nat, before: seq<Origin>, o: Origin)
    requires !Blank(o.column)
    ensures ScopeKey(o) in ScopeKeys(before) <==> ScopeOf(conn, o) in Scopes(conn, before)
  {
    if ScopeKey(o) in ScopeKeys(before) {
      var i :| 0 <= i < |before| && !Blank(before[i].column) && ScopeKey(before[i]) == ScopeKey(o);
      ScopesContain(conn, before, i);
      ScopeKeyIsScope(conn, before[i], o);
    }
    if ScopeOf(conn, o) in Scopes(conn, before) {
      var i := ScopesFrom(conn, before, ScopeOf(conn, o));
      ScopeKeyIsScope(conn, before[i], o);
    }
  }

  method AppendScope(conn: nat, o: Origin, ghost before: seq<Origin>, scopes: seq<Scope>, seen: set<(string, string, string, string)>)
    returns (scopes': seq<Scope>, seen': set<(string, string, string, string)>)
    requires scopes == Scopes(conn, before) && seen == ScopeKeys(before)
    ensures scopes' == Scopes(conn, before + [o]) && seen' == ScopeKeys(before + [o])
  {
    assert (before + [o])[..|before|] == before;
    ScopeKeysOneMore(before, o);
    if Blank(o.column) {
      return scopes, seen;
    }
    SeenIffCaptured(conn, before, o);
    if ScopeKey(o) in seen {
      assert seen + {ScopeKey(o)} == seen;
      return scopes, seen;
    }
    return scopes + [ScopeOf(conn, o)], seen + {ScopeKey(o)};
  }

  method OriginsOf(decisions: seq<Decision>) returns (origins: seq<Origin>)
    ensures origins == AllOrigins(decisions)
  {
    origins := [];
    for i := 0 to |decisions|
      invariant origins == AllOrigins(decisions[..i])
    {
      assert decisions[..i + 1][..i] == decisions[..i];
      origins := origins + decisions[i].origins;
    }
    assert decisions[..|decisions|] == decisions;
  }

  method BuildSQLScopeAnalysis(conn: nat, decisions: seq<Decision>) returns (scopes: seq<Scope>, containsSensitive: bool)
    ensures scopes == Captured(conn, decisions)
    ensures containsSensitive <==> decisions != []
  {
    var origins := OriginsOf(decisions);
    scopes := [];
    var seen: set<(string, string, string, string)> := {};
    for i := 0 to |origins|
      invariant scopes == Scopes(conn, origins[..i]) && seen == ScopeKeys(origins[..i])
    {
      assert origins[..i + 1] == origins[..i] + [origins[i]];
      scopes, seen := AppendScope(conn, origins[i], origins[..i], scopes, seen);
    }
    assert origins[..|origins|] == origins;
    containsSensitive := |decisions| > 0;
  }

  method ScopeClaims(scopes: seq<Scope>) returns (claims: seq<Claim>)
    ensures claims == ToClaims(scopes)
  {
    claims := [];
    for i := 0 to |scopes|
      invariant claims == ToClaims(scopes[..i])
    {
      claims := claims + [Claim(OrEmpty(scopes[i].database), OrEmpty(scopes[i].schema), OrEmpty(scopes[i].table), Trim(scopes[i].column))];
    }
    assert scopes[..|scopes|] == scopes;
  }

  method ClaimScopes(conn: nat, claims: seq<Claim>) returns (scopes: seq<Scope>)
    ensures scopes == FromClaims(conn, claims)
  {
    scopes := [];
    for i := 0 to |claims|
      invariant scopes == FromClaims(conn, claims[..i])
    {
      assert claims[..i + 1][..i] == claims[..i];
      if !Blank(claims[i].column) {
        scopes := scopes + [FromClaim(conn, claims[i])];
      }
    }
    assert claims[..|claims|] == claims;
  }

  /** Both inner searches stop at the first hit and at the first miss. */
  method AllOriginsGranted(scopes: seq<Scope>, d: Decision) returns (all: bool)
    ensures all <==> Granted(scopes, d)
  {
    for i := 0 to |d.origins|
      invariant forall k :: 0 <= k < i ==> Covered(scopes, d.origins[k])
    {
      var matched := false;
      for j := 0 to |scopes|
        invariant !matched && forall k :: 0 <= k < j ==> !ScopeMatches(scopes[k], d.origins[i])
      {
        if ScopeMatches(scopes[j], d.origins[i]) {
          matched := true;
          break;
        }
      }
      if !matched {
        assert d.origins[i] in d.origins && !Covered(scopes, d.origins[i]);
        return false;
      }
    }
    return true;
  }

  method ActiveSensitiveAccessIndexes(user: nat, scopes: seq<Scope>, ds: seq<Decision>) returns (granted: set<nat>)
    ensures granted == GrantedIndexes(user, scopes, ds)
  {
    granted := {};
    if user == 0 || scopes == [] { return; }
    for i := 0 to |ds|
      invariant granted == set k | 0 <= k < i && Granted(scopes, ds[k]) :: ds[k].index
    {
      var all := AllOriginsGranted(scopes, ds[i]);
      if all {
        granted := granted + {ds[i].index};
      }
    }
  }

  method DecideMaskRule(heading: string, fired: seq<Rule>) returns (r: Option<Rule>)
    ensures r == if fired == [] then None else Some(Decide(heading, fired))
    ensures fired != [] && (forall i, j :: 0 <= i < j < |fired| ==> fired[i].mode == fired[j].mode) ==>
              r == Some(Rule(heading, fired[0].mode, fired[0].config))
    ensures (exists i, j :: 0 <= i < j < |fired| && fired[i].mode != fired[j].mode) ==> r == Some(Rule(heading, "full", ""))
  {
    if |fired| == 0 { return None; }
    for i := 1 to |fired|
      invariant forall k :: 0 <= k < i ==> fired[k].mode == fired[0].mode
    {
      if fired[i].mode != fired[0].mode {
        return Some(Rule(heading, "full", ""));
      }
    }
    return Some(Rule(heading, fired[0].mode, fired[0].config));
  }

  function KeysOf(origins: seq<Origin>): set<(string, string, string, string)> {
    set j | 0 <= j < |origins| :: OriginKey(origins[j])
  }

  /** What the loop over the dependencies has collected. */
  ghost predicate Collected(policy: Policy, deps: seq<Origin>, heading: string, origins: seq<Origin>, fired: seq<Rule>,
                            seen: set<(string, string, string, string)>) {
    && origins == SensitiveOrigins(policy, deps, heading)
    && (forall j :: 0 <= j < |origins| ==> Matchable(policy, origins[j]))
    && fired == Fired(policy, origins) && seen == KeysOf(origins)
  }

  lemma KeysOfAppend(origins: seq<Origin>, o: Origin)
    ensures KeysOf(origins + [o]) == KeysOf(origins) + {OriginKey(o)}
    ensures OriginKey(o) in KeysOf(origins) <==> Seen(origins, o)
  {
    var all := origins + [o];
    assert all[|origins|] == o;
    assert OriginKey(all[|origins|]) in KeysOf(all);
    forall i | 0 <= i < |origins| ensures OriginKey(origins[i]) in KeysOf(all) {
      assert all[i] == origins[i];
    }
  }

  lemma FiredAppend(policy: Policy, origins: seq<Origin>, o: Origin)
    requires (forall j :: 0 <= j < |origins| ==> Matchable(policy, origins[j])) && Matchable(policy, o)
    ensures forall j :: 0 <= j < |origins + [o]| ==> Matchable(policy, (origins + [o])[j])
    ensures Fired(policy, origins + [o]) == Fired(policy, origins) + [policy.lookup(o.column).value]
  {
  }

  /** One more dependency: skipped, or added with its rule. */
  lemma CollectOne(policy: Policy, deps: seq<Origin>, d: Origin, heading: string, origins: seq<Origin>, fired: seq<Rule>,
                   seen: set<(string, string, string, string)>, at: Origin)
    requires Collected(policy, deps, heading, origins, fired, seen) && at == Located(policy, d, heading)
    ensures if at.column == "" || policy.lookup(at.column).None? || IsExempt(policy, at) || OriginKey(at) in seen
            then Collected(policy, deps + [d], heading, origins, fired, seen)
            else Collected(policy, deps + [d], heading, origins + [at], fired + [policy.lookup(at.column).value], seen + {OriginKey(at)})
  {
    assert (deps + [d])[..|deps|] == deps;
    KeysOfAppend(origins, at);
    LocatedIsTrimmed(policy, d, heading);
    if IsSensitive(policy, d, heading) {
      FiredAppend(policy, origins, at);
    }
  }

  /** One round of the loop over the dependencies. */
  method CollectStep(policy: Policy, ghost deps: seq<Origin>, d: Origin, heading: string, origins: seq<Origin>, fired: seq<Rule>,
                     seen: set<(string, string, string, string)>)
    returns (origins': seq<Origin>, fired': seq<Rule>, seen': set<(string, string, string, string)>)
    requires Collected(policy, deps, heading, origins, fired, seen)
    ensures Collected(policy, deps + [d], heading, origins', fired', seen')
  {
    var at := Located(policy, d, heading);
    CollectOne(policy, deps, d, heading, origins, fired, seen, at);
    if at.column == "" {
      return origins, fired, seen;
    }
    var rule := policy.lookup(at.column);
    if rule.None? || IsExempt(policy, at) || OriginKey(at) in seen {
      return origins, fired, seen;
    }
    return origins + [at], fired + [rule.value], seen + {OriginKey(at)};
  }

  method CollectSensitive(policy: Policy, deps: seq<Origin>, heading: string) returns (origins: seq<Origin>, fired: seq<Rule>)
    ensures origins == SensitiveOrigins(policy, deps, heading)
    ensures (forall j :: 0 <= j < |origins| ==> Matchable(policy, origins[j])) && fired == Fired(policy, origins)
  {
    origins, fired := [], [];
    var seen: set<(string, string, string, string)> := {};
    for k := 0 to |deps|
      invariant Collected(policy, deps[..k], heading, origins, fired, seen)
    {
      assert deps[..k + 1] == deps[..k] + [deps[k]];
      origins, fired, seen := CollectStep(policy, deps[..k], deps[k], heading, origins, fired, seen);
    }
    assert deps[..|deps|] == deps;
  }

  method AnalyzeColumn(policy: Policy, r: Result, i: nat) returns (found: Option<Decision>)
    requires i < |r.columns|
    ensures found == ColumnDecision(policy, r, i)
  {
    var origins, fired := CollectSensitive(policy, Dependencies(policy, r, i), r.columns[i]);
    var final := DecideMaskRule(r.columns[i], fired);
    found := if final.None? then None else Some(Decision(i, final.value, origins));
  }

  lemma KeptOneMore(all: seq<Option<Decision>>, i: nat, found: Option<Decision>)
    requires i < |all| && all[i] == found
    ensures Kept(all[..i + 1]) == if found.Some? then Kept(all[..i]) + [found.value] else Kept(all[..i])
  {
    assert all[..i + 1][..i] == all[..i];
  }

  method AnalyzeSensitiveColumns(policy: Policy, r: Result) returns (ds: seq<Decision>, indexes: seq<nat>)
    ensures ds == Analyze(policy, r)
    ensures |indexes| == |ds| && forall k :: 0 <= k < |ds| ==> indexes[k] == ds[k].index
  {
    ghost var all := seq(|r.columns|, i requires 0 <= i < |r.columns| => ColumnDecision(policy, r, i));
    ds, indexes := [], [];
    for i := 0 to |r.columns|
      invariant ds == Kept(all[..i])
      invariant |indexes| == |ds| && forall k :: 0 <= k < |ds| ==> indexes[k] == ds[k].index
    {
      var found := AnalyzeColumn(policy, r, i);
      KeptOneMore(all, i, found);
      if found.None? { continue; }
      ds := ds + [found.value];
      indexes := indexes + [i];
    }
    assert all[..|all|] == all;
  }

  /** A cell is null or text; masking a text may fail. */
  type Cell = Option<string>

  function MaskedCell(cell: Cell, rules: map<nat, Rule>, column: nat, mask: (Rule, string) -> Option<string>): Cell {
    if column in rules && cell.Some? then mask(rules[column], cell.value) else cell
  }

  predicate Maskable(cell: Cell, rules: map<nat, Rule>, column: nat, mask: (Rule, string) -> Option<string>) {
    column in rules && cell.Some? ==> mask(rules[column], cell.value).Some?
  }

  /** Masks the given columns in place; fails if and only if some cell cannot be masked. */
  method MaskColumns(rows: array2<Cell>, rules: map<nat, Rule>, mask: (Rule, string) -> Option<string>) returns (ok: bool)
    modifies rows
    ensures ok <==> forall i, j :: 0 <= i < rows.Length0 && 0 <= j < rows.Length1 ==> Maskable(old(rows[i, j]), rules, j, mask)
    ensures ok ==> forall i, j :: 0 <= i < rows.Length0 && 0 <= j < rows.Length1 ==> rows[i, j] == MaskedCell(old(rows[i, j]), rules, j, mask)
  {
    for i := 0 to rows.Length0
      invariant forall r, j :: 0 <= r < i && 0 <= j < rows.Length1 ==> Maskable(old(rows[r, j]), rules, j, mask) && rows[r, j] == MaskedCell(old(rows[r, j]), rules, j, mask)
      invariant forall r, j :: i <= r < rows.Length0 && 0 <= j < rows.Length1 ==> rows[r, j] == old(rows[r, j])
    {
      var todo := rules.Keys;
      while todo != {}
        invariant todo <= rules.Keys
        invariant forall r, j :: 0 <= r < rows.Length0 && 0 <= j < rows.Length1 && r != i ==>
          rows[r, j] == if r < i then MaskedCell(old(rows[r, j]), rules, j, mask) else old(rows[r, j])
        invariant forall j :: 0 <= j < rows.Length1 && j in todo ==> rows[i, j] == old(rows[i, j])
        invariant forall j :: 0 <= j < rows.Length1 && j !in todo ==>
          Maskable(old(rows[i, j]), rules, j, mask) && rows[i, j] == MaskedCell(old(rows[i, j]), rules, j, mask)
      {
        var j :| j in todo;
        todo := todo - {j};
        if j >= rows.Length1 || rows[i, j].None? { continue; }
        var masked := mask(rules[j], rows[i, j].value);
        if masked.None? {
          assert !Maskable(old(rows[i, j]), rules, j, mask);
          return false;
        }
        rows[i, j] := masked;
      }
    }
    return true;
  }

  datatype Outcome = Unrestricted(indexes: seq<nat>) | Shown(indexes: seq<nat>) | MaskFailed

  /** A user with the override, or with scopes that leave no rule to apply, sees the rows as they
      are; everybody else sees the remaining rules applied to every row. */
  method ApplyAnalyzedResult(override: bool, user: nat, scopes: seq<Scope>, ds: seq<Decision>, indexes: seq<nat>,
                             rows: array2<Cell>, mask: (Rule, string) -> Option<string>) returns (r: Outcome)
    modifies rows
    ensures var left := if ds == [] || override then map[] else RulesLeft(ds, GrantedIndexes(user, scopes, ds));
      && (r.MaskFailed? <==> exists i, j :: 0 <= i < rows.Length0 && 0 <= j < rows.Length1 && !Maskable(old(rows[i, j]), left, j, mask))
      && (!r.MaskFailed? ==> forall i, j :: 0 <= i < rows.Length0 && 0 <= j < rows.Length1 ==> rows[i, j] == MaskedCell(old(rows[i, j]), left, j, mask))
    ensures r.Unrestricted? <==> override && ds != []
    ensures !r.MaskFailed? ==> r.indexes == if ds == [] then [] else indexes
  {
    if |ds| == 0 { return Shown([]); }
    if override { return Unrestricted(indexes); }
    var granted := ActiveSensitiveAccessIndexes(user, scopes, ds);
    var left: map<nat, Rule> := map[];
    for i := 0 to |ds|
      invariant left == RulesLeft(ds[..i], granted)
    {
      assert ds[..i + 1][..i] == ds[..i];
      if ds[i].index in granted { continue; }
      left := left[ds[i].index := ds[i].rule];
    }
    assert ds[..|ds|] == ds;
    if left == map[] { return Shown(indexes); }
    var ok := MaskColumns(rows, left, mask);
    r := if ok then Shown(indexes) else MaskFailed;
  }
}
