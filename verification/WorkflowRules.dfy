/** Choosing the workflow rule of a ticket: the most specific enabled rule that matches, then the
    least by priority and ID; and the numbering of rules that have no ID yet. */
module WorkflowRules {
  import opened Text

  type TicketType = string

  /** What a ticket asks for, and what a rule is restricted to. */
  datatype Scope = Scope(ticketType: TicketType, connection: Option<nat>, sensitivity: Option<string>)

  datatype Rule = Rule(id: nat, name: string, scope: Scope, approvalEnabled: bool, executionMode: string,
                       approvalGroups: seq<string>, executorGroups: seq<string>, priority: int, enabled: bool)

  predicate ConnectionMatches(rule: Option<nat>, ticket: Option<nat>) {
    rule.None? || rule == ticket
  }

  predicate SensitivityMatches(rule: Option<string>, ticket: Option<string>) {
    rule.None? || rule == ticket
  }

  predicate Applies(rule: Rule, s: Scope) {
    && rule.enabled && rule.scope.ticketType == s.ticketType
    && ConnectionMatches(rule.scope.connection, s.connection) && SensitivityMatches(rule.scope.sensitivity, s.sensitivity)
  }

  function Score(rule: Rule): int {
    (if rule.scope.connection.Some? then 2 else 0) + (if rule.scope.sensitivity.Some? then 1 else 0)
  }

  /** The order among rules of equal specificity. */
  predicate Before(a: Rule, b: Rule) {
    a.priority < b.priority || (a.priority == b.priority && a.id < b.id)
  }

  predicate Better(a: Rule, b: Rule) {
    Score(a) > Score(b) || (Score(a) == Score(b) && Before(a, b))
  }

  /** The rule is in the list, applies, and none that applies is better. */
  predicate IsBest(rules: seq<Rule>, s: Scope, best: Rule) {
    && best in rules && Applies(best, s)
    && forall r :: r in rules && Applies(r, s) ==> !Better(r, best)
  }

  /** The rule selected when the list is read from the front and the first of equals is kept. */
  function Select(rules: seq<Rule>, s: Scope): (r: Option<Rule>) {
    if rules == [] then None
    else
      var rule, best := rules[|rules| - 1], Select(rules[..|rules| - 1], s);
      if Applies(rule, s) && (best.None? || Better(rule, best.value)) then Some(rule) else best
  }

  lemma {:induction false} SelectIsBest(rules: seq<Rule>, s: Scope)
    ensures Select(rules, s).None? <==> forall r :: r in rules ==> !Applies(r, s)
    ensures Select(rules, s).Some? ==> IsBest(rules, s, Select(rules, s).value)
  {
    if rules != [] {
      var n := |rules| - 1;
      SelectIsBest(rules[..n], s);
      assert rules == rules[..n] + [rules[n]];
      assert forall r :: r in rules <==> r in rules[..n] || r == rules[n];
    }
  }

  /** The rule is enabled, for the ticket's type, and names the ticket's own connection and sensitivity or none. */
  predicate Fits(r: Rule, s: Scope) {
    && r.enabled && r.scope.ticketType == s.ticketType
    && (r.scope.connection.Some? ==> s.connection.Some? && r.scope.connection.value == s.connection.value)
    && (r.scope.sensitivity.Some? ==> s.sensitivity.Some? && r.scope.sensitivity.value == s.sensitivity.value)
  }

  predicate SameSpecificity(a: Scope, b: Scope) {
    (a.connection.Some? <==> b.connection.Some?) && (a.sensitivity.Some? <==> b.sensitivity.Some?)
  }

  /** The rule names the connection if one that fits does; of those like it in that, it names the
      sensitivity if one does; and of those like it in both it is least by priority, then ID. */
  predicate MostSpecific(rules: seq<Rule>, s: Scope, best: Rule) {
    && best in rules && Fits(best, s)
    && forall r :: r in rules && Fits(r, s) ==>
         && (r.scope.connection.Some? ==> best.scope.connection.Some?)
         && (r.scope.sensitivity.Some? && (r.scope.connection.Some? <==> best.scope.connection.Some?) ==> best.scope.sensitivity.Some?)
         && (SameSpecificity(r.scope, best.scope) ==> best.priority < r.priority || (best.priority == r.priority && best.id <= r.id))
  }

  lemma BestIsMostSpecific(rules: seq<Rule>, s: Scope, best: Rule)
    ensures IsBest(rules, s, best) <==> MostSpecific(rules, s, best)
  {
    forall r ensures Applies(r, s) <==> Fits(r, s) {
    }
  }

  /** The rule selected is the first most specific one of the list. */
  lemma SelectedIsMostSpecific(rules: seq<Rule>, s: Scope)
    ensures Select(rules, s).None? <==> forall r :: r in rules ==> !Fits(r, s)
    ensures Select(rules, s).Some? ==>
              exists i :: && 0 <= i < |rules| && rules[i] == Select(rules, s).value && MostSpecific(rules, s, rules[i])
                          && forall j :: 0 <= j < i ==> !MostSpecific(rules, s, rules[j])
  {
    SelectIsBest(rules, s);
    forall r ensures Applies(r, s) <==> Fits(r, s) {
    }
    if Select(rules, s).Some? {
      var i := SelectedFirst(rules, s);
      BestIsMostSpecific(rules, s, rules[i]);
      forall j | 0 <= j < i ensures !MostSpecific(rules, s, rules[j]) {
        BestIsMostSpecific(rules, s, rules[j]);
      }
    }
  }

  /** Whatever applies and is read before the rule selected is worse. */
  lemma {:induction false} SelectedFirst(rules: seq<Rule>, s: Scope) returns (i: nat)
    requires Select(rules, s).Some?
    ensures i < |rules| && rules[i] == Select(rules, s).value
    ensures forall j :: 0 <= j < i && Applies(rules[j], s) ==> Better(rules[i], rules[j])
  {
    var n := |rules| - 1;
    var front := rules[..n];
    SelectIsBest(front, s);
    if Select(rules, s) == Select(front, s) {
      i := SelectedFirst(front, s);
      assert forall j :: 0 <= j < n ==> front[j] == rules[j];
    } else {
      i := n;
      forall j | 0 <= j < n && Applies(rules[j], s) ensures Better(rules[n], rules[j]) {
        assert front[j] == rules[j] && front[j] in front;
      }
    }
  }

  method MatchWorkflowRule(rules: seq<Rule>, s: Scope) returns (best: Option<Rule>)
    ensures best == Select(rules, s)
    ensures best.None? <==> forall r :: r in rules ==> !Fits(r, s)
    ensures best.Some? ==> MostSpecific(rules, s, best.value)
  {
    best := None;
    var bestScore := -1;
    var i := 0;
    while i < |rules|
      invariant 0 <= i <= |rules| && best == Select(rules[..i], s)
      invariant best.Some? ==> bestScore == Score(best.value)
    {
      var rule := rules[i];
      assert rules[..i + 1][..i] == rules[..i];
      i := i + 1;
      if !rule.enabled || rule.scope.ticketType != s.ticketType {
        continue;
      }
      if !ConnectionMatches(rule.scope.connection, s.connection) {
        continue;
      }
      if !SensitivityMatches(rule.scope.sensitivity, s.sensitivity) {
        continue;
      }
      var score := 0;
      if rule.scope.connection.Some? {
        score := score + 2;
      }
      if rule.scope.sensitivity.Some? {
        score := score + 1;
      }
      if best.None? || score > bestScore
         || (score == bestScore && (rule.priority < best.value.priority || (rule.priority == best.value.priority && rule.id < best.value.id))) {
        best, bestScore := Some(rule), score;
      }
    }
    assert rules[..i] == rules;
    SelectedIsMostSpecific(rules, s);
  }

  // ----- order independence -----

  /** No two entries share an ID. */
  predicate DistinctIds(rules: seq<Rule>) {
    forall i, j :: 0 <= i < j < |rules| ==> rules[i].id != rules[j].id
  }

  lemma SameIdSameRule(rules: seq<Rule>, a: Rule, b: Rule)
    requires DistinctIds(rules) && a in rules && b in rules && a.id == b.id
    ensures a == b
  {
    var i :| 0 <= i < |rules| && rules[i] == a;
    var j :| 0 <= j < |rules| && rules[j] == b;
  }

  /** The rule chosen is the only best one, unless a different rule ties with it. */
  predicate Decided(rules: seq<Rule>, s: Scope) {
    forall a, b :: a in rules && b in rules && IsBest(rules, s, a) && IsBest(rules, s, b) ==> a == b
  }

  lemma SameMembers(rules: seq<Rule>, rules': seq<Rule>, r: Rule)
    requires multiset(rules) == multiset(rules')
    ensures r in rules <==> r in rules'
  {
    assert r in multiset(rules) <==> r in multiset(rules');
  }

  lemma BestOfPermutation(rules: seq<Rule>, rules': seq<Rule>, s: Scope, r: Rule)
    requires multiset(rules) == multiset(rules')
    ensures IsBest(rules, s, r) <==> IsBest(rules', s, r)
  {
    forall x ensures x in rules <==> x in rules' {
      SameMembers(rules, rules', x);
    }
  }

  lemma PermutationAgrees(rules: seq<Rule>, rules': seq<Rule>, s: Scope)
    requires multiset(rules) == multiset(rules') && Decided(rules, s)
    ensures Select(rules, s) == Select(rules', s)
  {
    SelectIsBest(rules, s);
    SelectIsBest(rules', s);
    forall x ensures x in rules <==> x in rules' {
      SameMembers(rules, rules', x);
    }
    if Select(rules', s).Some? {
      BestOfPermutation(rules, rules', s, Select(rules', s).value);
    }
  }

  /** A rule that is best and read first is selected. */
  lemma {:induction false} FirstBestWins(rules: seq<Rule>, s: Scope, best: Rule)
    requires rules != [] && rules[0] == best && Applies(best, s)
    requires forall r :: r in rules && Applies(r, s) ==> !Better(r, best)
    ensures Select(rules, s) == Some(best)
  {
    if |rules| > 1 {
      var n := |rules| - 1;
      assert forall r :: r in rules[..n] ==> r in rules;
      FirstBestWins(rules[..n], s, best);
      assert rules[n] in rules;
    } else {
      assert rules[..0] == [];
    }
  }

  lemma MoveToFront(rules: seq<Rule>, i: nat) returns (moved: seq<Rule>)
    requires i < |rules|
    ensures moved != [] && moved[0] == rules[i] && multiset(moved) == multiset(rules)
  {
    moved := [rules[i]] + rules[..i] + rules[i + 1..];
    assert rules == rules[..i] + [rules[i]] + rules[i + 1..];
  }

  /** Selection does not depend on the order of the rules if and only if no two different rules tie
      for the best. */
  lemma OrderIndependentIff(rules: seq<Rule>, s: Scope)
    ensures (forall rules' :: multiset(rules') == multiset(rules) ==> Select(rules', s) == Select(rules, s))
            <==> Decided(rules, s)
  {
    if Decided(rules, s) {
      forall rules' | multiset(rules') == multiset(rules) ensures Select(rules', s) == Select(rules, s) {
        PermutationAgrees(rules, rules', s);
      }
    } else {
      var a, b :| a in rules && b in rules && IsBest(rules, s, a) && IsBest(rules, s, b) && a != b;
      var moved := FrontedBest(rules, s, a);
      var moved' := FrontedBest(rules, s, b);
    }
  }

  lemma FrontedBest(rules: seq<Rule>, s: Scope, best: Rule) returns (moved: seq<Rule>)
    requires IsBest(rules, s, best)
    ensures multiset(moved) == multiset(rules) && Select(moved, s) == Some(best)
  {
    var i :| 0 <= i < |rules| && rules[i] == best;
    moved := MoveToFront(rules, i);
    BestOfPermutation(rules, moved, s, best);
    FirstBestWins(moved, s, best);
  }

  lemma DistinctIdsDecide(rules: seq<Rule>, s: Scope)
    requires DistinctIds(rules)
    ensures Decided(rules, s)
  {
    forall a, b | a in rules && b in rules && IsBest(rules, s, a) && IsBest(rules, s, b) ensures a == b {
      assert !Better(a, b) && !Better(b, a);
      SameIdSameRule(rules, a, b);
    }
  }

  // ----- shadowing -----

  /** What the preview reports: a rule is effective if it is selected for its own scope. */
  predicate Effective(rules: seq<Rule>, rule: Rule) {
    rule.enabled && var selected := Select(rules, rule.scope); selected.Some? && selected.value.id == rule.id
  }

  predicate Shadowed(rules: seq<Rule>, rule: Rule) {
    rule.enabled && var selected := Select(rules, rule.scope); selected.Some? && selected.value.id != rule.id
  }

  /** On its own scope an enabled rule is beaten only by a rule of the same scope. */
  lemma OnlySameScopeShadows(rules: seq<Rule>, rule: Rule)
    requires rule in rules && rule.enabled
    ensures Select(rules, rule.scope).Some?
    ensures Select(rules, rule.scope).value.scope == rule.scope
  {
    SelectIsBest(rules, rule.scope);
    assert Applies(rule, rule.scope);
    var best := Select(rules, rule.scope).value;
    assert !Better(rule, best);
  }

  predicate Rival(rules: seq<Rule>, rule: Rule, other: Rule) {
    other in rules && other.enabled && other.scope == rule.scope
  }

  /** With distinct IDs a rule is effective exactly when no enabled rule of its scope comes before it
      by priority and ID, and shadowed exactly when one does. */
  lemma EffectiveIffLeast(rules: seq<Rule>, rule: Rule)
    requires DistinctIds(rules) && rule in rules && rule.enabled
    ensures Effective(rules, rule) <==> forall other :: Rival(rules, rule, other) ==> !Before(other, rule)
    ensures Shadowed(rules, rule) <==> exists other :: Rival(rules, rule, other) && Before(other, rule)
  {
    OnlySameScopeShadows(rules, rule);
    SelectIsBest(rules, rule.scope);
    var best := Select(rules, rule.scope).value;
    assert Rival(rules, rule, best);
    if best.id == rule.id {
      SameIdSameRule(rules, best, rule);
      forall other | Rival(rules, rule, other) ensures !Before(other, rule) {
        assert Applies(other, rule.scope);
      }
    } else {
      assert !Better(rule, best);
      assert Before(best, rule);
    }
  }

  /** Among the enabled rules of one scope exactly one is effective. */
  lemma ExactlyOneEffective(rules: seq<Rule>, rule: Rule)
    requires DistinctIds(rules) && rule in rules && rule.enabled
    ensures exists best :: Rival(rules, rule, best) && Effective(rules, best)
    ensures forall a, b :: Rival(rules, rule, a) && Rival(rules, rule, b) && Effective(rules, a) && Effective(rules, b) ==> a == b
  {
    OnlySameScopeShadows(rules, rule);
    SelectIsBest(rules, rule.scope);
    var best := Select(rules, rule.scope).value;
    assert Rival(rules, rule, best) && Effective(rules, best);
    forall a, b | Rival(rules, rule, a) && Rival(rules, rule, b) && Effective(rules, a) && Effective(rules, b) ensures a == b {
      SameIdSameRule(rules, a, b);
    }
  }

  /** The conflicts the preview lists. */
  predicate Conflict(a: Rule, b: Rule) {
    a.scope == b.scope && a.priority == b.priority
  }

  /** Two rules conflict exactly if they have the same scope and nothing but their IDs decides between them:
      exchanging the IDs exchanges which comes first. */
  lemma ConflictIff(a: Rule, b: Rule)
    requires a.id != b.id
    ensures Conflict(a, b) <==> a.scope == b.scope && (Before(a.(id := b.id), b.(id := a.id)) <==> Before(b, a))
  {
  }

  /** Of two enabled rules in conflict the one with the greater ID is never effective. */
  lemma ConflictLoserIsShadowed(rules: seq<Rule>, a: Rule, b: Rule)
    requires DistinctIds(rules) && a in rules && b in rules && a.enabled && b.enabled && Conflict(a, b) && a.id < b.id
    ensures Shadowed(rules, b)
  {
    EffectiveIffLeast(rules, b);
    assert Rival(rules, b, a) && Before(a, b);
  }

  // ----- numbering -----

  const TWO_TO_64 := 0x1_0000_0000_0000_0000

  /** Increment of an unsigned 64-bit counter. */
  function Increment(m: nat): (r: nat) {
    if m + 1 == TWO_TO_64 then 0 else m + 1
  }

  function MaxId(rules: seq<Rule>): (m: nat)
    ensures forall i :: 0 <= i < |rules| ==> rules[i].id <= m
  {
    if rules == [] then 0
    else
      var m := MaxId(rules[..|rules| - 1]);
      if rules[|rules| - 1].id > m then rules[|rules| - 1].id else m
  }

  function Zeros(rules: seq<Rule>): nat {
    if rules == [] then 0 else Zeros(rules[1..]) + if rules[0].id == 0 then 1 else 0
  }

  /** Rules without an ID get the next ones after m. */
  function Numbered(rules: seq<Rule>, m: nat): (r: seq<Rule>)
    ensures |r| == |rules|
  {
    if rules == [] then []
    else if rules[0].id == 0 then [rules[0].(id := Increment(m))] + Numbered(rules[1..], Increment(m))
    else [rules[0]] + Numbered(rules[1..], m)
  }

  function WithIds(rules: seq<Rule>): (r: seq<Rule>) {
    Numbered(rules, MaxId(rules))
  }

  /** Nothing but missing IDs is changed. */
  lemma {:induction false} NumberingKeepsRules(rules: seq<Rule>, m: nat, i: nat)
    requires i < |rules|
    ensures Numbered(rules, m)[i] == rules[i].(id := Numbered(rules, m)[i].id)
    ensures rules[i].id != 0 ==> Numbered(rules, m)[i] == rules[i]
  {
    if i > 0 {
      NumberingKeepsRules(rules[1..], if rules[0].id == 0 then Increment(m) else m, i - 1);
    }
  }

  /** Without overflow the new IDs lie above m, in increasing order. */
  lemma {:induction false} NewIdsIncrease(rules: seq<Rule>, m: nat)
    requires m + Zeros(rules) < TWO_TO_64
    ensures forall i :: 0 <= i < |rules| && rules[i].id == 0 ==> m < Numbered(rules, m)[i].id
    ensures forall i, j :: 0 <= i < j < |rules| && rules[i].id == 0 && rules[j].id == 0 ==>
              Numbered(rules, m)[i].id < Numbered(rules, m)[j].id
  {
    if rules != [] {
      var m' := if rules[0].id == 0 then Increment(m) else m;
      NewIdsIncrease(rules[1..], m');
      assert m <= m';
      forall i | 0 <= i < |rules| && rules[i].id == 0 ensures m < Numbered(rules, m)[i].id {
        assert i > 0 ==> rules[i] == rules[1..][i - 1];
      }
      forall i, j | 0 <= i < j < |rules| && rules[i].id == 0 && rules[j].id == 0
        ensures Numbered(rules, m)[i].id < Numbered(rules, m)[j].id
      {
        assert rules[j] == rules[1..][j - 1];
        assert i > 0 ==> rules[i] == rules[1..][i - 1];
      }
    }
  }

  /** While there is room the k-th rule without an ID gets the k-th number after m. */
  lemma {:induction false} NewIdIs(rules: seq<Rule>, m: nat, i: nat)
    requires i < |rules| && rules[i].id == 0 && m + Zeros(rules[..i + 1]) < TWO_TO_64
    ensures Numbered(rules, m)[i].id == m + Zeros(rules[..i + 1])
  {
    var m' := if rules[0].id == 0 then Increment(m) else m;
    assert rules[..i + 1][1..] == rules[1..][..i] && rules[..i + 1][0] == rules[0];
    if i > 0 {
      NewIdIs(rules[1..], m', i - 1);
    } else {
      assert rules[1..][..0] == [];
    }
  }

  /** With overflow some rule is left with the ID 0. */
  lemma {:induction false} OverflowLeavesZero(rules: seq<Rule>, m: nat) returns (i: nat)
    requires m < TWO_TO_64 <= m + Zeros(rules)
    ensures i < |rules| && Numbered(rules, m)[i].id == 0
  {
    if rules[0].id == 0 {
      if m + 1 == TWO_TO_64 {
        return 0;
      }
      i := OverflowLeavesZero(rules[1..], m + 1);
    } else {
      i := OverflowLeavesZero(rules[1..], m);
    }
    i := i + 1;
  }

  predicate NoZero(rules: seq<Rule>) {
    forall i :: 0 <= i < |rules| ==> rules[i].id != 0
  }

  predicate GivenIdsDistinct(rules: seq<Rule>) {
    forall i, j :: 0 <= i < j < |rules| && rules[i].id != 0 ==> rules[i].id != rules[j].id
  }

  lemma RoomMeansDistinct(rules: seq<Rule>, m: nat, r: seq<Rule>)
    requires m + Zeros(rules) < TWO_TO_64 && GivenIdsDistinct(rules) && r == Numbered(rules, m)
    requires forall i :: 0 <= i < |rules| ==> rules[i].id <= m
    ensures NoZero(r) && DistinctIds(r)
  {
    NewIdsIncrease(rules, m);
    forall i | 0 <= i < |r| ensures r[i].id != 0 && (rules[i].id != 0 ==> r[i].id == rules[i].id) {
      NumberingKeepsRules(rules, m, i);
    }
    forall i, j | 0 <= i < j < |r| ensures r[i].id != r[j].id {
      NumberingKeepsRules(rules, m, i);
      NumberingKeepsRules(rules, m, j);
    }
  }

  lemma RepeatedIdStays(rules: seq<Rule>, m: nat, r: seq<Rule>)
    requires !GivenIdsDistinct(rules) && r == Numbered(rules, m)
    ensures !DistinctIds(r)
  {
    var i, j :| 0 <= i < j < |rules| && rules[i].id != 0 && rules[i].id == rules[j].id;
    NumberingKeepsRules(rules, m, i);
    NumberingKeepsRules(rules, m, j);
  }

  /** The numbering gives every rule its own nonzero ID if and only if the IDs given were distinct
      and there is room above the greatest of them. */
  lemma NumberingIsDistinctIff(rules: seq<Rule>)
    requires forall i :: 0 <= i < |rules| ==> rules[i].id < TWO_TO_64
    ensures NoZero(WithIds(rules)) && DistinctIds(WithIds(rules))
            <==> GivenIdsDistinct(rules) && MaxId(rules) + Zeros(rules) < TWO_TO_64
  {
    var m := MaxId(rules);
    if m + Zeros(rules) >= TWO_TO_64 {
      MaxIdIsGiven(rules);
      var i := OverflowLeavesZero(rules, m);
    } else if GivenIdsDistinct(rules) {
      RoomMeansDistinct(rules, m, WithIds(rules));
    } else {
      RepeatedIdStays(rules, m, WithIds(rules));
    }
  }

  /** The counter wraps: after a rule with the greatest ID a rule without one is left without. */
  lemma GreatestIdLeavesZero(rules: seq<Rule>)
    requires |rules| == 2 && rules[0].id == TWO_TO_64 - 1 && rules[1].id == 0
    ensures WithIds(rules)[1].id == 0
  {
    assert rules[..1][..0] == [] && rules[1..][1..] == [];
    var m := TWO_TO_64 - 1;
    assert MaxId(rules[..1]) == m && MaxId(rules) == m;
    assert Numbered(rules[1..], m)[0].id == 0;
  }

  lemma {:induction false} MaxIdIsGiven(rules: seq<Rule>)
    requires forall i :: 0 <= i < |rules| ==> rules[i].id < TWO_TO_64
    ensures MaxId(rules) < TWO_TO_64
    ensures if rules == [] then MaxId(rules) == 0 else exists i :: 0 <= i < |rules| && rules[i].id == MaxId(rules)
  {
    if rules != [] {
      var n := |rules| - 1;
      MaxIdIsGiven(rules[..n]);
      if n > 0 && MaxId(rules) != rules[n].id {
        var i :| 0 <= i < n && rules[..n][i].id == MaxId(rules[..n]);
        assert rules[i].id == MaxId(rules);
      } else {
        assert rules[n].id == MaxId(rules);
      }
    }
  }

  method GreatestId(rules: array<Rule>) returns (maxId: nat)
    ensures maxId == MaxId(rules[..])
  {
    maxId := 0;
    var k := 0;
    while k < rules.Length
      invariant 0 <= k <= rules.Length && maxId == MaxId(rules[..k])
    {
      assert rules[..k + 1][..k] == rules[..k];
      if rules[k].id > maxId {
        maxId := rules[k].id;
      }
      k := k + 1;
    }
    assert rules[..k] == rules[..];
  }

  lemma NumberNext(rules: seq<Rule>, k: nat, m: nat, done: seq<Rule>, goal: seq<Rule>)
    requires k < |rules| && done + Numbered(rules[k..], m) == goal
    ensures rules[k].id == 0 ==> done + [rules[k].(id := Increment(m))] + Numbered(rules[k + 1..], Increment(m)) == goal
    ensures rules[k].id != 0 ==> done + [rules[k]] + Numbered(rules[k + 1..], m) == goal
  {
    assert rules[k..][0] == rules[k] && rules[k..][1..] == rules[k + 1..];
  }

  /** The loop that numbers the rules in place. */
  method NumberInPlace(next: array<Rule>, m: nat)
    modifies next
    ensures next[..] == Numbered(old(next[..]), m)
  {
    var maxId := m;
    ghost var rules := next[..];
    assert rules[0..] == rules;
    var k := 0;
    while k < next.Length
      invariant 0 <= k <= next.Length == |rules|
      invariant forall i :: k <= i < next.Length ==> next[i] == rules[i]
      invariant next[..k] + Numbered(rules[k..], maxId) == Numbered(rules, m)
    {
      ghost var done := next[..k];
      NumberNext(rules, k, maxId, done, Numbered(rules, m));
      if next[k].id == 0 {
        maxId := Increment(maxId);
        next[k] := next[k].(id := maxId);
      }
      assert next[..k + 1] == done + [next[k]];
      k := k + 1;
    }
    assert next[..k] == next[..];
  }

  method WithWorkflowPreviewIds(rules: seq<Rule>) returns (next: array<Rule>)
    ensures fresh(next) && next[..] == WithIds(rules)
  {
    next := new Rule[|rules|](i requires 0 <= i < |rules| => rules[i]);
    assert next[..] == rules;
    var maxId := GreatestId(next);
    NumberInPlace(next, maxId);
  }
}
