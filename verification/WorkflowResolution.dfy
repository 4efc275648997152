/** Who may approve and execute a ticket: the members of the groups its workflow rule names, without
    those who may not act and without the submitter. */
module WorkflowResolution {
  import opened Text
  import opened WorkflowRules

  datatype User = User(id: nat, name: string, active: bool)

  datatype Reason = Inactive | MissingPermission | Submitter

  datatype Excluded = Excluded(id: nat, name: string, reason: Reason)

  /** What the user repository answers: the members of each group, and the active users holding the
      permission to review this kind of ticket and to execute tickets. */
  datatype Directory = Directory(members: map<string, seq<User>>, reviewers: set<nat>, executors: set<nat>)

  function Members(d: Directory, group: string): seq<User> {
    if group in d.members then d.members[group] else []
  }

  // ----- resolving groups to users -----

  /** All members of the groups, in order, repetitions included. */
  function Listed(d: Directory, groups: seq<string>): (r: seq<User>) {
    if groups == [] then [] else Listed(d, groups[..|groups| - 1]) + Members(d, groups[|groups| - 1])
  }

  predicate HasId(users: seq<User>, id: nat) {
    exists i :: 0 <= i < |users| && users[i].id == id
  }

  /** The first entry of every ID. */
  function Distinct(users: seq<User>): (r: seq<User>) {
    if users == [] then []
    else
      var front, last := users[..|users| - 1], users[|users| - 1];
      if HasId(front, last.id) then Distinct(front) else Distinct(front) + [last]
  }

  predicate MayAct(u: User, allowed: set<nat>) {
    u.active && u.id in allowed
  }

  function EffectiveIds(users: seq<User>, allowed: set<nat>): (r: seq<nat>) {
    if users == [] then []
    else
      var front, last := EffectiveIds(users[..|users| - 1], allowed), users[|users| - 1];
      if MayAct(last, allowed) then front + [last.id] else front
  }

  function ExcludedUsers(users: seq<User>, allowed: set<nat>): (r: seq<Excluded>) {
    if users == [] then []
    else
      var front, last := ExcludedUsers(users[..|users| - 1], allowed), users[|users| - 1];
      if MayAct(last, allowed) then front
      else front + [Excluded(last.id, last.name, if last.active then MissingPermission else Inactive)]
  }

  function EmptyGroups(d: Directory, groups: seq<string>): (r: seq<string>) {
    if groups == [] then []
    else
      var front, last := EmptyGroups(d, groups[..|groups| - 1]), groups[|groups| - 1];
      if Members(d, last) == [] then front + [last] else front
  }

  lemma HasIdAppend(users: seq<User>, u: User, id: nat)
    ensures HasId(users + [u], id) <==> HasId(users, id) || u.id == id
  {
    if HasId(users, id) {
      var i :| 0 <= i < |users| && users[i].id == id;
      assert (users + [u])[i].id == id;
    }
    assert (users + [u])[|users|] == u;
  }

  /** One more entry: ignored, excluded or effective. */
  lemma OneMoreUser(users: seq<User>, u: User, allowed: set<nat>)
    ensures HasId(users, u.id) ==> Distinct(users + [u]) == Distinct(users)
    ensures !HasId(users, u.id) ==>
              var front := Distinct(users);
              && Distinct(users + [u]) == front + [u]
              && EffectiveIds(front + [u], allowed) == (if MayAct(u, allowed) then EffectiveIds(front, allowed) + [u.id] else EffectiveIds(front, allowed))
              && ExcludedUsers(front + [u], allowed) ==
                 if MayAct(u, allowed) then ExcludedUsers(front, allowed)
                 else ExcludedUsers(front, allowed) + [Excluded(u.id, u.name, if u.active then MissingPermission else Inactive)]
  {
    assert (users + [u])[..|users|] == users;
    assert (Distinct(users) + [u])[..|Distinct(users)|] == Distinct(users);
  }

  /** What the loops have collected from the entries read so far. */
  ghost predicate Tally(all: seq<User>, allowed: set<nat>, seen: set<nat>, userIds: seq<nat>, excluded: seq<Excluded>) {
    && (forall id :: id in seen <==> HasId(all, id))
    && userIds == EffectiveIds(Distinct(all), allowed)
    && excluded == ExcludedUsers(Distinct(all), allowed)
  }

  lemma TallySeen(all: seq<User>, u: User, allowed: set<nat>, seen: set<nat>, userIds: seq<nat>, excluded: seq<Excluded>)
    requires Tally(all, allowed, seen, userIds, excluded) && u.id in seen
    ensures Tally(all + [u], allowed, seen, userIds, excluded)
  {
    OneMoreUser(all, u, allowed);
    forall id ensures HasId(all + [u], id) <==> HasId(all, id) || u.id == id {
      HasIdAppend(all, u, id);
    }
  }

  lemma TallyNew(all: seq<User>, u: User, allowed: set<nat>, seen: set<nat>, userIds: seq<nat>, excluded: seq<Excluded>)
    requires Tally(all, allowed, seen, userIds, excluded) && u.id !in seen
    ensures MayAct(u, allowed) ==> Tally(all + [u], allowed, seen + {u.id}, userIds + [u.id], excluded)
    ensures !MayAct(u, allowed) ==>
              Tally(all + [u], allowed, seen + {u.id}, userIds,
                    excluded + [Excluded(u.id, u.name, if u.active then MissingPermission else Inactive)])
  {
    OneMoreUser(all, u, allowed);
    forall id ensures HasId(all + [u], id) <==> HasId(all, id) || u.id == id {
      HasIdAppend(all, u, id);
    }
  }

  method ResolveWorkflowUsers(d: Directory, groups: seq<string>, allowed: set<nat>)
    returns (userIds: seq<nat>, missing: seq<string>, excluded: seq<Excluded>)
    ensures userIds == EffectiveIds(Distinct(Listed(d, groups)), allowed)
    ensures excluded == ExcludedUsers(Distinct(Listed(d, groups)), allowed)
    ensures missing == EmptyGroups(d, groups)
  {
    var seen: set<nat> := {};
    userIds, missing, excluded := [], [], [];
    var g := 0;
    while g < |groups|
      invariant 0 <= g <= |groups|
      invariant Tally(Listed(d, groups[..g]), allowed, seen, userIds, excluded)
      invariant missing == EmptyGroups(d, groups[..g])
    {
      var group := groups[g];
      var members := Members(d, group);
      assert groups[..g + 1][..g] == groups[..g];
      ghost var all := Listed(d, groups[..g]);
      g := g + 1;
      if |members| == 0 {
        missing := missing + [group];
        assert all + [] == all;
        continue;
      }
      seen, userIds, excluded := AddMembers(members, allowed, seen, userIds, excluded, all);
    }
    assert groups[..g] == groups;
  }

  /** The loop over the members of one group. */
  method AddMembers(members: seq<User>, allowed: set<nat>, seen: set<nat>, userIds: seq<nat>, excluded: seq<Excluded>, ghost all: seq<User>)
    returns (seen': set<nat>, userIds': seq<nat>, excluded': seq<Excluded>)
    requires Tally(all, allowed, seen, userIds, excluded)
    ensures Tally(all + members, allowed, seen', userIds', excluded')
  {
    seen', userIds', excluded' := seen, userIds, excluded;
    var k := 0;
    assert all + members[..0] == all;
    while k < |members|
      invariant 0 <= k <= |members|
      invariant Tally(all + members[..k], allowed, seen', userIds', excluded')
    {
      var user := members[k];
      ghost var before := all + members[..k];
      assert all + members[..k + 1] == before + [user];
      k := k + 1;
      if user.id in seen' {
        TallySeen(before, user, allowed, seen', userIds', excluded');
        continue;
      }
      TallyNew(before, user, allowed, seen', userIds', excluded');
      seen' := seen' + {user.id};
      if !user.active {
        excluded' := excluded' + [Excluded(user.id, user.name, Inactive)];
        continue;
      }
      if user.id !in allowed {
        excluded' := excluded' + [Excluded(user.id, user.name, MissingPermission)];
        continue;
      }
      userIds' := userIds' + [user.id];
    }
    assert members[..k] == members;
  }

  // ----- every member exactly once -----

  function IdsOf(users: seq<User>): seq<nat> {
    seq(|users|, i requires 0 <= i < |users| => users[i].id)
  }

  function ExcludedIds(excluded: seq<Excluded>): seq<nat> {
    seq(|excluded|, i requires 0 <= i < |excluded| => excluded[i].id)
  }

  /** How often an ID is placed, as effective or as excluded. */
  function Placed(effective: seq<nat>, excluded: seq<Excluded>, id: nat): nat {
    multiset(effective)[id] + multiset(ExcludedIds(excluded))[id]
  }

  lemma AppendId(ids: seq<nat>, x: nat)
    ensures multiset(ids + [x]) == multiset(ids) + multiset{x}
  {
  }

  lemma ExcludedIdsAppend(excluded: seq<Excluded>, e: Excluded)
    ensures ExcludedIds(excluded + [e]) == ExcludedIds(excluded) + [e.id]
  {
  }

  /** Deciding who may act places every entry once. */
  lemma {:induction false} DecidingPlaces(users: seq<User>, allowed: set<nat>, id: nat)
    ensures Placed(EffectiveIds(users, allowed), ExcludedUsers(users, allowed), id) == multiset(IdsOf(users))[id]
  {
    if users != [] {
      var n := |users| - 1;
      var u := users[n];
      DecidingPlaces(users[..n], allowed, id);
      assert IdsOf(users) == IdsOf(users[..n]) + [u.id];
      AppendId(EffectiveIds(users[..n], allowed), u.id);
      ExcludedIdsAppend(ExcludedUsers(users[..n], allowed), Excluded(u.id, u.name, if u.active then MissingPermission else Inactive));
      AppendId(ExcludedIds(ExcludedUsers(users[..n], allowed)), u.id);
    }
  }

  lemma IdsOfAppend(users: seq<User>, u: User)
    ensures IdsOf(users + [u]) == IdsOf(users) + [u.id]
    ensures multiset(IdsOf(users + [u])) == multiset(IdsOf(users)) + multiset{u.id}
  {
    assert IdsOf(users + [u]) == IdsOf(users) + [u.id];
    AppendId(IdsOf(users), u.id);
  }

  lemma {:induction false} DistinctHolds(users: seq<User>, id: nat)
    ensures multiset(IdsOf(Distinct(users)))[id] == if HasId(users, id) then 1 else 0
  {
    if users == [] {
      assert IdsOf(Distinct(users)) == [];
    } else {
      var n := |users| - 1;
      var u, front := users[n], users[..n];
      assert users == front + [u];
      DistinctHolds(front, id);
      HasIdAppend(front, u, id);
      OneMoreUser(front, u, {});
      if !HasId(front, u.id) {
        IdsOfAppend(Distinct(front), u);
      }
    }
  }

  /** Every member of the listed groups is placed exactly once, nobody else is. */
  lemma EachMemberOnce(d: Directory, groups: seq<string>, allowed: set<nat>, id: nat)
    ensures var users := Distinct(Listed(d, groups));
            Placed(EffectiveIds(users, allowed), ExcludedUsers(users, allowed), id)
            == if HasId(Listed(d, groups), id) then 1 else 0
  {
    DecidingPlaces(Distinct(Listed(d, groups)), allowed, id);
    DistinctHolds(Listed(d, groups), id);
  }

  lemma {:induction false} MemberOfSome(d: Directory, groups: seq<string>, id: nat)
    ensures HasId(Listed(d, groups), id) <==> exists g :: 0 <= g < |groups| && HasId(Members(d, groups[g]), id)
  {
    if groups != [] {
      var n := |groups| - 1;
      MemberOfSome(d, groups[..n], id);
      HasIdConcat(Listed(d, groups[..n]), Members(d, groups[n]), id);
      if g :| 0 <= g < n && HasId(Members(d, groups[..n][g]), id) {
        assert HasId(Members(d, groups[g]), id);
      }
      if g :| 0 <= g < |groups| && HasId(Members(d, groups[g]), id) {
        assert g < n ==> HasId(Members(d, groups[..n][g]), id);
      }
      assert HasId(Members(d, groups[n]), id) ==> exists g :: 0 <= g < |groups| && HasId(Members(d, groups[g]), id);
    }
  }

  lemma HasIdConcat(a: seq<User>, b: seq<User>, id: nat)
    ensures HasId(a + b, id) <==> HasId(a, id) || HasId(b, id)
  {
    if i :| 0 <= i < |a| && a[i].id == id {
      assert (a + b)[i].id == id;
    }
    if i :| 0 <= i < |b| && b[i].id == id {
      assert (a + b)[|a| + i].id == id;
    }
    if i :| 0 <= i < |a + b| && (a + b)[i].id == id {
      assert if i < |a| then a[i].id == id else b[i - |a|].id == id;
    }
  }

  /** The first entry with an ID. */
  function FirstEntry(users: seq<User>, id: nat): (u: User)
    requires HasId(users, id)
    ensures u in users && u.id == id
  {
    if users[0].id == id then users[0]
    else
      var i :| 0 <= i < |users| && users[i].id == id;
      assert users[1..][i - 1].id == id;
      FirstEntry(users[1..], id)
  }

  lemma {:induction false} FirstEntryAppend(users: seq<User>, u: User, id: nat)
    requires HasId(users, id)
    ensures HasId(users + [u], id) && FirstEntry(users + [u], id) == FirstEntry(users, id)
  {
    HasIdAppend(users, u, id);
    if users[0].id != id {
      var i :| 0 <= i < |users| && users[i].id == id;
      assert users[1..][i - 1].id == id;
      assert (users + [u])[1..] == users[1..] + [u];
      FirstEntryAppend(users[1..], u, id);
    }
  }

  lemma {:induction false} FirstEntryLast(users: seq<User>, u: User)
    requires !HasId(users, u.id)
    ensures HasId(users + [u], u.id) && FirstEntry(users + [u], u.id) == u
  {
    HasIdAppend(users, u, u.id);
    if users != [] {
      assert users[0].id != u.id;
      assert (users + [u])[1..] == users[1..] + [u];
      assert forall i :: 0 <= i < |users[1..]| ==> users[1..][i] == users[i + 1];
      FirstEntryLast(users[1..], u);
    }
  }

  /** A member is effective exactly if the first entry found for it is active and holds the permission. */
  lemma {:induction false} EffectiveIff(users: seq<User>, allowed: set<nat>, id: nat)
    ensures id in EffectiveIds(Distinct(users), allowed) <==> HasId(users, id) && MayAct(FirstEntry(users, id), allowed)
  {
    if users != [] {
      var n := |users| - 1;
      var u, front := users[n], users[..n];
      assert users == front + [u];
      EffectiveIff(front, allowed, id);
      HasIdAppend(front, u, id);
      OneMoreUser(front, u, allowed);
      if HasId(front, id) {
        FirstEntryAppend(front, u, id);
      } else if u.id == id {
        FirstEntryLast(front, u);
      }
    }
  }

  // ----- the resolution -----

  datatype Error = NoError | NoMatchingRule | NoApprovers | NoExecutors

  datatype Outcome = Outcome(rule: Option<Rule>, approvalEnabled: bool, automatic: bool,
                             approvers: seq<nat>, excludedApprovers: seq<Excluded>, missingApprovalGroups: seq<string>,
                             executors: seq<nat>, excludedExecutors: seq<Excluded>, missingExecutorGroups: seq<string>,
                             admins: seq<nat>, error: Error)

  const AUTO_AFTER_APPROVAL := "auto_after_approval"

  /** Tickets that somebody has to execute. */
  predicate Executable(t: TicketType) {
    t == "ddl" || t == "dml" || t == "redis_command"
  }

  function ActiveIds(users: seq<User>): (r: seq<nat>) {
    if users == [] then []
    else
      var front := ActiveIds(users[..|users| - 1]);
      if users[|users| - 1].active then front + [users[|users| - 1].id] else front
  }

  function Admins(d: Directory): seq<nat> {
    ActiveIds(Members(d, "admin"))
  }

  /** The first thing that is wrong with the people found. */
  function Lacking(approvalEnabled: bool, automatic: bool, t: TicketType, approvers: seq<nat>, executors: seq<nat>): Error {
    if approvalEnabled && approvers == [] then NoApprovers
    else if Executable(t) && !automatic && executors == [] then NoExecutors
    else NoError
  }

  /** The people the rule's groups give. */
  function Approving(o: Outcome, rule: Rule, d: Directory): Outcome {
    var users := Distinct(Listed(d, rule.approvalGroups));
    o.(rule := Some(rule), approvalEnabled := rule.approvalEnabled, automatic := rule.executionMode == AUTO_AFTER_APPROVAL,
       approvers := EffectiveIds(users, d.reviewers), excludedApprovers := ExcludedUsers(users, d.reviewers),
       missingApprovalGroups := EmptyGroups(d, rule.approvalGroups))
  }

  function Executing(o: Outcome, rule: Rule, d: Directory): Outcome {
    var users := Distinct(Listed(d, rule.executorGroups));
    o.(executors := EffectiveIds(users, d.executors), excludedExecutors := ExcludedUsers(users, d.executors),
       missingExecutorGroups := EmptyGroups(d, rule.executorGroups))
  }

  /** When somebody is lacking, the administrators are named instead. */
  function Judged(o: Outcome, t: TicketType, d: Directory): Outcome {
    var error := Lacking(o.approvalEnabled, o.automatic, t, o.approvers, o.executors);
    if error == NoError then o else o.(admins := Admins(d), error := error)
  }

  const UNRESOLVED := Outcome(None, true, false, [], [], [], [], [], [], [], NoError)

  function ResolvedBy(rule: Rule, t: TicketType, d: Directory): Outcome {
    var o := Approving(UNRESOLVED, rule, d);
    Judged(if o.automatic then o else Executing(o, rule, d), t, d)
  }

  function Resolved(rules: seq<Rule>, s: Scope, d: Directory): Outcome {
    match Select(rules, s)
    case None => UNRESOLVED.(admins := Admins(d), error := NoMatchingRule)
    case Some(rule) => ResolvedBy(rule, s.ticketType, d)
  }

  // ----- without the submitter -----

  function Without(ids: seq<nat>, id: nat): (r: seq<nat>) {
    if ids == [] then []
    else
      var front := Without(ids[..|ids| - 1], id);
      if ids[|ids| - 1] == id then front else front + [ids[|ids| - 1]]
  }

  function Noted(ids: seq<nat>, excluded: seq<Excluded>, id: nat): seq<Excluded> {
    if id in ids then excluded + [Excluded(id, "", Submitter)] else excluded
  }

  /** The submitter does not act on the own ticket, unless a bypass allows it. */
  function WithoutSubmitter(o: Outcome, submitter: nat, t: TicketType, selfReview: bool, selfExecute: bool): Outcome {
    if submitter == 0 then o
    else
      var o1 := if selfReview then o else o.(approvers := Without(o.approvers, submitter), excludedApprovers := Noted(o.approvers, o.excludedApprovers, submitter));
      var o2 := if selfExecute then o1 else o1.(executors := Without(o.executors, submitter), excludedExecutors := Noted(o.executors, o.excludedExecutors, submitter));
      if o2.error != NoError then o2
      else o2.(error := Lacking(o2.approvalEnabled, o2.automatic, t, o2.approvers, o2.executors))
  }

  function Final(rules: seq<Rule>, s: Scope, d: Directory, submitter: nat, selfReview: bool, selfExecute: bool): Outcome {
    WithoutSubmitter(Resolved(rules, s, d), submitter, s.ticketType, selfReview, selfExecute)
  }

  lemma {:induction false} WithoutCounts(ids: seq<nat>, id: nat, x: nat)
    ensures multiset(Without(ids, id))[x] == if x == id then 0 else multiset(ids)[x]
    ensures id !in ids ==> Without(ids, id) == ids
  {
    if ids != [] {
      var n := |ids| - 1;
      WithoutCounts(ids[..n], id, x);
      assert ids == ids[..n] + [ids[n]];
      AppendId(ids[..n], ids[n]);
    }
  }

  /** The positions that are kept. */
  function Kept(ids: seq<nat>, id: nat): (at: seq<nat>)
    ensures |at| == |Without(ids, id)| && forall i :: 0 <= i < |at| ==> at[i] < |ids|
  {
    if ids == [] then []
    else
      var n := |ids| - 1;
      if ids[n] == id then Kept(ids[..n], id) else Kept(ids[..n], id) + [n]
  }

  /** What is left keeps its order: it is the input read at increasing positions, all but those of the ID. */
  lemma {:induction false} WithoutKeepsOrder(ids: seq<nat>, id: nat, i: nat, j: nat)
    requires i < j < |Without(ids, id)|
    ensures Kept(ids, id)[i] < Kept(ids, id)[j]
    ensures ids[Kept(ids, id)[i]] == Without(ids, id)[i] && ids[Kept(ids, id)[j]] == Without(ids, id)[j]
  {
    KeptReads(ids, id, i);
    KeptReads(ids, id, j);
    var n := |ids| - 1;
    if j < |Without(ids[..n], id)| {
      WithoutKeepsOrder(ids[..n], id, i, j);
    }
  }

  lemma {:induction false} KeptReads(ids: seq<nat>, id: nat, i: nat)
    requires i < |Without(ids, id)|
    ensures ids[Kept(ids, id)[i]] == Without(ids, id)[i]
  {
    var n := |ids| - 1;
    if i < |Without(ids[..n], id)| {
      KeptReads(ids[..n], id, i);
    }
  }

  lemma {:induction false} AllOthersKept(ids: seq<nat>, id: nat, k: nat)
    requires k < |ids|
    ensures k in Kept(ids, id) <==> ids[k] != id
  {
    var n := |ids| - 1;
    var front := Kept(ids[..n], id);
    if k < n {
      AllOthersKept(ids[..n], id, k);
    } else {
      assert k !in front;
      assert ids[n] != id ==> Kept(ids, id)[|front|] == n;
    }
  }

  /** Moving the submitter keeps everybody placed once. */
  lemma MovingPlaces(ids: seq<nat>, excluded: seq<Excluded>, submitter: nat, x: nat)
    requires Placed(ids, excluded, submitter) <= 1
    ensures Placed(Without(ids, submitter), Noted(ids, excluded, submitter), x) == Placed(ids, excluded, x)
  {
    WithoutCounts(ids, submitter, x);
    if submitter in ids {
      ExcludedIdsAppend(excluded, Excluded(submitter, "", Submitter));
      AppendId(ExcludedIds(excluded), submitter);
      assert submitter in multiset(ids);
    }
  }

  /** The submitter is in neither list unless allowed to be. */
  lemma SubmitterDoesNotAct(rules: seq<Rule>, s: Scope, d: Directory, submitter: nat, selfReview: bool, selfExecute: bool)
    requires submitter != 0
    ensures var o := Final(rules, s, d, submitter, selfReview, selfExecute);
            && (!selfReview ==> submitter !in o.approvers)
            && (!selfExecute ==> submitter !in o.executors)
            && (selfReview ==> o.approvers == Resolved(rules, s, d).approvers)
            && (selfExecute ==> o.executors == Resolved(rules, s, d).executors)
  {
    var o := Resolved(rules, s, d);
    WithoutCounts(o.approvers, submitter, submitter);
    WithoutCounts(o.executors, submitter, submitter);
    assert submitter !in multiset(Without(o.approvers, submitter)) && submitter !in multiset(Without(o.executors, submitter));
  }

  /** The parts of the final outcome. */
  lemma FinalParts(o: Outcome, submitter: nat, t: TicketType, selfReview: bool, selfExecute: bool)
    ensures var f := WithoutSubmitter(o, submitter, t, selfReview, selfExecute);
            && (if submitter == 0 || selfReview then (f.approvers, f.excludedApprovers) == (o.approvers, o.excludedApprovers)
                else (f.approvers, f.excludedApprovers) == (Without(o.approvers, submitter), Noted(o.approvers, o.excludedApprovers, submitter)))
            && (if submitter == 0 || selfExecute then (f.executors, f.excludedExecutors) == (o.executors, o.excludedExecutors)
                else (f.executors, f.excludedExecutors) == (Without(o.executors, submitter), Noted(o.executors, o.excludedExecutors, submitter)))
  {
  }

  lemma ResolvedParts(rules: seq<Rule>, s: Scope, d: Directory, rule: Rule)
    requires Select(rules, s) == Some(rule)
    ensures var o := Resolved(rules, s, d);
            && o.approvers == EffectiveIds(Distinct(Listed(d, rule.approvalGroups)), d.reviewers)
            && o.excludedApprovers == ExcludedUsers(Distinct(Listed(d, rule.approvalGroups)), d.reviewers)
            && (rule.executionMode != AUTO_AFTER_APPROVAL ==>
                  && o.executors == EffectiveIds(Distinct(Listed(d, rule.executorGroups)), d.executors)
                  && o.excludedExecutors == ExcludedUsers(Distinct(Listed(d, rule.executorGroups)), d.executors))
  {
  }

  /** Somebody is listed as a member of one of the groups. */
  predicate MemberOf(d: Directory, groups: seq<string>, id: nat) {
    exists g :: 0 <= g < |groups| && HasId(Members(d, groups[g]), id)
  }

  /** Each member of the groups is placed once, as effective or as excluded; nobody else is. */
  predicate PlacedOnce(effective: seq<nat>, excluded: seq<Excluded>, d: Directory, groups: seq<string>, id: nat) {
    Placed(effective, excluded, id) == if MemberOf(d, groups, id) then 1 else 0
  }

  lemma ListsPlaceOnce(d: Directory, groups: seq<string>, allowed: set<nat>, submitter: nat, id: nat)
    ensures var users := Distinct(Listed(d, groups));
            var ids, excluded := EffectiveIds(users, allowed), ExcludedUsers(users, allowed);
            && PlacedOnce(ids, excluded, d, groups, id)
            && PlacedOnce(Without(ids, submitter), Noted(ids, excluded, submitter), d, groups, id)
  {
    MemberOfSome(d, groups, id);
    EachMemberOnce(d, groups, allowed, id);
    EachMemberOnce(d, groups, allowed, submitter);
    var users := Distinct(Listed(d, groups));
    MovingPlaces(EffectiveIds(users, allowed), ExcludedUsers(users, allowed), submitter, id);
  }

  /** Through matching, resolving and excluding, every member of the rule's groups is placed exactly
      once, as effective or as excluded, and nobody else is. */
  lemma EverybodyPlacedOnce(rules: seq<Rule>, s: Scope, d: Directory, submitter: nat, selfReview: bool, selfExecute: bool, id: nat)
    requires Select(rules, s).Some?
    ensures var o, rule := Final(rules, s, d, submitter, selfReview, selfExecute), Select(rules, s).value;
            && PlacedOnce(o.approvers, o.excludedApprovers, d, rule.approvalGroups, id)
            && (rule.executionMode != AUTO_AFTER_APPROVAL ==> PlacedOnce(o.executors, o.excludedExecutors, d, rule.executorGroups, id))
  {
    var rule := Select(rules, s).value;
    ResolvedParts(rules, s, d, rule);
    FinalParts(Resolved(rules, s, d), submitter, s.ticketType, selfReview, selfExecute);
    ListsPlaceOnce(d, rule.approvalGroups, d.reviewers, submitter, id);
    ListsPlaceOnce(d, rule.executorGroups, d.executors, submitter, id);
  }

  /** Somebody who may act on the ticket: a member of the groups whose first entry is active and holds
      the permission, other than the submitter unless the bypass allows that. */
  predicate Eligible(d: Directory, groups: seq<string>, allowed: set<nat>, submitter: nat, bypass: bool, id: nat) {
    && HasId(Listed(d, groups), id) && MayAct(FirstEntry(Listed(d, groups), id), allowed)
    && (id != submitter || submitter == 0 || bypass)
  }

  ghost predicate SomebodyEligible(d: Directory, groups: seq<string>, allowed: set<nat>, submitter: nat, bypass: bool) {
    exists id :: Eligible(d, groups, allowed, submitter, bypass, id)
  }

  /** The list that is left is empty exactly if nobody is eligible. */
  lemma LeftIffEligible(d: Directory, groups: seq<string>, allowed: set<nat>, submitter: nat, bypass: bool, left: seq<nat>)
    requires var ids := EffectiveIds(Distinct(Listed(d, groups)), allowed);
             left == if submitter == 0 || bypass then ids else Without(ids, submitter)
    ensures left != [] <==> SomebodyEligible(d, groups, allowed, submitter, bypass)
  {
    var ids := EffectiveIds(Distinct(Listed(d, groups)), allowed);
    if left != [] {
      var id := left[0];
      LeftIff(ids, submitter, bypass, left, id);
      EffectiveIff(Listed(d, groups), allowed, id);
      assert Eligible(d, groups, allowed, submitter, bypass, id);
    }
    if id :| Eligible(d, groups, allowed, submitter, bypass, id) {
      EffectiveIff(Listed(d, groups), allowed, id);
      LeftIff(ids, submitter, bypass, left, id);
    }
  }

  lemma LeftIff(ids: seq<nat>, submitter: nat, bypass: bool, left: seq<nat>, id: nat)
    requires left == if submitter == 0 || bypass then ids else Without(ids, submitter)
    ensures id in left <==> id in ids && (id != submitter || submitter == 0 || bypass)
  {
    WithoutCounts(ids, submitter, id);
    assert id in left <==> id in multiset(left);
    assert id in ids <==> id in multiset(ids);
  }

  /** A resolution is free of errors exactly if a rule matched, somebody is eligible to approve wherever
      approval is enabled, and somebody is eligible to execute wherever the ticket has to be executed by hand. */
  lemma ErrorFreeIff(rules: seq<Rule>, s: Scope, d: Directory, submitter: nat, selfReview: bool, selfExecute: bool)
    ensures Final(rules, s, d, submitter, selfReview, selfExecute).error == NoError <==>
            && Select(rules, s).Some?
            && var rule := Select(rules, s).value;
               && (rule.approvalEnabled ==> SomebodyEligible(d, rule.approvalGroups, d.reviewers, submitter, selfReview))
               && (Executable(s.ticketType) && rule.executionMode != AUTO_AFTER_APPROVAL
                   ==> SomebodyEligible(d, rule.executorGroups, d.executors, submitter, selfExecute))
  {
    if Select(rules, s).Some? {
      var o, rule := Final(rules, s, d, submitter, selfReview, selfExecute), Select(rules, s).value;
      ResolvedParts(rules, s, d, rule);
      FinalParts(Resolved(rules, s, d), submitter, s.ticketType, selfReview, selfExecute);
      LeftIffEligible(d, rule.approvalGroups, d.reviewers, submitter, selfReview, o.approvers);
      if rule.executionMode != AUTO_AFTER_APPROVAL {
        LeftIffEligible(d, rule.executorGroups, d.executors, submitter, selfExecute, o.executors);
      }
      FinalError(rules, s, d, submitter, selfReview, selfExecute);
    }
  }

  lemma FinalError(rules: seq<Rule>, s: Scope, d: Directory, submitter: nat, selfReview: bool, selfExecute: bool)
    requires Select(rules, s).Some?
    ensures var o, rule := Final(rules, s, d, submitter, selfReview, selfExecute), Select(rules, s).value;
            o.error == NoError <==>
            && (rule.approvalEnabled ==> o.approvers != [])
            && (Executable(s.ticketType) && rule.executionMode != AUTO_AFTER_APPROVAL ==> o.executors != [])
  {
  }

  /** Slices share their array: the kept IDs are moved to its front, the rest stays as it was. */
  method ExcludeWorkflowUserId(ids: array<nat>, count: nat, id: nat) returns (left: nat, excluded: bool)
    requires count <= ids.Length
    modifies ids
    ensures left <= count && ids[..left] == Without(old(ids[..count]), id)
    ensures excluded <==> id in old(ids[..count])
    ensures !excluded ==> left == count && ids[..] == old(ids[..])
    ensures ids[left..] == old(ids[left..])
  {
    left, excluded := 0, false;
    ghost var before := ids[..];
    var k := 0;
    while k < count
      invariant 0 <= left <= k <= count
      invariant ids[..left] == Without(before[..k], id)
      invariant forall i :: left <= i < ids.Length ==> ids[i] == before[i]
      invariant excluded <==> id in before[..k]
      invariant !excluded ==> left == k && forall i :: 0 <= i < k ==> ids[i] == before[i]
    {
      var userId := ids[k];
      assert before[..k + 1][..k] == before[..k] && before[..k + 1][k] == userId;
      assert before[..k + 1] == before[..k] + [userId];
      k := k + 1;
      if userId == id {
        excluded := true;
        continue;
      }
      ghost var kept := ids[..left];
      ids[left] := userId;
      left := left + 1;
      assert ids[..left] == kept + [userId];
    }
    assert ids[left..] == before[left..];
    if !excluded {
      assert ids[..] == before;
    }
  }

  method ActiveUserIds(users: seq<User>) returns (ids: seq<nat>)
    ensures ids == ActiveIds(users)
  {
    ids := [];
    var k := 0;
    while k < |users|
      invariant 0 <= k <= |users| && ids == ActiveIds(users[..k])
    {
      assert users[..k + 1][..k] == users[..k];
      if users[k].active {
        ids := ids + [users[k].id];
      }
      k := k + 1;
    }
    assert users[..k] == users;
  }

  method ToArray(ids: seq<nat>) returns (a: array<nat>)
    ensures fresh(a) && a[..] == ids
  {
    a := new nat[|ids|](i requires 0 <= i < |ids| => ids[i]);
    assert forall i :: 0 <= i < |ids| ==> a[i] == ids[i];
    assert a[..] == ids;
  }

  /** The resolution object, filled in step by step and changed in place. */
  class Resolution {
    var rule: Option<Rule>
    var approvalEnabled: bool
    var automatic: bool
    var approvers: array<nat>
    var approverCount: nat
    var excludedApprovers: seq<Excluded>
    var missingApprovalGroups: seq<string>
    var executors: array<nat>
    var executorCount: nat
    var excludedExecutors: seq<Excluded>
    var missingExecutorGroups: seq<string>
    var admins: seq<nat>
    var error: Error

    ghost predicate Valid()
      reads this
    {
      approverCount <= approvers.Length && executorCount <= executors.Length && approvers != executors
    }

    ghost function Value(): (o: Outcome)
      reads this, approvers, executors
      requires Valid()
    {
      Outcome(rule, approvalEnabled, automatic,
              approvers[..approverCount], excludedApprovers, missingApprovalGroups,
              executors[..executorCount], excludedExecutors, missingExecutorGroups, admins, error)
    }

    constructor Empty()
      ensures Valid() && fresh(approvers) && fresh(executors)
      ensures Value() == UNRESOLVED
    {
      rule, approvalEnabled, automatic := None, true, false;
      approvers, executors := new nat[0], new nat[0];
      approverCount, executorCount := 0, 0;
      excludedApprovers, excludedExecutors := [], [];
      missingApprovalGroups, missingExecutorGroups := [], [];
      admins, error := [], NoError;
    }

    method StoreApprovers(ids: seq<nat>, excluded: seq<Excluded>, missing: seq<string>)
      requires Valid()
      modifies this
      ensures Valid() && fresh(approvers) && executors == old(executors)
      ensures Value() == old(Value()).(approvers := ids, excludedApprovers := excluded, missingApprovalGroups := missing)
    {
      approvers := ToArray(ids);
      approverCount, excludedApprovers, missingApprovalGroups := |ids|, excluded, missing;
    }

    method SetApprovers(r: Rule, d: Directory)
      requires Valid()
      modifies this
      ensures Valid() && fresh(approvers) && executors == old(executors)
      ensures Value() == Approving(old(Value()), r, d)
    {
      var ids, missing, excluded := ResolveWorkflowUsers(d, r.approvalGroups, d.reviewers);
      StoreApprovers(ids, excluded, missing);
      rule, approvalEnabled := Some(r), r.approvalEnabled;
      automatic := r.executionMode == AUTO_AFTER_APPROVAL;
    }

    method SetExecutors(r: Rule, d: Directory)
      requires Valid()
      modifies this
      ensures Valid() && fresh(executors) && approvers == old(approvers)
      ensures Value() == Executing(old(Value()), r, d)
    {
      var ids, missing, excluded := ResolveWorkflowUsers(d, r.executorGroups, d.executors);
      executors := ToArray(ids);
      executorCount, excludedExecutors, missingExecutorGroups := |ids|, excluded, missing;
    }

    method CheckPeople(t: TicketType, d: Directory)
      requires Valid()
      modifies this
      ensures Valid() && approvers == old(approvers) && executors == old(executors)
      ensures Value() == Judged(old(Value()), t, d)
    {
      if approvalEnabled && approverCount == 0 {
        admins := ActiveUserIds(Members(d, "admin"));
        error := NoApprovers;
        return;
      }
      if Executable(t) && !automatic && executorCount == 0 {
        admins := ActiveUserIds(Members(d, "admin"));
        error := NoExecutors;
        return;
      }
    }

    /** Drops the submitter from the approvers. */
    method ExcludeApprover(id: nat)
      requires Valid()
      modifies this, approvers
      ensures Valid() && approvers == old(approvers) && executors == old(executors)
      ensures var o := old(Value());
              Value() == o.(approvers := Without(o.approvers, id), excludedApprovers := Noted(o.approvers, o.excludedApprovers, id))
    {
      var left, excluded := ExcludeWorkflowUserId(approvers, approverCount, id);
      if excluded {
        approverCount := left;
        excludedApprovers := excludedApprovers + [Excluded(id, "", Submitter)];
      }
    }

    method ExcludeExecutor(id: nat)
      requires Valid()
      modifies this, executors
      ensures Valid() && approvers == old(approvers) && executors == old(executors)
      ensures var o := old(Value());
              Value() == o.(executors := Without(o.executors, id), excludedExecutors := Noted(o.executors, o.excludedExecutors, id))
    {
      var left, excluded := ExcludeWorkflowUserId(executors, executorCount, id);
      if excluded {
        executorCount := left;
        excludedExecutors := excludedExecutors + [Excluded(id, "", Submitter)];
      }
    }

    method ExcludeSubmitter(submitter: nat, t: TicketType, selfReview: bool, selfExecute: bool)
      requires Valid()
      modifies this, approvers, executors
      ensures Valid() && approvers == old(approvers) && executors == old(executors)
      ensures Value() == WithoutSubmitter(old(Value()), submitter, t, selfReview, selfExecute)
    {
      if submitter == 0 {
        return;
      }
      if !selfReview {
        ExcludeApprover(submitter);
      }
      if !selfExecute {
        ExcludeExecutor(submitter);
      }
      if error != NoError {
        return;
      }
      if approvalEnabled && approverCount == 0 {
        error := NoApprovers;
        return;
      }
      if Executable(t) && !automatic && executorCount == 0 {
        error := NoExecutors;
        return;
      }
    }
  }

  method ResolveWorkflow(rules: seq<Rule>, s: Scope, d: Directory) returns (r: Resolution)
    ensures fresh(r) && r.Valid() && fresh(r.approvers) && fresh(r.executors)
    ensures r.Value() == Resolved(rules, s, d)
  {
    r := new Resolution.Empty();
    var rule := MatchWorkflowRule(rules, s);
    if rule.None? {
      r.admins := ActiveUserIds(Members(d, "admin"));
      r.error := NoMatchingRule;
      return;
    }
    r.SetApprovers(rule.value, d);
    if !r.automatic {
      r.SetExecutors(rule.value, d);
    }
    r.CheckPeople(s.ticketType, d);
  }
}
