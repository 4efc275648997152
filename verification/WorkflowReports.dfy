/** What a workflow resolution reports, in terms of the rule chosen and the groups' members alone: who
    is left out and why, which groups are empty, which error is given and when administrators are named. */
module WorkflowReports {
  import opened Text
  import opened WorkflowRules
  import opened WorkflowResolution

  // ----- membership of the lists -----

  predicate Listing(users: seq<User>, active: bool, id: nat) {
    exists i :: 0 <= i < |users| && users[i].id == id && users[i].active == active
  }

  lemma {:induction false} ActiveIff(users: seq<User>, id: nat)
    ensures id in ActiveIds(users) <==> Listing(users, true, id)
  {
    if users != [] {
      var n := |users| - 1;
      ActiveIff(users[..n], id);
      if i :| 0 <= i < n && users[..n][i].id == id && users[..n][i].active == true {
        assert users[i] == users[..n][i];
      }
      if i :| 0 <= i < |users| && users[i].id == id && users[i].active == true {
        assert i < n ==> users[..n][i] == users[i];
      }
    }
  }

  /** The administrators named are the active members of the group "admin". */
  lemma AdminsAre(d: Directory, id: nat)
    ensures id in Admins(d) <==> "admin" in d.members && Listing(d.members["admin"], true, id)
  {
    ActiveIff(Members(d, "admin"), id);
  }

  predicate NobodyIn(d: Directory, g: string) {
    g !in d.members || |d.members[g]| == 0
  }

  lemma {:induction false} EmptyGroupsIff(d: Directory, groups: seq<string>, g: string)
    ensures g in EmptyGroups(d, groups) <==> g in groups && NobodyIn(d, g)
  {
    if groups != [] {
      var n := |groups| - 1;
      EmptyGroupsIff(d, groups[..n], g);
      assert groups == groups[..n] + [groups[n]];
    }
  }

  /** Somebody left out is reported under the name of the first entry, as inactive if that entry is, and
      otherwise as lacking the permission. */
  predicate LeftOut(u: User, allowed: set<nat>, e: Excluded) {
    && e.id == u.id && e.name == u.name
    && (e.reason == Inactive ==> !u.active)
    && (e.reason == MissingPermission ==> u.active && u.id !in allowed)
    && e.reason != Submitter
  }

  lemma OneMoreExcluded(front: seq<User>, u: User, allowed: set<nat>, e: Excluded)
    ensures e in ExcludedUsers(Distinct(front + [u]), allowed) <==>
            e in ExcludedUsers(Distinct(front), allowed) || (!HasId(front, u.id) && LeftOut(u, allowed, e))
  {
    OneMoreUser(front, u, allowed);
    if !HasId(front, u.id) {
      var reason := if u.active then MissingPermission else Inactive;
      assert LeftOut(u, allowed, e) <==> !MayAct(u, allowed) && e == Excluded(u.id, u.name, reason);
    }
  }

  lemma {:induction false} ExcludedIff(users: seq<User>, allowed: set<nat>, e: Excluded)
    ensures e in ExcludedUsers(Distinct(users), allowed) <==> HasId(users, e.id) && LeftOut(FirstEntry(users, e.id), allowed, e)
  {
    if users != [] {
      var n := |users| - 1;
      var u, front := users[n], users[..n];
      assert users == front + [u];
      ExcludedIff(front, allowed, e);
      HasIdAppend(front, u, e.id);
      OneMoreExcluded(front, u, allowed, e);
      if HasId(front, e.id) {
        FirstEntryAppend(front, u, e.id);
      } else if u.id == e.id {
        FirstEntryLast(front, u);
      }
    }
  }

  // ----- the outcome -----

  predicate EffectiveIn(d: Directory, groups: seq<string>, allowed: set<nat>, id: nat) {
    var users := Listed(d, groups);
    HasId(users, id) && var u := FirstEntry(users, id); u.active && id in allowed
  }

  predicate ExcludedFrom(d: Directory, groups: seq<string>, allowed: set<nat>, e: Excluded) {
    HasId(Listed(d, groups), e.id) && LeftOut(FirstEntry(Listed(d, groups), e.id), allowed, e)
  }

  /** One list of the final outcome: the effective members but the submitter, and those left out. */
  ghost predicate ListsAre(ids: seq<nat>, excluded: seq<Excluded>, d: Directory, groups: seq<string>, allowed: set<nat>, submitter: nat, bypass: bool) {
    var drops := submitter != 0 && !bypass;
    && (forall id :: id in ids <==> EffectiveIn(d, groups, allowed, id) && !(drops && id == submitter))
    && (forall e :: e in excluded <==>
          || ExcludedFrom(d, groups, allowed, e)
          || (drops && EffectiveIn(d, groups, allowed, submitter) && e == Excluded(submitter, "", Submitter)))
  }

  lemma ListsFinal(ids: seq<nat>, excluded: seq<Excluded>, d: Directory, groups: seq<string>, allowed: set<nat>, submitter: nat, bypass: bool)
    requires var users := Distinct(Listed(d, groups));
             var ids0, excluded0 := EffectiveIds(users, allowed), ExcludedUsers(users, allowed);
             if submitter == 0 || bypass then (ids, excluded) == (ids0, excluded0)
             else (ids, excluded) == (Without(ids0, submitter), Noted(ids0, excluded0, submitter))
    ensures ListsAre(ids, excluded, d, groups, allowed, submitter, bypass)
  {
    var users := Listed(d, groups);
    forall id ensures id in EffectiveIds(Distinct(users), allowed) <==> EffectiveIn(d, groups, allowed, id) {
      EffectiveIff(users, allowed, id);
    }
    forall e ensures e in ExcludedUsers(Distinct(users), allowed) <==> ExcludedFrom(d, groups, allowed, e) {
      ExcludedIff(users, allowed, e);
    }
    forall id ensures id in ids <==> id in EffectiveIds(Distinct(users), allowed) && (id != submitter || submitter == 0 || bypass) {
      LeftIff(EffectiveIds(Distinct(users), allowed), submitter, bypass, ids, id);
    }
  }

  /** Who approves and who does not, and why; likewise for executing, unless that is automatic. */
  lemma PeopleAre(rules: seq<Rule>, s: Scope, d: Directory, submitter: nat, selfReview: bool, selfExecute: bool)
    requires Select(rules, s).Some?
    ensures var o, rule := Final(rules, s, d, submitter, selfReview, selfExecute), Select(rules, s).value;
            && ListsAre(o.approvers, o.excludedApprovers, d, rule.approvalGroups, d.reviewers, submitter, selfReview)
            && (rule.executionMode != AUTO_AFTER_APPROVAL ==>
                  ListsAre(o.executors, o.excludedExecutors, d, rule.executorGroups, d.executors, submitter, selfExecute))
            && (rule.executionMode == AUTO_AFTER_APPROVAL ==> o.executors == [] && o.excludedExecutors == [])
  {
    var o, rule := Final(rules, s, d, submitter, selfReview, selfExecute), Select(rules, s).value;
    ResolvedParts(rules, s, d, rule);
    FinalParts(Resolved(rules, s, d), submitter, s.ticketType, selfReview, selfExecute);
    ListsFinal(o.approvers, o.excludedApprovers, d, rule.approvalGroups, d.reviewers, submitter, selfReview);
    if rule.executionMode != AUTO_AFTER_APPROVAL {
      ListsFinal(o.executors, o.excludedExecutors, d, rule.executorGroups, d.executors, submitter, selfExecute);
    }
  }

  /** The rule and its empty groups. */
  lemma GroupsReported(rules: seq<Rule>, s: Scope, d: Directory, submitter: nat, selfReview: bool, selfExecute: bool, g: string)
    requires Select(rules, s).Some?
    ensures var o, rule := Final(rules, s, d, submitter, selfReview, selfExecute), Select(rules, s).value;
            && o.rule == Some(rule) && o.approvalEnabled == rule.approvalEnabled && o.automatic == (rule.executionMode == "auto_after_approval")
            && (g in o.missingApprovalGroups <==> g in rule.approvalGroups && NobodyIn(d, g))
            && (g in o.missingExecutorGroups <==> rule.executionMode != "auto_after_approval" && g in rule.executorGroups && NobodyIn(d, g))
  {
    var rule := Select(rules, s).value;
    GroupsResolved(rule, s.ticketType, d, ResolvedBy(rule, s.ticketType, d));
    GroupsStay(Resolved(rules, s, d), submitter, s.ticketType, selfReview, selfExecute);
    EmptyGroupsIff(d, rule.approvalGroups, g);
    EmptyGroupsIff(d, rule.executorGroups, g);
  }

  lemma GroupsResolved(rule: Rule, t: TicketType, d: Directory, o: Outcome)
    requires o == ResolvedBy(rule, t, d)
    ensures o.rule == Some(rule) && o.approvalEnabled == rule.approvalEnabled && o.automatic == (rule.executionMode == AUTO_AFTER_APPROVAL)
    ensures o.missingApprovalGroups == EmptyGroups(d, rule.approvalGroups)
    ensures rule.executionMode == AUTO_AFTER_APPROVAL ==> o.missingExecutorGroups == []
    ensures rule.executionMode != AUTO_AFTER_APPROVAL ==> o.missingExecutorGroups == EmptyGroups(d, rule.executorGroups)
  {
  }

  lemma GroupsStay(o: Outcome, submitter: nat, t: TicketType, selfReview: bool, selfExecute: bool)
    ensures var f := WithoutSubmitter(o, submitter, t, selfReview, selfExecute);
            && f.rule == o.rule && f.approvalEnabled == o.approvalEnabled && f.automatic == o.automatic
            && f.missingApprovalGroups == o.missingApprovalGroups && f.missingExecutorGroups == o.missingExecutorGroups
  {
  }

  // ----- the error -----

  /** Approvers are needed and the groups give none, the submitter counted as given. */
  ghost predicate NobodyApproves(rule: Rule, d: Directory, submitter: nat, bypass: bool) {
    rule.approvalEnabled && !SomebodyEligible(d, rule.approvalGroups, d.reviewers, submitter, bypass)
  }

  ghost predicate NobodyExecutes(rule: Rule, t: TicketType, d: Directory, submitter: nat, bypass: bool) {
    && (t == "ddl" || t == "dml" || t == "redis_command") && rule.executionMode != "auto_after_approval"
    && !SomebodyEligible(d, rule.executorGroups, d.executors, submitter, bypass)
  }

  lemma ErrorCases(rules: seq<Rule>, s: Scope, d: Directory, submitter: nat, selfReview: bool, selfExecute: bool, o: Outcome, f: Outcome, rule: Rule)
    requires Select(rules, s) == Some(rule) && o == Resolved(rules, s, d) && f == Final(rules, s, d, submitter, selfReview, selfExecute)
    ensures var early := Lacking(rule.approvalEnabled, rule.executionMode == AUTO_AFTER_APPROVAL, s.ticketType, o.approvers, o.executors);
            && o.error == early
            && o.admins == (if early == NoError then [] else Admins(d))
            && f.admins == o.admins
            && f.error == if early != NoError then early
                          else Lacking(rule.approvalEnabled, rule.executionMode == AUTO_AFTER_APPROVAL, s.ticketType, f.approvers, f.executors)
  {
  }

  lemma NobodyIff(rules: seq<Rule>, s: Scope, d: Directory, submitter: nat, selfReview: bool, selfExecute: bool, o: Outcome, f: Outcome, rule: Rule)
    requires Select(rules, s) == Some(rule) && o == Resolved(rules, s, d) && f == Final(rules, s, d, submitter, selfReview, selfExecute)
    ensures NobodyApproves(rule, d, 0, false) <==> rule.approvalEnabled && o.approvers == []
    ensures NobodyApproves(rule, d, submitter, selfReview) <==> rule.approvalEnabled && f.approvers == []
    ensures NobodyExecutes(rule, s.ticketType, d, 0, false) <==>
            Executable(s.ticketType) && rule.executionMode != AUTO_AFTER_APPROVAL && o.executors == []
    ensures NobodyExecutes(rule, s.ticketType, d, submitter, selfExecute) <==>
            Executable(s.ticketType) && rule.executionMode != AUTO_AFTER_APPROVAL && f.executors == []
  {
    ResolvedParts(rules, s, d, rule);
    FinalParts(o, submitter, s.ticketType, selfReview, selfExecute);
    LeftIffEligible(d, rule.approvalGroups, d.reviewers, 0, false, o.approvers);
    LeftIffEligible(d, rule.approvalGroups, d.reviewers, submitter, selfReview, f.approvers);
    if rule.executionMode != AUTO_AFTER_APPROVAL {
      LeftIffEligible(d, rule.executorGroups, d.executors, 0, false, o.executors);
      LeftIffEligible(d, rule.executorGroups, d.executors, submitter, selfExecute, f.executors);
    }
  }

  /** The error given. Lacking approvers come first; but where executors are lacking even with the
      submitter, that is reported, although leaving out the submitter leaves no approver either. */
  lemma ErrorIs(rules: seq<Rule>, s: Scope, d: Directory, submitter: nat, selfReview: bool, selfExecute: bool)
    ensures var error := Final(rules, s, d, submitter, selfReview, selfExecute).error;
            && (error == NoMatchingRule <==> forall r :: r in rules ==> !Fits(r, s))
            && (Select(rules, s).Some? ==>
                  var rule := Select(rules, s).value;
                  var noApprover := && NobodyApproves(rule, d, submitter, selfReview)
                                    && (NobodyApproves(rule, d, 0, false) || !NobodyExecutes(rule, s.ticketType, d, 0, false));
                  && (error == NoApprovers <==> noApprover)
                  && (error == NoExecutors <==> !noApprover && NobodyExecutes(rule, s.ticketType, d, submitter, selfExecute)))
  {
    SelectedIsMostSpecific(rules, s);
    if Select(rules, s).Some? {
      var o, f, rule := Resolved(rules, s, d), Final(rules, s, d, submitter, selfReview, selfExecute), Select(rules, s).value;
      ErrorCases(rules, s, d, submitter, selfReview, selfExecute, o, f, rule);
      NobodyIff(rules, s, d, submitter, selfReview, selfExecute, o, f, rule);
      EmptyStays(rules, s, d, submitter, selfReview, selfExecute);
    }
  }

  lemma EmptyStays(rules: seq<Rule>, s: Scope, d: Directory, submitter: nat, selfReview: bool, selfExecute: bool)
    ensures var o, f := Resolved(rules, s, d), Final(rules, s, d, submitter, selfReview, selfExecute);
            (o.approvers == [] ==> f.approvers == []) && (o.executors == [] ==> f.executors == [])
  {
    FinalParts(Resolved(rules, s, d), submitter, s.ticketType, selfReview, selfExecute);
  }

  /** Administrators are named exactly if no rule fits, or the people are lacking even with the submitter. */
  lemma AdminsNamedIff(rules: seq<Rule>, s: Scope, d: Directory, submitter: nat, selfReview: bool, selfExecute: bool, id: nat)
    ensures id in Final(rules, s, d, submitter, selfReview, selfExecute).admins <==>
            && "admin" in d.members && Listing(d.members["admin"], true, id)
            && (Select(rules, s).Some? ==>
                  NobodyApproves(Select(rules, s).value, d, 0, false) || NobodyExecutes(Select(rules, s).value, s.ticketType, d, 0, false))
  {
    AdminsAre(d, id);
    if Select(rules, s).Some? {
      var o, f, rule := Resolved(rules, s, d), Final(rules, s, d, submitter, selfReview, selfExecute), Select(rules, s).value;
      ErrorCases(rules, s, d, submitter, selfReview, selfExecute, o, f, rule);
      NobodyIff(rules, s, d, submitter, selfReview, selfExecute, o, f, rule);
    }
  }
}
