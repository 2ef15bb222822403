/**
 Approval policies, the vote table, and the rejection rule.

 The vote table is the sequence of rows in insertion order; the table's unique key is
 (task execution, voter). The main result is what the rejection rule of a policy with a
 list of allowed users decides: whether the voters who are left can still bring the
 approvals to the quorum.
 */
module ApprovalVotes {
  import opened Options

  datatype Decision = Approved | Rejected | OtherDecision(text: string)

  datatype Vote = Vote(
    task: string, request: string, voter: string,
    decision: Decision, comments: string, votedAt: int)

  datatype TimeoutAction = AutoApprove | AutoReject | Escalate | NoTimeoutAction

  /** The comma lists of roles and users are kept as the lists they are split into. */
  datatype Policy = Policy(
    minApprovals: int, allowedRoles: seq<string>, allowedUsers: seq<string>,
    requireUnanimous: bool, slaDeadline: int, timeoutAction: TimeoutAction)
  {
    function EffectiveTimeoutAction(): TimeoutAction {
      if timeoutAction == NoTimeoutAction then Escalate else timeoutAction
    }
  }

  /******* The rejection rule and the quorum *******/

  predicate IsRejected(approvals: int, rejections: int, policy: Option<Policy>) {
    if rejections == 0 then false
    else if policy.None? then true
    else if policy.value.requireUnanimous then true
    else
      var totalAllowed := |policy.value.allowedUsers|;
      if totalAllowed == 0 then true
      else
        var left := totalAllowed - approvals - rejections;
        var remainingVoters := if left < 0 then 0 else left;
        approvals + remainingVoters < policy.value.minApprovals
  }

  function MinRequired(policy: Option<Policy>): int {
    if policy.Some? then policy.value.minApprovals else 1
  }

  predicate QuorumReached(approvals: int, policy: Option<Policy>) {
    approvals >= MinRequired(policy)
  }

  /** The counts force a decision one way or the other. */
  predicate Decisive(approvals: int, rejections: int, policy: Option<Policy>) {
    IsRejected(approvals, rejections, policy) || QuorumReached(approvals, policy)
  }

  /** More votes never take a decision back, although a rejection may turn into a quorum. */
  lemma DecisiveStays(a: nat, r: nat, a': nat, r': nat, policy: Option<Policy>)
    requires a <= a' && r <= r' && Decisive(a, r, policy)
    ensures Decisive(a', r', policy)
  {
  }

  /** Quorum and rejection can hold together only where one rejection is enough to fail. */
  lemma BothExactly(a: nat, r: nat, policy: Policy)
    ensures IsRejected(a, r, Some(policy)) && QuorumReached(a, Some(policy)) <==>
            && r > 0 && a >= policy.minApprovals
            && (policy.requireUnanimous || policy.allowedUsers == [])
  {
  }

  /******* The vote table *******/

  function Count(votes: seq<Vote>, task: string, d: Decision): nat {
    if votes == [] then 0
    else
      var last := votes[|votes| - 1];
      Count(votes[..|votes| - 1], task, d) +
      (if last.task == task && last.decision == d then 1 else 0)
  }

  function Voters(votes: seq<Vote>, task: string): set<string> {
    set v | v in votes && v.task == task :: v.voter
  }

  /** The unique index on (task execution, voter). */
  ghost predicate Unique(votes: seq<Vote>) {
    forall i, j :: 0 <= i < j < |votes| && votes[i].task == votes[j].task ==>
      votes[i].voter != votes[j].voter
  }

  ghost predicate WellDecided(votes: seq<Vote>) {
    forall v :: v in votes ==> v.decision in {Approved, Rejected}
  }

  lemma {:induction false} CountConcat(votes: seq<Vote>, ext: seq<Vote>, task: string, d: Decision)
    ensures Count(votes + ext, task, d) == Count(votes, task, d) + Count(ext, task, d)
  {
    if ext == [] {
      assert votes + ext == votes;
    } else {
      var all := votes + ext;
      assert all[..|all| - 1] == votes + ext[..|ext| - 1];
      CountConcat(votes, ext[..|ext| - 1], task, d);
    }
  }

  lemma VotersSnoc(votes: seq<Vote>, v: Vote, task: string)
    ensures Voters(votes + [v], task) ==
            Voters(votes, task) + (if v.task == task then {v.voter} else {})
  {
    var all := votes + [v];
    forall x | x in Voters(votes, task)
      ensures x in Voters(all, task)
    {
      var w :| w in votes && w.task == task && w.voter == x;
      assert w in all;
    }
    assert v in all;
  }

  /** One vote per voter: the two counts add up to the number of voters. */
  lemma {:induction false} CountsAreVoters(votes: seq<Vote>, task: string)
    requires Unique(votes) && WellDecided(votes)
    ensures Count(votes, task, Approved) + Count(votes, task, Rejected) == |Voters(votes, task)|
  {
    if votes != [] {
      var init, last := votes[..|votes| - 1], votes[|votes| - 1];
      assert votes == init + [last];
      assert Unique(init) && WellDecided(init);
      CountsAreVoters(init, task);
      VotersSnoc(init, last, task);
      assert last in votes;
      assert last.task == task ==> last.voter !in Voters(init, task);
    }
  }

  /******* Rejection is exactly the impossibility of a quorum *******/

  function Members(users: seq<string>): set<string> { set u | u in users }

  /** Every vote on the task so far is by a listed user. */
  ghost predicate Pooled(votes: seq<Vote>, task: string, users: seq<string>) {
    Voters(votes, task) <= Members(users)
  }

  /** `ext` is a list of further votes by listed users who have not voted, each once. */
  ghost predicate Extends(votes: seq<Vote>, task: string, users: seq<string>, ext: seq<Vote>) {
    && Unique(votes + ext) && WellDecided(ext)
    && forall v :: v in ext ==> v.task == task && v.voter in users
  }

  ghost predicate CanStillPass(votes: seq<Vote>, task: string, users: seq<string>, min: int) {
    exists ext :: Extends(votes, task, users, ext) && Count(votes + ext, task, Approved) >= min
  }

  lemma SubsetSize<T>(a: set<T>, b: set<T>)
    requires a <= b
    ensures |a| <= |b|
  {
    assert b == a + (b - a);
  }

  lemma {:induction false} ExtendedPool(votes: seq<Vote>, task: string, users: seq<string>, ext: seq<Vote>)
    requires Pooled(votes, task, users) && Extends(votes, task, users, ext)
    ensures Pooled(votes + ext, task, users)
  {
    forall x | x in Voters(votes + ext, task)
      ensures x in users
    {
      var v :| v in votes + ext && v.task == task && v.voter == x;
      if v in votes {
        assert x in Voters(votes, task);
      }
    }
  }

  /** No continuation brings more approvals than listed users who have not rejected. */
  lemma PassBound(votes: seq<Vote>, task: string, users: seq<string>, ext: seq<Vote>)
    requires Unique(votes) && WellDecided(votes) && Pooled(votes, task, users)
    requires Extends(votes, task, users, ext)
    ensures Count(votes + ext, task, Approved) + Count(votes, task, Rejected) <= |Members(users)|
  {
    ExtendedPool(votes, task, users, ext);
    CountsAreVoters(votes + ext, task);
    SubsetSize(Voters(votes + ext, task), Members(users));
    CountConcat(votes, ext, task, Rejected);
  }

  function Approval(task: string, user: string): Vote { Vote(task, "", user, Approved, "", 0) }

  /** Everyone on the list who has not voted approves, in list order. */
  function ApproveRest(votes: seq<Vote>, task: string, users: seq<string>): seq<Vote> {
    if users == [] then []
    else
      var ext, last := ApproveRest(votes, task, users[..|users| - 1]), users[|users| - 1];
      if last in Voters(votes + ext, task) then ext else ext + [Approval(task, last)]
  }

  lemma UniqueSnoc(votes: seq<Vote>, v: Vote)
    requires Unique(votes) && v.voter !in Voters(votes, v.task)
    ensures Unique(votes + [v])
  {
    assert forall i :: 0 <= i < |votes| && votes[i].task == v.task ==> votes[i].voter in Voters(votes, v.task);
  }

  lemma {:induction false} ApproveRestVotes(votes: seq<Vote>, task: string, users: seq<string>)
    ensures forall v :: v in ApproveRest(votes, task, users) ==> v == Approval(task, v.voter) && v.voter in users
    ensures Count(ApproveRest(votes, task, users), task, Rejected) == 0
  {
    if users != [] {
      var init, last := users[..|users| - 1], users[|users| - 1];
      var ext := ApproveRest(votes, task, init);
      ApproveRestVotes(votes, task, init);
      forall v | v in ApproveRest(votes, task, users)
        ensures v == Approval(task, v.voter) && v.voter in users
      {
        if v in ext {
          assert v.voter in init;
        } else {
          assert v == Approval(task, last);
        }
      }
      if last !in Voters(votes + ext, task) {
        assert (ext + [Approval(task, last)])[..|ext|] == ext;
      }
    }
  }

  lemma {:induction false} ApproveRestVoters(votes: seq<Vote>, task: string, users: seq<string>)
    requires Unique(votes)
    ensures Unique(votes + ApproveRest(votes, task, users))
    ensures Voters(votes + ApproveRest(votes, task, users), task) == Voters(votes, task) + Members(users)
  {
    if users == [] {
      assert votes + [] == votes;
    } else {
      var init, last := users[..|users| - 1], users[|users| - 1];
      var ext, v := ApproveRest(votes, task, init), Approval(task, last);
      ApproveRestVoters(votes, task, init);
      assert Members(users) == Members(init) + {last} by {
        assert users == init + [last];
      }
      if last !in Voters(votes + ext, task) {
        UniqueSnoc(votes + ext, v);
        VotersSnoc(votes + ext, v, task);
        assert votes + (ext + [v]) == votes + ext + [v];
      }
    }
  }

  lemma ApproveRestFills(votes: seq<Vote>, task: string, users: seq<string>)
    requires Unique(votes) && WellDecided(votes)
    ensures Extends(votes, task, users, ApproveRest(votes, task, users))
    ensures Voters(votes + ApproveRest(votes, task, users), task) == Voters(votes, task) + Members(users)
    ensures Count(ApproveRest(votes, task, users), task, Rejected) == 0
  {
    ApproveRestVotes(votes, task, users);
    ApproveRestVoters(votes, task, users);
  }

  /** The quorum is within reach exactly when enough listed users have not rejected. */
  lemma PassesExactly(votes: seq<Vote>, task: string, users: seq<string>, min: int)
    requires Unique(votes) && WellDecided(votes) && Pooled(votes, task, users)
    ensures CanStillPass(votes, task, users, min) <==>
            |Members(users)| - Count(votes, task, Rejected) >= min
  {
    var n := |Members(users)|;
    var ext := ApproveRest(votes, task, users);
    ApproveRestFills(votes, task, users);
    assert Voters(votes + ext, task) == Members(users);
    CountsAreVoters(votes + ext, task);
    CountConcat(votes, ext, task, Rejected);
    if CanStillPass(votes, task, users, min) {
      var e :| Extends(votes, task, users, e) && Count(votes + e, task, Approved) >= min;
      PassBound(votes, task, users, e);
    }
  }

  /**
   The rejection rule says "reject only when quorum is mathematically impossible". Once
   there is a rejection it says exactly that, unless the list names a user twice and the
   quorum falls in the gap between the number of users and the number of list entries.
   */
  lemma RejectionExact(votes: seq<Vote>, task: string, policy: Policy)
    requires Unique(votes) && WellDecided(votes)
    requires !policy.requireUnanimous && policy.allowedUsers != []
    requires Pooled(votes, task, policy.allowedUsers)
    requires Count(votes, task, Rejected) > 0
    ensures
      var users := policy.allowedUsers;
      var a, r := Count(votes, task, Approved), Count(votes, task, Rejected);
      (IsRejected(a, r, Some(policy)) <==> !CanStillPass(votes, task, users, policy.minApprovals))
      <==> !(|Members(users)| - r < policy.minApprovals <= |users| - r)
  {
    var users := policy.allowedUsers;
    PassesExactly(votes, task, users, policy.minApprovals);
    CountsAreVoters(votes, task);
    SubsetSize(Voters(votes, task), Members(users));
    ListSize(users);
  }

  ghost predicate Distinct(users: seq<string>) {
    forall i, j :: 0 <= i < j < |users| ==> users[i] != users[j]
  }

  lemma {:induction false} ListSize(users: seq<string>)
    ensures |Members(users)| <= |users|
    ensures Distinct(users) ==> |Members(users)| == |users|
  {
    if users != [] {
      var init, last := users[..|users| - 1], users[|users| - 1];
      ListSize(init);
      assert users == init + [last];
      assert Members(users) == Members(init) + {last};
    }
  }

  /** With distinct list entries the rule is exact. */
  lemma RejectionExactDistinct(votes: seq<Vote>, task: string, policy: Policy)
    requires Unique(votes) && WellDecided(votes)
    requires !policy.requireUnanimous && policy.allowedUsers != []
    requires Distinct(policy.allowedUsers)
    requires Pooled(votes, task, policy.allowedUsers)
    requires Count(votes, task, Rejected) > 0
    ensures IsRejected(Count(votes, task, Approved), Count(votes, task, Rejected), Some(policy)) <==>
            !CanStillPass(votes, task, policy.allowedUsers, policy.minApprovals)
  {
    RejectionExact(votes, task, policy);
    ListSize(policy.allowedUsers);
  }

  /** The gap is real: a list that names its only user twice stays open for one approval after that user has rejected. */
  lemma DuplicateEntryKeepsHopelessVoteOpen(policy: Policy, vote: Vote)
    requires !policy.requireUnanimous && policy.minApprovals == 1
    requires policy.allowedUsers == [vote.voter, vote.voter] && vote.decision == Rejected
    ensures !IsRejected(Count([vote], vote.task, Approved), Count([vote], vote.task, Rejected), Some(policy))
    ensures !CanStillPass([vote], vote.task, policy.allowedUsers, 1)
  {
    var votes, users := [vote], policy.allowedUsers;
    assert Members(users) == {vote.voter};
    assert votes[..0] == [] && votes == [] + [vote];
    VotersSnoc([], vote, vote.task);
    PassesExactly(votes, vote.task, users, 1);
  }

  /** A rejection by the rule is never taken back by further votes of listed users. */
  lemma RejectionStays(votes: seq<Vote>, task: string, policy: Policy, ext: seq<Vote>)
    requires Unique(votes) && WellDecided(votes)
    requires policy.allowedUsers != [] && Pooled(votes, task, policy.allowedUsers)
    requires Extends(votes, task, policy.allowedUsers, ext)
    requires IsRejected(Count(votes, task, Approved), Count(votes, task, Rejected), Some(policy))
    ensures IsRejected(Count(votes + ext, task, Approved), Count(votes + ext, task, Rejected), Some(policy))
  {
    var users := policy.allowedUsers;
    CountConcat(votes, ext, task, Rejected);
    ExtendedPool(votes, task, users, ext);
    CountsAreVoters(votes + ext, task);
    SubsetSize(Voters(votes + ext, task), Members(users));
    ListSize(users);
  }

  /** Once every listed user has voted, a quorum that fits the list is decided. */
  lemma EveryoneVotedDecides(votes: seq<Vote>, task: string, policy: Policy)
    requires Unique(votes) && WellDecided(votes)
    requires var users := policy.allowedUsers;
             && Distinct(users) && Voters(votes, task) == Members(users)
             && 1 <= policy.minApprovals <= |users|
    ensures Decisive(Count(votes, task, Approved), Count(votes, task, Rejected), Some(policy))
  {
    var users := policy.allowedUsers;
    CountsAreVoters(votes, task);
    ListSize(users);
  }
}
