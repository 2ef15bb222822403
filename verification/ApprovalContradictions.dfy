/**
 For which policies votes can contradict each other: a unanimous policy whose quorum is less
 than its list has a run in which an approval and a rejection are both put to commit by vote.
 */
module ApprovalContradictions {
  import opened Options
  import opened ApprovalVotes
  import opened ApprovalTables
  import opened ApprovalRuns

  /** A vote cast without authentication, under the ID given. */
  function Ballot(c: Case, user: string, decision: Decision): Call {
    Call(Snapshot(c.request, c.execution, ManualApprovalRequired), QueryContext(None), c.taskType, c.task,
         ByVote(Some(c.policy), user, decision, "no", 0))
  }

  /** The case can be voted on: nothing in it is empty, and nobody on its list has a reserved ID. */
  ghost predicate Votable(c: Case) {
    && c.task != "" && c.taskType != "" && c.request != "" && PooledPolicy(c.policy)
    && "" !in c.policy.allowedUsers && SYNTHETIC_VOTER !in c.policy.allowedUsers
  }

  /** Only votes of listed users on the case begin in the steps. */
  ghost predicate Ballots(steps: seq<Step>, c: Case) {
    forall step :: step in steps && step.Begin? ==>
      exists user, d :: user in c.policy.allowedUsers && step.call == Ballot(c, user, d)
  }

  lemma BallotSavable(db: Db, c: Case, user: string, d: Decision)
    requires Votable(c) && user in c.policy.allowedUsers && !d.OtherDecision? && !HasVoted(db.votes, c.task, user)
    ensures Savable(db, Ballot(c, user, d))
  {
    assert "no"[0] == 'n';
  }

  /** The system after one more vote, saved and evaluated; it may be about to decide. */
  ghost function AfterBallot(s: System, c: Case, id: nat, user: string, d: Decision): System {
    var call := Ballot(c, user, d);
    var votes := s.db.votes + [VoteRow(call)];
    System(s.db.(votes := votes), s.calls[id := Activity(call,
      Decide(call, Count(votes, c.task, Approved), Count(votes, c.task, Rejected), GetVotes(votes, c.task)))])
  }

  lemma Casts(s: System, steps: seq<Step>, c: Case, id: nat, user: string, d: Decision) returns (steps': seq<Step>)
    requires Votable(c) && user in c.policy.allowedUsers && !d.OtherDecision? && Ballots(steps, c)
    requires id !in Exec(s, steps).calls && !HasVoted(Exec(s, steps).db.votes, c.task, user)
    ensures Ballots(steps', c) && Exec(s, steps') == AfterBallot(Exec(s, steps), c, id, user, d)
  {
    var mid, call := Exec(s, steps), Ballot(c, user, d);
    BallotSavable(mid.db, c, user, d);
    var more := SavesVote(mid, id, call);
    ExecConcat(s, steps, more);
    steps' := EvaluatesVotes(s, steps + more, id);
    BallotsGrow(steps, more, steps', c, user, d);
    EvaluatedIsAfter(mid, Exec(s, steps + more), Exec(s, steps'), c, id, user, d);
  }

  lemma BallotsGrow(steps: seq<Step>, more: seq<Step>, steps': seq<Step>, c: Case, user: string, d: Decision)
    requires Ballots(steps, c) && user in c.policy.allowedUsers && Only(more, Ballot(c, user, d))
    requires forall step :: step in steps' ==> step in steps + more || step.Proceed?
    ensures Ballots(steps', c)
  {
  }

  lemma EvaluatedIsAfter(mid: System, saved: System, end: System, c: Case, id: nat, user: string, d: Decision)
    requires
      var call := Ballot(c, user, d);
      && saved == System(mid.db.(votes := mid.db.votes + [VoteRow(call)]), mid.calls[id := Activity(call, Counting)])
      && end == System(saved.db, saved.calls[id := Activity(call,
           Decide(call, Count(saved.db.votes, c.task, Approved), Count(saved.db.votes, c.task, Rejected),
                  GetVotes(saved.db.votes, c.task)))])
    ensures end == AfterBallot(mid, c, id, user, d)
  {
    assert end.calls == mid.calls[id := end.calls[id]];
  }

  /** Where some listed users have approved and nothing has been decided. */
  ghost predicate Approving(s: System, c: Case, voters: seq<string>, n: nat) {
    && Count(s.db.votes, c.task, Approved) == n && Count(s.db.votes, c.task, Rejected) == 0
    && Voters(s.db.votes, c.task) == Members(voters) && (forall id :: id in s.calls ==> id < n)
  }

  lemma UnvotedIsFree(votes: seq<Vote>, task: string, user: string)
    requires user !in Voters(votes, task)
    ensures !HasVoted(votes, task, user)
  {
    forall i | 0 <= i < |votes| && votes[i].task == task
      ensures votes[i].voter != user
    {
      assert votes[i] in votes;
    }
  }

  lemma MembersSnoc(users: seq<string>, user: string)
    ensures Members(users + [user]) == Members(users) + {user}
  {
  }

  /** One more approval: it decides nothing below the quorum, and is about to approve at it. */
  lemma OneMoreApproval(s: System, c: Case, voters: seq<string>, user: string)
    requires Approving(s, c, voters, |voters|)
    ensures
      var s' := AfterBallot(s, c, |voters|, user, Approved);
      && Approving(s', c, voters + [user], |voters| + 1)
      && (|voters| + 1 == c.policy.minApprovals ==> AboutTo(s', c, |voters|, Approve))
  {
    var row := VoteRow(Ballot(c, user, Approved));
    CountSnoc(s.db.votes, row, c.task, Approved);
    CountSnoc(s.db.votes, row, c.task, Rejected);
    VotersSnoc(s.db.votes, row, c.task);
    MembersSnoc(voters, user);
  }

  /** One rejection is about to reject, under a unanimous policy. */
  lemma OneRejection(s: System, c: Case, voters: seq<string>, user: string, id: nat)
    requires Approving(s, c, voters, |voters|) && AboutTo(s, c, id, Approve) && c.policy.requireUnanimous
    ensures
      var s' := AfterBallot(s, c, |voters|, user, Rejected);
      AboutTo(s', c, id, Approve) && AboutTo(s', c, |voters|, Reject)
  {
    var row := VoteRow(Ballot(c, user, Rejected));
    CountSnoc(s.db.votes, row, c.task, Approved);
    CountSnoc(s.db.votes, row, c.task, Rejected);
  }

  /** A call on the case that is about to commit the verdict. */
  ghost predicate AboutTo(s: System, c: Case, id: nat, v: Verdict) {
    && id in s.calls && s.calls[id].pc.Deciding? && s.calls[id].pc.verdict == v
    && s.calls[id].call.origin.ByVote? && s.calls[id].call.task == c.task
  }

  lemma LastIsNew(voters: seq<string>)
    requires Distinct(voters) && voters != []
    ensures
      var init, last := voters[..|voters| - 1], voters[|voters| - 1];
      && voters == init + [last] && last !in init && last in voters && Distinct(init)
      && forall user :: user in init ==> user in voters
  {
  }

  lemma {:induction false} Approves(s: System, c: Case, voters: seq<string>) returns (steps: seq<Step>)
    requires Votable(c) && s.calls == map[] && s.db.votes == []
    requires Distinct(voters) && (forall user :: user in voters ==> user in c.policy.allowedUsers)
    ensures Ballots(steps, c) && Approving(Exec(s, steps), c, voters, |voters|)
    ensures |voters| == c.policy.minApprovals && voters != [] ==> AboutTo(Exec(s, steps), c, |voters| - 1, Approve)
  {
    steps := [];
    if voters != [] {
      var init, last := voters[..|voters| - 1], voters[|voters| - 1];
      LastIsNew(voters);
      steps := Approves(s, c, init);
      var mid := Exec(s, steps);
      UnvotedIsFree(mid.db.votes, c.task, last);
      steps := Casts(s, steps, c, |init|, last, Approved);
      OneMoreApproval(mid, c, init, last);
    }
  }

  /** Some members of a set, in some order. */
  lemma {:induction false} Enumerate(m: set<string>, n: nat) returns (q: seq<string>)
    requires n <= |m|
    ensures |q| == n && Distinct(q) && forall x :: x in q ==> x in m
  {
    if n == 0 {
      q := [];
    } else {
      var x :| x in m;
      var rest := Enumerate(m - {x}, n - 1);
      q := rest + [x];
      forall i, j | 0 <= i < j < |q|
        ensures q[i] != q[j]
      {
        assert rest[i] in rest;
      }
    }
  }

  /** Both commit, one after the other. */
  lemma CommitsBoth(s: System, steps: seq<Step>, c: Case, first: nat, second: nat) returns (steps': seq<Step>)
    requires first != second && AboutTo(Exec(s, steps), c, first, Approve) && AboutTo(Exec(s, steps), c, second, Reject)
    ensures Ballots(steps, c) ==> Ballots(steps', c)
    ensures IssuedByVote(s, steps', c, Approve) && IssuedByVote(s, steps', c, Reject)
  {
    var one := Extend(s, steps, Proceed(first, true));
    steps' := Extend(s, one, Proceed(second, true));
    assert steps'[..|steps|] == steps && steps'[..|one|] == one;
    assert CommitsByVote(Exec(s, steps'[..|steps|]), steps'[|steps|], c, Approve);
    assert CommitsByVote(Exec(s, steps'[..|one|]), steps'[|one|], c, Reject);
  }

  /**
   For every unanimous policy with a user list and no roles whose quorum is at least one and less
   than the number of users: from an empty vote table, a run of votes of listed users in which an
   approval and a rejection are both put to commit. No other valid policy of this kind has such a
   run, by `VotesNeverContradict`.
   */
  lemma VotesContradict(s: System, c: Case) returns (steps: seq<Step>)
    requires Votable(c) && s.calls == map[] && s.db.votes == []
    requires c.policy.requireUnanimous && 1 <= c.policy.minApprovals < |Members(c.policy.allowedUsers)|
    ensures VouchedVotes(steps, c)
    ensures IssuedByVote(s, steps, c, Approve) && IssuedByVote(s, steps, c, Reject)
  {
    var n := c.policy.minApprovals;
    var q := Enumerate(Members(c.policy.allowedUsers), n + 1);
    var voters, last := q[..n], q[n];
    assert last in q && last !in voters && forall user :: user in voters ==> user in q;
    steps := Approves(s, c, voters);
    var mid := Exec(s, steps);
    UnvotedIsFree(mid.db.votes, c.task, last);
    steps := Casts(s, steps, c, n, last, Rejected);
    OneRejection(mid, c, voters, last, n - 1);
    steps := CommitsBoth(s, steps, c, n - 1, n);
    BallotsVouch(steps, c);
  }

  lemma BallotsVouch(steps: seq<Step>, c: Case)
    requires Votable(c) && Ballots(steps, c)
    ensures VouchedVotes(steps, c)
  {
  }
}
