/**
 The approval service over its repository, statement by statement. Each method is tied to
 the functions that ApprovalTables, ApprovalRuns and ApprovalSerial reason about.
 */
module ApprovalService {
  import opened Options
  import opened Strings
  import opened ApprovalVotes
  import opened ApprovalTables
  import opened ApprovalSerial
  import opened Ordering

  /** The result of GROUP BY decision: one row per decision that occurs. */
  function GroupByDecision(votes: seq<Vote>, task: string): seq<(Decision, nat)> {
    var a, r := Count(votes, task, Approved), Count(votes, task, Rejected);
    (if a > 0 then [(Approved, a)] else []) + (if r > 0 then [(Rejected, r)] else [])
  }

  class Service {
    var db: Db

    constructor (db: Db)
      ensures this.db == db
    {
      this.db := db;
    }

    /******* Repository *******/

    method CountRows(task: string, voter: string) returns (count: nat)
      ensures count > 0 <==> HasVoted(db.votes, task, voter)
    {
      count := 0;
      for i := 0 to |db.votes|
        invariant count > 0 <==> exists j :: 0 <= j < i && db.votes[j].task == task && db.votes[j].voter == voter
      {
        if db.votes[i].task == task && db.votes[i].voter == voter {
          count := count + 1;
        }
      }
    }

    /** Inserts the vote unless its voter has one, and returns the stored row; None if it is malformed. */
    method SaveVote(vote: Vote) returns (stored: Option<Vote>)
      modifies this
      ensures
        var malformed := vote.task == "" || vote.request == "" || vote.voter == "" || vote.decision.OtherDecision?;
        if malformed then db == old(db) && stored.None?
        else
          && db == old(db).(votes := InsertVote(old(db).votes, vote))
          && stored.Some? && stored.value in db.votes
          && stored.value.task == vote.task && stored.value.voter == vote.voter
          && (!HasVoted(old(db).votes, vote.task, vote.voter) ==> stored.value == vote)
    {
      if vote.task == "" || vote.request == "" || vote.voter == "" || vote.decision.OtherDecision? {
        return None;
      }
      var count := CountRows(vote.task, vote.voter);
      if count == 0 {
        db := db.(votes := db.votes + [vote]);
        assert db.votes[|db.votes| - 1] == vote;
      }
      var i := 0;
      while db.votes[i].task != vote.task || db.votes[i].voter != vote.voter
        invariant 0 <= i < |db.votes|
        invariant exists j :: i <= j < |db.votes| && db.votes[j].task == vote.task && db.votes[j].voter == vote.voter
        decreases |db.votes| - i
      {
        i := i + 1;
      }
      stored := Some(db.votes[i]);
    }

    method CountVotes(task: string) returns (approvals: nat, rejections: nat)
      ensures approvals == Count(db.votes, task, Approved)
      ensures rejections == Count(db.votes, task, Rejected)
    {
      var rows := GroupByDecision(db.votes, task);
      approvals, rejections := 0, 0;
      for i := 0 to |rows|
        invariant approvals == if exists j :: 0 <= j < i && rows[j].0 == Approved then Count(db.votes, task, Approved) else 0
        invariant rejections == if exists j :: 0 <= j < i && rows[j].0 == Rejected then Count(db.votes, task, Rejected) else 0
      {
        if rows[i].0 == Approved {
          approvals := rows[i].1;
        } else if rows[i].0 == Rejected {
          rejections := rows[i].1;
        }
      }
      var a, r := Count(db.votes, task, Approved), Count(db.votes, task, Rejected);
      assert a > 0 ==> rows[0].0 == Approved;
      assert r > 0 ==> rows[|rows| - 1].0 == Rejected;
    }

    /** Rows under the ID get the flag and drop out of the open ones; every other row stays in its place. */
    method MarkDeadlineResolved(id: string)
      modifies this
      ensures db == old(db).(deadlines := db.deadlines) && |db.deadlines| == |old(db).deadlines|
      ensures forall i :: 0 <= i < |db.deadlines| ==>
        var row := old(db).deadlines[i];
        db.deadlines[i] == if row.id == id then row.(resolved := true) else row
      ensures ClosesExactly(old(db).deadlines, db.deadlines, id)
    {
      db := db.(deadlines := MarkResolved(db.deadlines, id));
      MarkedClosesExactly(old(db).deadlines, db.deadlines, id);
    }

    /** Rows under the ID get the flag and drop out of the open ones; every other row stays in its place. */
    method MarkDeadlineEscalated(id: string)
      modifies this
      ensures db == old(db).(deadlines := db.deadlines) && |db.deadlines| == |old(db).deadlines|
      ensures forall i :: 0 <= i < |db.deadlines| ==>
        var row := old(db).deadlines[i];
        db.deadlines[i] == if row.id == id then row.(escalated := true) else row
      ensures ClosesExactly(old(db).deadlines, db.deadlines, id)
    {
      db := db.(deadlines := MarkEscalated(db.deadlines, id));
      MarkedClosesExactly(old(db).deadlines, db.deadlines, id);
    }

    /******* Service *******/

    /** Counts listed votes one by one: an approval, or else a rejection. */
    static method CountListed(votes: seq<Vote>, task: string) returns (approvals: nat, rejections: nat)
      requires forall v :: v in votes ==> v.task == task
      ensures approvals == Count(votes, task, Approved) && approvals + rejections == |votes|
    {
      approvals, rejections := 0, 0;
      for i := 0 to |votes|
        invariant approvals == Count(votes[..i], task, Approved) && approvals + rejections == i
      {
        assert votes[..i + 1] == votes[..i] + [votes[i]];
        CountSnoc(votes[..i], votes[i], task, Approved);
        assert votes[i] in votes;
        if votes[i].decision == Approved {
          approvals := approvals + 1;
        } else {
          rejections := rejections + 1;
        }
      }
      assert votes[..|votes|] == votes;
    }

    method GetStatus(task: string, policy: Option<Policy>) returns (status: Status)
      ensures status == StatusOf(db.votes, task, policy)
      ensures WellDecided(db.votes) ==>
        && status.approvals == Count(db.votes, task, Approved)
        && status.rejections == Count(db.votes, task, Rejected)
    {
      var votes := GetVotes(db.votes, task);
      GetVotesOnTask(db.votes, task);
      var approvals, rejections := CountListed(votes, task);
      var minRequired := 1;
      if policy.Some? {
        minRequired := policy.value.minApprovals;
      }
      status := Status(approvals, rejections, minRequired, approvals >= minRequired,
                       IsRejected(approvals, rejections, policy), votes);
      if WellDecided(db.votes) {
        StatusCounts(db.votes, task, policy);
      }
    }

    /** The second half of CastVote: count, list, and finalise when the counts decide. */
    method Evaluate(call: Call) returns (reply: Reply)
      requires call.origin.ByVote?
      modifies this
      ensures
        var votes := old(db).votes;
        var pc := Decide(call, Count(votes, call.task, Approved), Count(votes, call.task, Rejected), GetVotes(votes, call.task));
        (db, reply) ==
          if pc.Deciding? then (Finalize(old(db), call, pc.verdict, true), Voted(pc.status)) else (old(db), pc.reply)
    {
      var approvals, rejections := CountVotes(call.task);
      var allVotes := GetVotes(db.votes, call.task);
      var minRequired := 1;
      if call.origin.policy.Some? {
        minRequired := call.origin.policy.value.minApprovals;
      }
      var status := Status(approvals, rejections, minRequired, false, false, allVotes);
      if IsRejected(approvals, rejections, call.origin.policy) {
        status := status.(rejected := true);
        db := Finalize(db, call, Reject, true);
      } else if approvals >= minRequired {
        status := status.(quorumReached := true);
        db := Finalize(db, call, Approve, true);
      }
      reply := Voted(status);
    }

    /** Each statement in turn; together they are the call served alone. */
    method CastVote(request: Option<Snapshot>, qc: QueryContext, taskType: string, task: string,
                    policy: Option<Policy>, voter: string, decision: Decision, comments: string, now: int)
      returns (reply: Reply)
      modifies this
      ensures request.None? ==> db == old(db) && reply == Refused(Invalid)
      ensures request.Some? ==>
        (db, reply) == Serve(old(db), Call(request.value, qc, taskType, task, ByVote(policy, voter, decision, comments, now)))
    {
      if request.None? {
        return Refused(Invalid);
      }
      var call := Call(request.value, qc, taskType, task, ByVote(policy, voter, decision, comments, now));
      var refusal := Screen(call);
      if refusal.Some? {
        ServeNoVote(db, call);
        return Refused(refusal.value);
      }
      var prior := CountRows(task, voter);
      if prior > 0 {
        ServeNoVote(db, call);
        var status := GetStatus(task, policy);
        return Voted(status);
      }
      BlankTrimsToNothing(comments);
      if decision == Rejected && TrimSpace(comments) == "" {
        ServeNoVote(db, call);
        return Refused(Invalid);
      }
      ghost var before := db;
      var stored := SaveVote(VoteRow(call));
      if stored.None? {
        ServeNoVote(before, call);
        return Refused(Invalid);
      }
      ServeVote(before, call);
      reply := Evaluate(call);
    }

    method HandleSLABreach(qc: QueryContext, deadline: Deadline, request: Snapshot, taskType: string)
      returns (reply: Reply)
      modifies this
      ensures (db, reply) ==
        Serve(old(db), Call(request, qc, taskType, deadline.task, BySla(deadline.id, deadline.action)))
    {
      var call := Call(request, qc, taskType, deadline.task, BySla(deadline.id, deadline.action));
      ServeSla(db, call);
      match deadline.action {
        case AutoApprove =>
          db := Finalize(db, call, Approve, true);
          ghost var rows := MarkResolved(db.deadlines, deadline.id);
          MarkDeadlineResolved(deadline.id);
          assert db.deadlines == rows;
        case AutoReject =>
          db := Finalize(db, call, Reject, true);
          ghost var rows := MarkResolved(db.deadlines, deadline.id);
          MarkDeadlineResolved(deadline.id);
          assert db.deadlines == rows;
        case _ =>
          ghost var rows := MarkEscalated(db.deadlines, deadline.id);
          MarkDeadlineEscalated(deadline.id);
          assert db.deadlines == rows;
      }
      reply := Handled;
    }

    /** A deadline row only for a policy with an SLA; its action defaults to escalation. */
    method CreateDeadlineIfNeeded(id: string, task: string, request: string, policy: Option<Policy>, now: int)
      modifies this
      ensures policy.None? || policy.value.slaDeadline <= 0 ==> db == old(db)
      ensures policy.Some? && policy.value.slaDeadline > 0 ==>
        && db == old(db).(deadlines := db.deadlines)
        && (forall d :: d in old(db).deadlines ==> d in db.deadlines)
        && ((forall d :: d in old(db).deadlines ==> d.id != id) ==>
              var row := Deadline(id, task, request, now + policy.value.slaDeadline,
                                  policy.value.EffectiveTimeoutAction(), false, false);
              && db.deadlines == old(db).deadlines + [row] && row.action != NoTimeoutAction
              && !Open(row, now)
              && (forall later :: later > row.at <==> Open(row, later)))
    {
      if policy.None? || policy.value.slaDeadline <= 0 {
        return;
      }
      var row := Deadline(id, task, request, now + policy.value.slaDeadline,
                          policy.value.EffectiveTimeoutAction(), false, false);
      db := db.(deadlines := InsertDeadline(db.deadlines, row));
    }
  }

  lemma {:induction false} VotesOfOnTask(votes: seq<Vote>, task: string)
    ensures forall v :: v in VotesOf(votes, task) ==> v.task == task
  {
    if votes != [] {
      VotesOfOnTask(votes[..|votes| - 1], task);
    }
  }

  lemma GetVotesOnTask(votes: seq<Vote>, task: string)
    ensures forall v :: v in GetVotes(votes, task) ==> v.task == task
  {
    VotesOfOnTask(votes, task);
    OrderByCorrect(VotesOf(votes, task), CastTime);
    forall v | v in GetVotes(votes, task)
      ensures v.task == task
    {
      assert v in multiset(GetVotes(votes, task));
    }
  }
}
