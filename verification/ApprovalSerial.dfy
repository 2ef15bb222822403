/**
 Calls of the approval service that do not overlap: each runs all of its statements on a
 job request loaded just before, and nothing else happens meanwhile.
 */
module ApprovalSerial {
  import opened Options
  import opened ApprovalVotes
  import opened ApprovalTables
  import opened ApprovalRuns
  import opened ApprovalProgress

  /** The program counters a call of this origin can have. */
  predicate Fits(call: Call, pc: Pc) {
    match call.origin
    case ByVote(_, _, _, _, _) => !pc.Resolving? && !pc.Escalating?
    case BySla(_, _) => pc.Deciding? || pc.Resolving? || pc.Escalating? || pc.Finished?
  }

  function Rank(pc: Pc): nat {
    match pc
    case Checking => 6
    case Saving => 5
    case Counting => 4
    case Listing(_, _) => 3
    case Deciding(_, _) => 2
    case Reading => 1
    case Resolving => 1
    case Escalating => 1
    case Finished(_) => 0
  }

  lemma AdvanceProgresses(db: Db, call: Call, pc: Pc)
    requires Fits(call, pc) && !pc.Finished?
    ensures var next := Advance(db, call, pc, true); Fits(call, next.1) && Rank(next.1) < Rank(pc)
  {
  }

  /** All remaining statements of a call, with nothing in between. */
  function Complete(db: Db, call: Call, pc: Pc): (Db, Reply)
    requires Fits(call, pc)
    decreases Rank(pc)
  {
    if pc.Finished? then (db, pc.reply)
    else
      AdvanceProgresses(db, call, pc);
      var next := Advance(db, call, pc, true);
      Complete(next.0, call, next.1)
  }

  function Serve(db: Db, call: Call): (Db, Reply) { Complete(db, call, Start(call)) }

  function ServeAll(db: Db, calls: seq<Call>): Db {
    if calls == [] then db else Serve(ServeAll(db, calls[..|calls| - 1]), calls[|calls| - 1]).0
  }

  /** A first vote, in one piece: save it, count, and decide if the counts say so. */
  lemma ServeVote(db: Db, call: Call)
    requires Savable(db, call)
    ensures
      var saved := db.(votes := db.votes + [VoteRow(call)]);
      var a, r := Count(saved.votes, call.task, Approved), Count(saved.votes, call.task, Rejected);
      var pc := Decide(call, a, r, GetVotes(saved.votes, call.task));
      Serve(db, call) ==
        if pc.Deciding? then (Finalize(saved, call, pc.verdict, true), Voted(pc.status)) else (saved, pc.reply)
  {
    var saved := db.(votes := db.votes + [VoteRow(call)]);
    var a, r := Count(saved.votes, call.task, Approved), Count(saved.votes, call.task, Rejected);
    var pc := Decide(call, a, r, GetVotes(saved.votes, call.task));
    assert InsertVote(db.votes, VoteRow(call)) == saved.votes;
    assert Advance(db, call, Checking, true) == (db, Saving);
    assert Advance(db, call, Saving, true) == (saved, Counting);
    assert Advance(saved, call, Counting, true) == (saved, Listing(a, r));
    assert Advance(saved, call, Listing(a, r), true) == (saved, pc);
    calc {
      Serve(db, call);
      Complete(db, call, Saving);
      Complete(saved, call, Counting);
      Complete(saved, call, Listing(a, r));
      Complete(saved, call, pc);
    }
    if pc.Deciding? {
      assert Complete(saved, call, pc) ==
             Complete(Finalize(saved, call, pc.verdict, true), call, Finished(Voted(pc.status)));
    }
  }

  /** Every other vote leaves the tables alone. */
  lemma ServeNoVote(db: Db, call: Call)
    requires call.origin.ByVote?
    requires !Savable(db, call)
    ensures Serve(db, call).0 == db
    ensures Serve(db, call).1 ==
      if Screen(call).Some? then Refused(Screen(call).value)
      else if HasVoted(db.votes, call.task, call.origin.voter)
      then Voted(StatusOf(db.votes, call.task, call.origin.policy))
      else Refused(Invalid)
  {
    if Screen(call).None? {
      var next := Advance(db, call, Checking, true).1;
      assert Serve(db, call) == Complete(db, call, next);
      if next.Saving? {
        assert Complete(db, call, Saving) == Complete(db, call, Advance(db, call, Saving, true).1);
      }
    }
  }

  lemma ServeSla(db: Db, call: Call)
    requires call.origin.BySla?
    ensures
      var id := call.origin.deadline;
      Serve(db, call) ==
        (match call.origin.action
         case AutoApprove => var d := Finalize(db, call, Approve, true);
           (d.(deadlines := MarkResolved(d.deadlines, id)), Handled)
         case AutoReject => var d := Finalize(db, call, Reject, true);
           (d.(deadlines := MarkResolved(d.deadlines, id)), Handled)
         case _ => (db.(deadlines := MarkEscalated(db.deadlines, id)), Handled))
  {
    if call.origin.action == AutoApprove {
      assert Complete(db, call, Start(call)) == Complete(Finalize(db, call, Approve, true), call, Resolving);
    } else if call.origin.action == AutoReject {
      assert Complete(db, call, Start(call)) == Complete(Finalize(db, call, Reject, true), call, Resolving);
    }
  }

  /******* A call served alone is a run of the interleaving machine *******/

  function Repeat(id: nat, n: nat): seq<Step> { seq(n, _ => Proceed(id, true)) }

  lemma {:induction false} CompleteIsRun(s: System, id: nat, n: nat)
    requires id in s.calls && Fits(s.calls[id].call, s.calls[id].pc) && n >= Rank(s.calls[id].pc)
    ensures
      var act := s.calls[id];
      var done := Complete(s.db, act.call, act.pc);
      Exec(s, Repeat(id, n)) == System(done.0, s.calls[id := act.(pc := Finished(done.1))])
    decreases n
  {
    var act := s.calls[id];
    if n == 0 {
      assert s.calls == s.calls[id := act];
    } else {
      var s' := Apply(s, Proceed(id, true));
      assert Repeat(id, n) == [Proceed(id, true)] + Repeat(id, n - 1);
      ExecConcat(s, [Proceed(id, true)], Repeat(id, n - 1));
      assert [Proceed(id, true)][..0] == [];
      assert Exec(s, [Proceed(id, true)]) == s';
      if !act.pc.Finished? {
        AdvanceProgresses(s.db, act.call, act.pc);
      } else {
        assert s.calls == s.calls[id := act];
      }
      CompleteIsRun(s', id, n - 1);
      assert s'.calls[id := s'.calls[id].(pc := Finished(Complete(s'.db, act.call, s'.calls[id].pc).1))] ==
             s.calls[id := act.(pc := Finished(Complete(s'.db, act.call, s'.calls[id].pc).1))];
    }
  }

  /** Serving a call is one of the runs that ApprovalRuns speaks about. */
  lemma ServeIsRun(s: System, id: nat, call: Call)
    requires id !in s.calls
    ensures Exec(s, [Begin(id, call)] + Repeat(id, 6)).db == Serve(s.db, call).0
    ensures Exec(s, [Begin(id, call)] + Repeat(id, 6)).calls ==
            s.calls[id := Activity(call, Finished(Serve(s.db, call).1))]
  {
    var begun := Apply(s, Begin(id, call));
    ExecConcat(s, [Begin(id, call)], Repeat(id, 6));
    assert [Begin(id, call)][..0] == [];
    assert Exec(s, [Begin(id, call)]) == begun;
    CompleteIsRun(begun, id, 6);
    var act := Activity(call, Finished(Serve(s.db, call).1));
    assert begun.calls[id := act] == s.calls[id := act];
  }

  /******* Quorum and rejection never meet *******/

  ghost predicate Both(db: Db, c: Case) {
    var a, r := Count(db.votes, c.task, Approved), Count(db.votes, c.task, Rejected);
    QuorumReached(a, Some(c.policy)) && IsRejected(a, r, Some(c.policy))
  }

  ghost predicate Settled(db: Db, c: Case)
    requires CaseIn(db, c)
  {
    Pair(db, c) == Outcome(Some(Approve)) || Pair(db, c) == Outcome(Some(Reject))
  }

  ghost predicate RequestAwaits(db: Db, c: Case)
    requires CaseIn(db, c)
  {
    RowState(db, c, RequestPart) == ManualApprovalRequired
  }

  /** Between calls an awaiting request has undecided votes, and there are never both verdicts. */
  ghost predicate SerialOk(db: Db, c: Case) {
    TablesOk(db) && CaseIn(db, c) && !Both(db, c) && (RequestAwaits(db, c) ==> !DecisiveTable(db, c))
  }

  /** A vote on the task names its case, and has its policy and the request's state of this moment. Other calls are free. */
  ghost predicate FreshFor(db: Db, call: Call, c: Case)
    requires CaseIn(db, c)
  {
    && Loaded(call, c)
    && (call.origin.ByVote? && call.task == c.task ==>
          call.request.state == db.requests[c.request].state && call.origin.policy == Some(c.policy))
  }

  lemma {:induction false} CompleteKeepsTables(db: Db, call: Call, pc: Pc)
    requires Fits(call, pc) && TablesOk(db) && ActivityOk(db, Activity(call, pc))
    ensures TablesOk(Complete(db, call, pc).0)
    decreases Rank(pc)
  {
    if !pc.Finished? {
      AdvanceProgresses(db, call, pc);
      AdvanceKeepsTables(db, Activity(call, pc), true);
      AdvanceKeepsActivity(db, Activity(call, pc), true);
      var next := Advance(db, call, pc, true);
      CompleteKeepsTables(next.0, call, next.1);
    }
  }

  /** Whatever a call names, it never makes the request await again; a coherent one keeps the pair whole. */
  lemma {:induction false} CompleteRows(db: Db, call: Call, pc: Pc, c: Case)
    requires Fits(call, pc) && CaseIn(db, c)
    ensures CaseIn(Complete(db, call, pc).0, c)
    ensures RequestAwaits(Complete(db, call, pc).0, c) ==> RequestAwaits(db, c)
    ensures Coherent(call, c) && Whole(Pair(db, c)) ==> Whole(Pair(Complete(db, call, pc).0, c))
    decreases Rank(pc)
  {
    if !pc.Finished? {
      AdvanceProgresses(db, call, pc);
      var next := Advance(db, call, pc, true);
      if pc.Deciding? {
        FinalizeMovesPairIff(db, call, pc.verdict, true, c);
      } else {
        AdvanceRows(db, call, pc, true);
      }
      CompleteRows(next.0, call, next.1, c);
    }
  }

  /** A call that casts no vote on the task leaves its counts alone. */
  lemma {:induction false} CompleteOther(db: Db, call: Call, pc: Pc, c: Case)
    requires Fits(call, pc) && (call.origin.BySla? || call.task != c.task)
    ensures forall d :: Count(Complete(db, call, pc).0.votes, c.task, d) == Count(db.votes, c.task, d)
    decreases Rank(pc)
  {
    if !pc.Finished? {
      AdvanceProgresses(db, call, pc);
      AdvanceVotes(db, call, pc, true);
      var next := Advance(db, call, pc, true);
      forall d
        ensures Count(next.0.votes, c.task, d) == Count(db.votes, c.task, d)
      {
        if pc.Saving? && call.origin.ByVote? {
          CountSnoc(db.votes, VoteRow(call), c.task, d);
        }
      }
      CompleteOther(next.0, call, next.1, c);
    }
  }

  /** One vote on undecided counts cannot bring about both verdicts. */
  lemma OneVoteOneVerdict(a: nat, r: nat, a': nat, r': nat, policy: Option<Policy>)
    requires !Decisive(a, r, policy)
    requires (a' == a + 1 && r' == r) || (a' == a && r' == r + 1)
    ensures !(QuorumReached(a', policy) && IsRejected(a', r', policy))
  {
  }

  lemma SavedVoteKeepsSerial(db: Db, call: Call, c: Case)
    requires SerialOk(db, c) && Fresh(db, call, c) && RequestAwaits(db, c)
    ensures
      var db' := Serve(db, call).0;
      CaseIn(db', c) && !Both(db', c) && (DecisiveTable(db', c) ==> !RequestAwaits(db', c))
  {
    ServeVote(db, call);
    var saved := db.(votes := db.votes + [VoteRow(call)]);
    var a, r := Count(saved.votes, c.task, Approved), Count(saved.votes, c.task, Rejected);
    CountSnoc(db.votes, VoteRow(call), c.task, Approved);
    CountSnoc(db.votes, VoteRow(call), c.task, Rejected);
    OneVoteOneVerdict(Count(db.votes, c.task, Approved), Count(db.votes, c.task, Rejected), a, r, Some(c.policy));
    assert Serve(db, call).0.votes == saved.votes;
  }

  lemma VoteKeepsSerial(db: Db, call: Call, c: Case)
    requires SerialOk(db, c) && FreshFor(db, call, c) && call.origin.ByVote? && call.task == c.task
    requires TablesOk(Serve(db, call).0)
    ensures SerialOk(Serve(db, call).0, c)
  {
    if !Savable(db, call) {
      ServeNoVote(db, call);
    } else {
      SavedVoteKeepsSerial(db, call, c);
    }
  }

  lemma ServeKeepsSerial(db: Db, call: Call, c: Case)
    requires SerialOk(db, c) && FreshFor(db, call, c)
    ensures SerialOk(Serve(db, call).0, c)
  {
    CompleteKeepsTables(db, call, Start(call));
    if call.origin.ByVote? && call.task == c.task {
      VoteKeepsSerial(db, call, c);
    } else {
      CompleteRows(db, call, Start(call), c);
      CompleteOther(db, call, Start(call), c);
    }
  }

  /** Each vote on the task names its case, and its request was loaded when the previous call had returned. */
  ghost predicate AllFresh(db: Db, calls: seq<Call>, c: Case) {
    forall k :: 0 <= k < |calls| ==>
      CaseIn(ServeAll(db, calls[..k]), c) && FreshFor(ServeAll(db, calls[..k]), calls[k], c)
  }

  lemma {:induction false} SerialRunOk(db: Db, calls: seq<Call>, c: Case)
    requires SerialOk(db, c) && AllFresh(db, calls, c)
    ensures SerialOk(ServeAll(db, calls), c)
  {
    if calls != [] {
      var init := calls[..|calls| - 1];
      forall k | 0 <= k < |init|
        ensures CaseIn(ServeAll(db, init[..k]), c) && FreshFor(ServeAll(db, init[..k]), init[k], c)
      {
        assert init[..k] == calls[..k];
      }
      SerialRunOk(db, init, c);
      ServeKeepsSerial(ServeAll(db, init), calls[|calls| - 1], c);
    }
  }

  /** For every policy: in non-overlapping runs GetStatus never reports both verdicts. */
  lemma SerialNeverBoth(db: Db, calls: seq<Call>, c: Case)
    requires SerialOk(db, c) && AllFresh(db, calls, c)
    ensures
      var status := StatusOf(ServeAll(db, calls).votes, c.task, Some(c.policy));
      !(status.quorumReached && status.rejected)
  {
    SerialRunOk(db, calls, c);
    StatusCounts(ServeAll(db, calls).votes, c.task, Some(c.policy));
  }

  /** A vote on the case that will be saved. */
  ghost predicate Fresh(db: Db, call: Call, c: Case) {
    About(call, c) && Savable(db, call) && call.origin.policy == Some(c.policy)
  }

  lemma ServedVotes(db: Db, call: Call, c: Case)
    requires Fresh(db, call, c)
    ensures Serve(db, call).0.votes == db.votes + [VoteRow(call)]
  {
    ServeVote(db, call);
  }

  /**
   Loading the request afresh is needed: under a unanimous policy a rejection cast with a
   request loaded before the deciding approval leaves a status with both verdicts.
   */
  lemma StaleRejectionShowsBoth(db: Db, approval: Call, rejection: Call, c: Case)
    requires c.policy.requireUnanimous && c.policy.minApprovals == 1
    requires Fresh(db, approval, c) && approval.origin.decision == Approved
    requires Fresh(db, rejection, c) && rejection.origin.decision == Rejected
    requires approval.origin.voter != rejection.origin.voter
    ensures Both(Serve(Serve(db, approval).0, rejection).0, c)
  {
    var first := Serve(db, approval).0;
    ServedVotes(db, approval, c);
    CountSnoc(db.votes, VoteRow(approval), c.task, Approved);
    CountSnoc(db.votes, VoteRow(approval), c.task, Rejected);
    assert !HasVoted(first.votes, rejection.task, rejection.origin.voter);
    ServedVotes(first, rejection, c);
    CountSnoc(first.votes, VoteRow(rejection), c.task, Approved);
    CountSnoc(first.votes, VoteRow(rejection), c.task, Rejected);
  }

  lemma {:induction false} SerialRunWhole(db: Db, calls: seq<Call>, c: Case)
    requires CaseIn(db, c) && Whole(Pair(db, c)) && forall call :: call in calls ==> Coherent(call, c)
    ensures CaseIn(ServeAll(db, calls), c) && Whole(Pair(ServeAll(db, calls), c))
  {
    if calls != [] {
      var init, last := calls[..|calls| - 1], calls[|calls| - 1];
      assert last in calls && forall call :: call in init ==> call in calls;
      SerialRunWhole(db, init, c);
      CompleteRows(ServeAll(db, init), last, Start(last), c);
    }
  }

  /**
   The request is decided at the latest by the vote of the last listed user. If the calls are
   coherent, so is the task, and with the same verdict.
   */
  lemma SerialDecidedByLastVoter(db: Db, calls: seq<Call>, c: Case)
    requires SerialOk(db, c) && AllFresh(db, calls, c)
    requires Distinct(c.policy.allowedUsers) && 1 <= c.policy.minApprovals <= |c.policy.allowedUsers|
    requires Voters(ServeAll(db, calls).votes, c.task) == Members(c.policy.allowedUsers)
    ensures CaseIn(ServeAll(db, calls), c) && !RequestAwaits(ServeAll(db, calls), c)
    ensures Whole(Pair(db, c)) && (forall call :: call in calls ==> Coherent(call, c)) ==>
      Settled(ServeAll(db, calls), c)
  {
    SerialRunOk(db, calls, c);
    EveryoneVotedDecides(ServeAll(db, calls).votes, c.task, c.policy);
    if Whole(Pair(db, c)) && forall call :: call in calls ==> Coherent(call, c) {
      SerialRunWhole(db, calls, c);
    }
  }

  /******* A quorum counts IDs *******/

  /**
   Being vouched for is needed. A vote is authorised if the context's user is listed, whatever
   ID it is cast under: two votes of one listed user under two unlisted IDs make a quorum of
   two, and no listed user has a vote.
   */
  lemma UnvouchedVotesDecide(db: Db, first: Call, second: Call, c: Case)
    requires CaseIn(db, c) && Pair(db, c) == Outcome(None) && Voters(db.votes, c.task) == {}
    requires PooledPolicy(c.policy) && !c.policy.requireUnanimous && c.policy.minApprovals == 2
    requires Fresh(db, first, c) && Fresh(db, second, c) && first.qc == second.qc
    requires first.origin.decision == Approved && second.origin.decision == Approved
    requires first.origin.voter != second.origin.voter
    requires !Vouched(first, c.policy) && !Vouched(second, c.policy)
    ensures
      var db' := Serve(Serve(db, first).0, second).0;
      && CaseIn(db', c) && Pair(db', c) == Outcome(Some(Approve))
      && Voters(db'.votes, c.task) !! Members(c.policy.allowedUsers)
  {
    var mid := Serve(db, first).0;
    NoVotersNoVotes(db.votes, c.task);
    FirstOfTwo(db, first, c);
    StillSavable(db, first, second);
    assert CaseIn(mid, c) && Pair(mid, c) == Outcome(None);
    SecondOfTwo(mid, second, c);
    assert Voters(Serve(mid, second).0.votes, c.task) == {first.origin.voter, second.origin.voter};
  }

  /** A vote that could be saved still can after another voter's. */
  lemma StillSavable(db: Db, first: Call, second: Call)
    requires Savable(db, first) && Savable(db, second) && first.origin.voter != second.origin.voter
    ensures Savable(db.(votes := db.votes + [VoteRow(first)]), second)
  {
  }

  /** The second of two approvals that are needed decides. */
  lemma SecondOfTwo(db: Db, call: Call, c: Case)
    requires CaseIn(db, c) && Pair(db, c) == Outcome(None) && Fresh(db, call, c) && call.origin.decision == Approved
    requires !c.policy.requireUnanimous && c.policy.minApprovals == 2
    requires Count(db.votes, c.task, Approved) == 1 && Count(db.votes, c.task, Rejected) == 0
    ensures
      var db' := Serve(db, call).0;
      && CaseIn(db', c) && Pair(db', c) == Outcome(Some(Approve))
      && Voters(db'.votes, c.task) == Voters(db.votes, c.task) + {call.origin.voter}
  {
    var saved := db.(votes := db.votes + [VoteRow(call)]);
    ServeVote(db, call);
    CountSnoc(db.votes, VoteRow(call), c.task, Approved);
    CountSnoc(db.votes, VoteRow(call), c.task, Rejected);
    VotersSnoc(db.votes, VoteRow(call), c.task);
    assert CaseIn(saved, c) && Pair(saved, c) == Outcome(None);
    FinalizeMovesPairIff(saved, call, Approve, true, c);
  }

  lemma {:induction false} NoVotersNoVotes(votes: seq<Vote>, task: string)
    requires Voters(votes, task) == {}
    ensures Count(votes, task, Approved) == 0 && Count(votes, task, Rejected) == 0
  {
    if votes != [] {
      var init, last := votes[..|votes| - 1], votes[|votes| - 1];
      assert votes == init + [last];
      VotersSnoc(init, last, task);
      NoVotersNoVotes(init, task);
    }
  }

  /** The first of two approvals that are needed is saved and decides nothing. */
  lemma FirstOfTwo(db: Db, call: Call, c: Case)
    requires CaseIn(db, c) && Fresh(db, call, c) && call.origin.decision == Approved
    requires !c.policy.requireUnanimous && c.policy.minApprovals == 2
    requires Count(db.votes, c.task, Approved) == 0 && Count(db.votes, c.task, Rejected) == 0
    ensures
      var mid := Serve(db, call).0;
      && mid == db.(votes := db.votes + [VoteRow(call)])
      && Count(mid.votes, c.task, Approved) == 1 && Count(mid.votes, c.task, Rejected) == 0
      && Voters(mid.votes, c.task) == Voters(db.votes, c.task) + {call.origin.voter}
  {
    ServeVote(db, call);
    CountSnoc(db.votes, VoteRow(call), c.task, Approved);
    CountSnoc(db.votes, VoteRow(call), c.task, Rejected);
    VotersSnoc(db.votes, VoteRow(call), c.task);
  }

  /** Such a case and two such votes. */
  lemma UnvouchedCase() returns (db: Db, first: Call, second: Call, c: Case)
    ensures TablesOk(db) && CaseIn(db, c) && Pair(db, c) == Outcome(None) && first.qc == second.qc
    ensures PooledPolicy(c.policy) && Distinct(c.policy.allowedUsers) && c.policy.minApprovals == 2
    ensures
      var db' := Serve(Serve(db, first).0, second).0;
      && CaseIn(db', c) && Pair(db', c) == Outcome(Some(Approve))
      && Voters(db'.votes, c.task) !! Members(c.policy.allowedUsers)
  {
    var policy := Policy(2, [], ["ann", "bob"], false, 0, NoTimeoutAction);
    c := Case("task", "review", "exec", "req", Owner("", "org"), policy);
    db := Db([], map[c.task := TaskRow(c.execution, c.taskType, ManualApprovalRequired)],
             map[c.execution := ManualApprovalRequired],
             map[c.request := RequestRow(c.owner, ManualApprovalRequired)], []);
    var request, qc := Snapshot(c.request, c.execution, ManualApprovalRequired), QueryContext(Some(User("ann", "org", {})));
    first := Call(request, qc, c.taskType, c.task, ByVote(Some(policy), "one", Approved, "", 0));
    second := Call(request, qc, c.taskType, c.task, ByVote(Some(policy), "two", Approved, "", 0));
    assert policy.allowedUsers[0] == "ann";
    UnvouchedVotesDecide(db, first, second, c);
  }

  /******* Votes on another task of the execution *******/

  /**
   A vote on an approval task whose turn has passed is served all the same, and its quorum
   releases the request while the later task awaits its own votes.
   */
  lemma OtherTaskReleases(db: Db, vote: Call, c: Case)
    requires CaseIn(db, c) && Pair(db, c) == Outcome(None) && Savable(db, vote)
    requires NamesRequest(vote, c) && !NamesTask(vote, c) && vote.task != c.task
    requires var votes := db.votes + [VoteRow(vote)];
             var a, r := Count(votes, vote.task, Approved), Count(votes, vote.task, Rejected);
             QuorumReached(a, vote.origin.policy) && !IsRejected(a, r, vote.origin.policy)
    ensures
      var db' := Serve(db, vote).0;
      && CaseIn(db', c) && Pair(db', c) == (ManualApprovalRequired, Pending)
      && Voters(db'.votes, c.task) == Voters(db.votes, c.task)
  {
    var saved := db.(votes := db.votes + [VoteRow(vote)]);
    ServeVote(db, vote);
    VotersSnoc(db.votes, VoteRow(vote), c.task);
    assert CaseIn(saved, c) && Pair(saved, c) == Outcome(None);
    MissedTaskMovesRequestAlone(saved, vote, Approve, true, c);
  }

  /** Such a case and vote; the vote's request is loaded just before. */
  lemma OtherTaskCase() returns (db: Db, vote: Call, c: Case)
    ensures TablesOk(db) && CaseIn(db, c) && Pair(db, c) == Outcome(None) && vote.task in db.tasks
    ensures vote.request == Snapshot(c.request, c.execution, db.requests[c.request].state)
    ensures CaseIn(Serve(db, vote).0, c) && Pair(Serve(db, vote).0, c) == (ManualApprovalRequired, Pending)
  {
    var policy := Policy(1, [], ["ann"], false, 0, NoTimeoutAction);
    c := Case("task2", "review", "exec", "req", Owner("", "org"), policy);
    db := Db([], map["task1" := TaskRow(c.execution, "plan", Completed),
                     c.task := TaskRow(c.execution, c.taskType, ManualApprovalRequired)],
             map[c.execution := ManualApprovalRequired],
             map[c.request := RequestRow(c.owner, ManualApprovalRequired)], []);
    vote := Call(Snapshot(c.request, c.execution, ManualApprovalRequired), QueryContext(Some(User("ann", "org", {}))),
                 "plan", "task1", ByVote(Some(policy), "ann", Approved, "", 0));
    assert policy.allowedUsers[0] == "ann";
    CountSnoc([], VoteRow(vote), "task1", Approved);
    CountSnoc([], VoteRow(vote), "task1", Rejected);
    OtherTaskReleases(db, vote, c);
  }
}
