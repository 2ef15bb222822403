/**
 Whether votes that amount to a decision are acted on. A call may die between any two of its
 statements, so a saved vote may never be evaluated by the call that saved it.
 */
module ApprovalProgress {
  import opened Options
  import opened ApprovalVotes
  import opened ApprovalTables
  import opened ApprovalRuns

  /** A call about this case. Its snapshot of the request's state may be stale. */
  ghost predicate About(call: Call, c: Case) {
    NamesTask(call, c) && NamesRequest(call, c) && call.task == c.task
  }

  /** Votes on the task name its row the way it was loaded: with its request. Each has the policy of its own moment. */
  ghost predicate Loaded(call: Call, c: Case) {
    call.origin.ByVote? && call.task == c.task ==> About(call, c)
  }

  ghost predicate LoadedSteps(steps: seq<Step>, c: Case) {
    forall step :: step in steps && step.Begin? ==> Loaded(step.call, c)
  }

  ghost predicate LoadedCalls(s: System, c: Case) {
    forall id :: id in s.calls ==> Loaded(s.calls[id].call, c)
  }

  /** The votes amount to a decision under the policy. */
  ghost predicate DecisiveFor(db: Db, c: Case, policy: Option<Policy>) {
    Decisive(Count(db.votes, c.task, Approved), Count(db.votes, c.task, Rejected), policy)
  }

  ghost predicate DecisiveTable(db: Db, c: Case) { DecisiveFor(db, c, Some(c.policy)) }

  /** A call that is bound to put a decision on the case to commit, under its own policy. */
  ghost predicate WillDecide(s: System, id: nat, c: Case) {
    && id in s.calls && About(s.calls[id].call, c) && s.calls[id].call.origin.ByVote?
    && var policy := s.calls[id].call.origin.policy;
       || (s.calls[id].pc.Counting? && DecisiveFor(s.db, c, policy))
       || (s.calls[id].pc.Listing? && Decisive(s.calls[id].pc.approvals, s.calls[id].pc.rejections, policy))
       || s.calls[id].pc.Deciding?
  }

  /** The step is the one that saves a vote on the case's task. */
  ghost predicate Saves(s: System, step: Step, c: Case) {
    && step.Proceed? && step.id in s.calls && s.calls[step.id].pc.Saving?
    && s.calls[step.id].call.origin.ByVote? && s.calls[step.id].call.task == c.task
    && s.calls[step.id].call.request.id != ""
  }

  /** The policy of the vote that was saved last, or the given one before any. */
  ghost function PolicyAfter(s: System, step: Step, c: Case, policy: Option<Policy>): Option<Policy> {
    if Saves(s, step, c) then s.calls[step.id].call.origin.policy else policy
  }

  ghost function LastPolicy(s: System, steps: seq<Step>, c: Case): Option<Policy> {
    if steps == [] then Some(c.policy)
    else
      var init := steps[..|steps| - 1];
      PolicyAfter(Exec(s, init), steps[|steps| - 1], c, LastPolicy(s, init, c))
  }

  /** The votes amount to a decision, and this row of the case still awaits one. */
  ghost predicate Due(s: System, c: Case, part: Part, policy: Option<Policy>) {
    CaseIn(s.db, c) && DecisiveFor(s.db, c, policy) && RowState(s.db, c, part) == ManualApprovalRequired
  }

  ghost predicate NotLost(s: System, c: Case, part: Part, policy: Option<Policy>) {
    Due(s, c, part, policy) ==> exists id :: WillDecide(s, id, c)
  }

  /** The step kills the only call bound to decide while a decision is due. */
  ghost predicate Loses(s: System, step: Step, c: Case, part: Part, policy: Option<Policy>) {
    && step.Abort? && Due(s, c, part, policy) && WillDecide(s, step.id, c)
    && forall id :: WillDecide(s, id, c) ==> id == step.id
  }

  /** More votes leave a decisive table decisive, whatever the policy. */
  lemma DecisiveGrows(db: Db, db': Db, c: Case, policy: Option<Policy>)
    requires db.votes <= db'.votes && DecisiveFor(db, c, policy)
    ensures DecisiveFor(db', c, policy)
  {
    CountPrefix(db.votes, db'.votes, c.task, Approved);
    CountPrefix(db.votes, db'.votes, c.task, Rejected);
  }

  lemma StepKeepsWillDecide(s: System, step: Step, c: Case, id: nat)
    requires SystemOk(s) && WillDecide(s, id, c)
    requires step.Abort? ==> step.id != id
    requires step.Proceed? && step.id == id ==> !s.calls[id].pc.Deciding?
    ensures WillDecide(Apply(s, step), id, c)
  {
    StepKeepsSystemOk(s, step);
    if s.calls[id].pc.Counting? {
      DecisiveGrows(s.db, Apply(s, step).db, c, s.calls[id].call.origin.policy);
    }
  }

  /** A call that has just saved its vote is bound to decide if its policy says so. */
  lemma SaverWillDecide(s: System, step: Step, c: Case)
    requires LoadedCalls(s, c) && Saves(s, step, c)
    requires DecisiveFor(Apply(s, step).db, c, PolicyAfter(s, step, c, None))
    ensures WillDecide(Apply(s, step), step.id, c)
  {
  }

  lemma VotesStay(s: System, step: Step, c: Case)
    requires !Saves(s, step, c)
    ensures forall d :: Count(Apply(s, step).db.votes, c.task, d) == Count(s.db.votes, c.task, d)
  {
    if step.Proceed? && step.id in s.calls {
      var act := s.calls[step.id];
      AdvanceVotes(s.db, act.call, act.pc, step.resolves);
      forall d
        ensures Count(Apply(s, step).db.votes, c.task, d) == Count(s.db.votes, c.task, d)
      {
        if act.pc.Saving? && act.call.origin.ByVote? {
          CountSnoc(s.db.votes, VoteRow(act.call), c.task, d);
        }
      }
    }
  }

  /** A decision that is due before and after a step is lost by it only in the one way. */
  lemma DueStaysBound(s: System, step: Step, c: Case, part: Part, policy: Option<Policy>)
    requires SystemOk(s) && Due(s, c, part, policy) && Due(Apply(s, step), c, part, policy)
    requires NotLost(s, c, part, policy) && !Loses(s, step, c, part, policy)
    ensures NotLost(Apply(s, step), c, part, policy)
  {
    var id :| WillDecide(s, id, c) && (step.Abort? ==> step.id != id);
    StepOnRow(s, step, c, part, None);
    StepKeepsWillDecide(s, step, c, id);
  }

  lemma LossIsLoss(s: System, step: Step, c: Case, part: Part, policy: Option<Policy>)
    requires Loses(s, step, c, part, policy)
    ensures !NotLost(Apply(s, step), c, part, PolicyAfter(s, step, c, policy))
  {
    assert Due(Apply(s, step), c, part, policy);
    forall id
      ensures !WillDecide(Apply(s, step), id, c)
    {
      assert id != step.id ==> !WillDecide(s, id, c);
    }
  }

  /** One step loses a decision if and only if it kills the only call bound to take it. */
  lemma LossExactly(s: System, step: Step, c: Case, part: Part, policy: Option<Policy>, decided: Option<Verdict>)
    requires SystemOk(s) && LoadedCalls(s, c) && NotLost(s, c, part, policy)
    requires CaseIn(s.db, c) && RowState(s.db, c, part) == RowAfter(decided, part)
    ensures NotLost(Apply(s, step), c, part, PolicyAfter(s, step, c, policy)) <==> !Loses(s, step, c, part, policy)
  {
    var policy' := PolicyAfter(s, step, c, policy);
    if Loses(s, step, c, part, policy) {
      LossIsLoss(s, step, c, part, policy);
    } else if Due(Apply(s, step), c, part, policy') {
      if Saves(s, step, c) {
        SaverWillDecide(s, step, c);
      } else {
        StepOnRow(s, step, c, part, decided);
        VotesStay(s, step, c);
        DueStaysBound(s, step, c, part, policy);
      }
    }
  }

  lemma {:induction false} CallsStayLoaded(s: System, steps: seq<Step>, c: Case)
    requires s.calls == map[] && LoadedSteps(steps, c)
    ensures LoadedCalls(Exec(s, steps), c)
  {
    if steps != [] {
      var init, last := steps[..|steps| - 1], steps[|steps| - 1];
      assert last in steps && forall step :: step in init ==> step in steps;
      CallsStayLoaded(s, init, c);
    }
  }

  /** Some step of the run killed the only call bound to decide while a decision was due. */
  ghost predicate SomeLoss(s: System, steps: seq<Step>, c: Case, part: Part) {
    steps != [] &&
    var init := steps[..|steps| - 1];
    SomeLoss(s, init, c, part) || Loses(Exec(s, init), steps[|steps| - 1], c, part, LastPolicy(s, init, c))
  }

  /** After every step of the run a decision that is due has a call bound to take it. */
  ghost predicate NeverLost(s: System, steps: seq<Step>, c: Case, part: Part) {
    && NotLost(Exec(s, steps), c, part, LastPolicy(s, steps, c))
    && (steps != [] ==> NeverLost(s, steps[..|steps| - 1], c, part))
  }

  /**
   Under every interleaving, with dying calls, with policies that change between votes and with
   calls that find only one row of the case: throughout the run each decision that the votes
   amount to, under the policy of the vote saved last, and that a row still awaits, has a call
   in flight bound to take it, if and only if no step kills the only such call.
   */
  lemma {:induction false} NoDecisionLost(s: System, steps: seq<Step>, c: Case, part: Part)
    requires Initial(s) && CaseIn(s.db, c) && RowState(s.db, c, part) == ManualApprovalRequired
    requires !DecisiveTable(s.db, c) && LoadedSteps(steps, c)
    ensures NeverLost(s, steps, c, part) <==> !SomeLoss(s, steps, c, part)
  {
    if steps != [] {
      var init, last := steps[..|steps| - 1], steps[|steps| - 1];
      assert last in steps && forall step :: step in init ==> step in steps;
      NoDecisionLost(s, init, c, part);
      if NeverLost(s, init, c, part) {
        RunKeepsSystemOk(s, init);
        CallsStayLoaded(s, init, c);
        RowFollowsFirstCommit(s, init, c, part);
        LossExactly(Exec(s, init), last, c, part, LastPolicy(s, init, c), FirstCommit(s, init, c, part));
      }
    }
  }

  /** Where all votes on the case carry its policy, that is the policy of the vote saved last. */
  lemma {:induction false} OnePolicy(s: System, steps: seq<Step>, c: Case)
    requires Initial(s) && PooledPolicy(c.policy) && VouchedVotes(steps, c)
    requires Pooled(s.db.votes, c.task, c.policy.allowedUsers)
    ensures LastPolicy(s, steps, c) == Some(c.policy)
  {
    if steps != [] {
      var init := steps[..|steps| - 1];
      assert forall step :: step in init ==> step in steps;
      OnePolicy(s, init, c);
      PoolKept(s, init, c);
    }
  }

  /** Some call on the case's task was killed after it saved its vote and before it finished. */
  ghost predicate DiesEvaluating(s: System, steps: seq<Step>, c: Case) {
    exists k :: 0 <= k < |steps| && KillsEvaluation(Exec(s, steps[..k]), steps[k], c)
  }

  ghost predicate KillsEvaluation(s: System, step: Step, c: Case) {
    && step.Abort? && step.id in s.calls && s.calls[step.id].call.task == c.task
    && (s.calls[step.id].pc.Counting? || s.calls[step.id].pc.Listing? || s.calls[step.id].pc.Deciding?)
  }

  /** A loss takes a call that dies between saving its vote and finishing. */
  lemma {:induction false} LossKillsEvaluation(s: System, steps: seq<Step>, c: Case, part: Part)
    requires SomeLoss(s, steps, c, part)
    ensures DiesEvaluating(s, steps, c)
  {
    var init, last := steps[..|steps| - 1], steps[|steps| - 1];
    if SomeLoss(s, init, c, part) {
      LossKillsEvaluation(s, init, c, part);
      var k :| 0 <= k < |init| && KillsEvaluation(Exec(s, init[..k]), init[k], c);
      assert init[..k] == steps[..k];
      assert KillsEvaluation(Exec(s, steps[..k]), steps[k], c);
    } else {
      assert KillsEvaluation(Exec(s, steps[..|steps| - 1]), steps[|steps| - 1], c);
    }
  }

  ghost predicate Quiescent(s: System) {
    forall id :: id in s.calls ==> s.calls[id].pc.Finished?
  }

  /**
   When every call has returned or died and the votes amount to a decision under the policy of
   the vote saved last, a decision was committed for each row that awaited one, unless a loss
   happened. Each vote may be counted by a call that started before others were saved, yet none
   of the calls can leave the decision to another.
   */
  lemma QuiescentDecided(s: System, steps: seq<Step>, c: Case, part: Part)
    requires Initial(s) && CaseIn(s.db, c) && RowState(s.db, c, part) == ManualApprovalRequired
    requires !DecisiveTable(s.db, c) && LoadedSteps(steps, c)
    requires Quiescent(Exec(s, steps)) && DecisiveFor(Exec(s, steps).db, c, LastPolicy(s, steps, c))
    ensures FirstCommit(s, steps, c, part).Some? || SomeLoss(s, steps, c, part)
  {
    NoDecisionLost(s, steps, c, part);
    RowFollowsFirstCommit(s, steps, c, part);
  }

  /** So each row is decided at the latest when the calls of all listed users have returned, unless a loss happened. */
  lemma EveryoneVotedDecided(s: System, steps: seq<Step>, c: Case, part: Part)
    requires Initial(s) && CaseIn(s.db, c) && RowState(s.db, c, part) == ManualApprovalRequired
    requires Voters(s.db.votes, c.task) == {}
    requires LoadedSteps(steps, c) && VouchedVotes(steps, c)
    requires var users := c.policy.allowedUsers;
             && c.policy.allowedRoles == [] && Distinct(users)
             && 1 <= c.policy.minApprovals <= |users|
             && Members(users) <= Voters(Exec(s, steps).db.votes, c.task)
    requires Quiescent(Exec(s, steps))
    ensures FirstCommit(s, steps, c, part).Some? || SomeLoss(s, steps, c, part)
  {
    PoolKept(s, steps, c);
    RunKeepsSystemOk(s, steps);
    CountsAreVoters(s.db.votes, c.task);
    EveryoneVotedDecides(Exec(s, steps).db.votes, c.task, c.policy);
    OnePolicy(s, steps, c);
    QuiescentDecided(s, steps, c, part);
  }

  /******* A lost decision that no vote can take any more *******/

  ghost predicate Touches(call: Call, c: Case) { NamesTask(call, c) || NamesRequest(call, c) }

  /** The call cannot commit anything any more, unless it is a vote that finds itself repeated. */
  ghost predicate Inert(act: Activity, c: Case) {
    || act.pc.Finished? || act.pc.Resolving? || act.pc.Escalating?
    || (VouchedVote(act.call, c) && (act.pc.Checking? || act.pc.Reading?))
  }

  /** Every listed user has voted, and no call that finds a row of the case is about to save or decide. */
  ghost predicate Stranded(s: System, c: Case) {
    && SystemOk(s) && CaseIn(s.db, c) && PooledPolicy(c.policy)
    && Members(c.policy.allowedUsers) <= Voters(s.db.votes, c.task)
    && forall id :: id in s.calls && Touches(s.calls[id].call, c) ==> Inert(s.calls[id], c)
  }

  /** Votes, and breaches that only escalate. */
  ghost predicate Harmless(step: Step, c: Case) {
    step.Begin? && Touches(step.call, c) ==> VouchedVote(step.call, c) || Start(step.call).Escalating?
  }

  lemma VotersGrow(votes: seq<Vote>, votes': seq<Vote>, task: string)
    requires votes <= votes'
    ensures Voters(votes, task) <= Voters(votes', task)
  {
    forall x | x in Voters(votes, task)
      ensures x in Voters(votes', task)
    {
      var v :| v in votes && v.task == task && v.voter == x;
      assert v in votes';
    }
  }

  lemma ListedHasVoted(s: System, c: Case, call: Call)
    requires Stranded(s, c) && VouchedVote(call, c) && Screen(call).None?
    ensures HasVoted(s.db.votes, call.task, call.origin.voter)
  {
    AuthorizedIsListed(call, c.policy);
    assert call.origin.voter in Voters(s.db.votes, c.task);
  }

  lemma StrandedStep(s: System, step: Step, c: Case)
    requires Stranded(s, c) && Harmless(step, c)
    ensures Stranded(Apply(s, step), c) && Pair(Apply(s, step).db, c) == Pair(s.db, c)
  {
    StepKeepsSystemOk(s, step);
    VotersGrow(s.db.votes, Apply(s, step).db.votes, c.task);
    if step.Proceed? && step.id in s.calls {
      var act := s.calls[step.id];
      assert ActivityOk(s.db, act);
      if !act.pc.Deciding? {
        AdvanceRows(s.db, act.call, act.pc, step.resolves);
      }
      if Touches(act.call, c) && act.pc.Checking? {
        ListedHasVoted(s, c, act.call);
      }
    }
  }

  /** From there no run of votes, retries and escalations ever moves the case. */
  lemma {:induction false} StrandedForGood(s: System, steps: seq<Step>, c: Case)
    requires Stranded(s, c) && forall step :: step in steps ==> Harmless(step, c)
    ensures Stranded(Exec(s, steps), c) && Pair(Exec(s, steps).db, c) == Pair(s.db, c)
  {
    if steps != [] {
      var init, last := steps[..|steps| - 1], steps[|steps| - 1];
      assert last in steps && forall step :: step in init ==> step in steps;
      StrandedForGood(s, init, c);
      StrandedStep(Exec(s, init), last, c);
    }
  }

  /** It takes the death of the last listed voter's call after its vote is saved. */
  lemma DyingLastVoteStrands(s: System, c: Case, call: Call) returns (steps: seq<Step>)
    requires Initial(s) && CaseIn(s.db, c) && PooledPolicy(c.policy)
    requires Savable(s.db, call) && VouchedVote(call, c)
    requires Members(c.policy.allowedUsers) <= Voters(s.db.votes, c.task) + {call.origin.voter}
    ensures Stranded(Exec(s, steps), c) && Pair(Exec(s, steps).db, c) == Pair(s.db, c)
    ensures Exec(s, steps).db == s.db.(votes := s.db.votes + [VoteRow(call)])
    ensures forall step :: step in steps && step.Begin? ==> step.call == call
  {
    steps := SavesVote(s, 0, call);
    VotersSnoc(s.db.votes, VoteRow(call), c.task);
    steps := Extend(s, steps, Abort(0));
    RunKeepsSystemOk(s, steps);
  }

  /** Such a case: one listed user, whose approval is enough, and whose call dies after it was saved. */
  lemma StrandedCase() returns (s: System, c: Case, steps: seq<Step>)
    ensures Initial(s) && CaseIn(s.db, c) && Pair(s.db, c) == Outcome(None) && !DecisiveTable(s.db, c)
    ensures LoadedSteps(steps, c) && VouchedVotes(steps, c)
    ensures Stranded(Exec(s, steps), c) && forall part :: Due(Exec(s, steps), c, part, Some(c.policy))
  {
    var policy := Policy(1, [], ["ann"], false, 0, NoTimeoutAction);
    c := Case("task", "review", "exec", "req", Owner("", "org"), policy);
    s := System(Db([], map[c.task := TaskRow(c.execution, c.taskType, ManualApprovalRequired)],
                   map[c.execution := ManualApprovalRequired],
                   map[c.request := RequestRow(c.owner, ManualApprovalRequired)], []), map[]);
    var vote := Call(Snapshot(c.request, c.execution, ManualApprovalRequired),
                     QueryContext(Some(User("ann", "org", {}))), c.taskType, c.task,
                     ByVote(Some(policy), "ann", Approved, "", 0));
    assert policy.allowedUsers[0] == "ann";
    CountSnoc([], VoteRow(vote), c.task, Approved);
    CountSnoc([], VoteRow(vote), c.task, Rejected);
    steps := DyingLastVoteStrands(s, c, vote);
  }
}
