/**
 Runs of the approval service: any number of CastVote and HandleSLABreach calls whose
 database statements interleave in any order, with stale snapshots of the job request and
 with calls that die half way.
 */
module ApprovalRuns {
  import opened Options
  import opened Strings
  import opened ApprovalVotes
  import opened ApprovalTables

  datatype Activity = Activity(call: Call, pc: Pc)

  datatype System = System(db: Db, calls: map<nat, Activity>)

  datatype Step =
    | Begin(id: nat, call: Call)
    | Proceed(id: nat, resolves: bool)
    | Abort(id: nat)
    | Schedule(deadline: Deadline)

  function Apply(s: System, step: Step): System {
    match step
    case Begin(id, call) =>
      if id in s.calls then s else s.(calls := s.calls[id := Activity(call, Start(call))])
    case Proceed(id, resolves) =>
      if id !in s.calls then s
      else
        var act := s.calls[id];
        var next := Advance(s.db, act.call, act.pc, resolves);
        System(next.0, s.calls[id := act.(pc := next.1)])
    case Abort(id) =>
      if id !in s.calls || s.calls[id].pc.Finished? then s
      else s.(calls := s.calls[id := s.calls[id].(pc := Finished(Refused(DbFailure)))])
    case Schedule(d) =>
      s.(db := s.db.(deadlines := InsertDeadline(s.db.deadlines, d.(resolved := false, escalated := false))))
  }

  /** The state after a run; the last step is applied last. */
  function Exec(s: System, steps: seq<Step>): System {
    if steps == [] then s else Apply(Exec(s, steps[..|steps| - 1]), steps[|steps| - 1])
  }

  /** A run starts with no call in flight and consistent tables. */
  ghost predicate Initial(s: System) {
    s.calls == map[] && TablesOk(s.db)
  }

  /******* One vote per voter, and what each call knows *******/

  /** A call past its checks is authorised, and the counts it holds are lower bounds. */
  ghost predicate ActivityOk(db: Db, act: Activity) {
    var call, pc := act.call, act.pc;
    call.origin.ByVote? && !pc.Finished? ==>
      && Screen(call).None?
      && (pc.Listing? ==> Bounded(db, call, pc.approvals, pc.rejections))
      && (pc.Deciding? ==>
            && Bounded(db, call, pc.status.approvals, pc.status.rejections)
            && 0 <= pc.status.approvals && 0 <= pc.status.rejections
            && (pc.verdict == Approve ==> QuorumReached(pc.status.approvals, call.origin.policy))
            && (pc.verdict == Reject ==>
                  IsRejected(pc.status.approvals, pc.status.rejections, call.origin.policy)))
  }

  ghost predicate Bounded(db: Db, call: Call, a: int, r: int) {
    a <= Count(db.votes, call.task, Approved) && r <= Count(db.votes, call.task, Rejected)
  }

  ghost predicate SystemOk(s: System) {
    TablesOk(s.db) && forall id :: id in s.calls ==> ActivityOk(s.db, s.calls[id])
  }

  lemma CountPrefix(votes: seq<Vote>, votes': seq<Vote>, task: string, d: Decision)
    requires votes <= votes'
    ensures Count(votes, task, d) <= Count(votes', task, d)
  {
    assert votes' == votes + votes'[|votes|..];
    CountConcat(votes, votes'[|votes|..], task, d);
  }

  lemma ActivityGrows(db: Db, db': Db, act: Activity)
    requires ActivityOk(db, act) && db.votes <= db'.votes
    ensures ActivityOk(db', act)
  {
    CountPrefix(db.votes, db'.votes, act.call.task, Approved);
    CountPrefix(db.votes, db'.votes, act.call.task, Rejected);
  }

  /** A statement of a call keeps the tables consistent, and never rewrites a vote. */
  lemma AdvanceKeepsTables(db: Db, act: Activity, resolves: bool)
    requires TablesOk(db) && ActivityOk(db, act)
    ensures TablesOk(Advance(db, act.call, act.pc, resolves).0)
    ensures db.votes <= Advance(db, act.call, act.pc, resolves).0.votes
  {
    AdvanceVotes(db, act.call, act.pc, resolves);
    AdvanceDeadlines(db, act.call, act.pc, resolves);
    if act.pc.Saving? && act.call.origin.ByVote? {
      InsertVoteKeeps(db.votes, VoteRow(act.call));
    }
    var ds, ds' := db.deadlines, Advance(db, act.call, act.pc, resolves).0.deadlines;
    forall i, j | 0 <= i < j < |ds'|
      ensures ds'[i].id != ds'[j].id
    {
      assert Later(ds[i], ds'[i]) && Later(ds[j], ds'[j]);
    }
  }

  lemma AdvanceKeepsActivity(db: Db, act: Activity, resolves: bool)
    requires TablesOk(db) && ActivityOk(db, act)
    ensures
      var next := Advance(db, act.call, act.pc, resolves);
      ActivityOk(next.0, act.(pc := next.1))
  {
    if act.call.origin.ByVote? && act.pc.Listing? {
      var next := Decide(act.call, act.pc.approvals, act.pc.rejections, GetVotes(db.votes, act.call.task));
      assert next.Deciding? ==> next.status.approvals == act.pc.approvals && next.status.rejections == act.pc.rejections;
    }
  }

  lemma StepKeepsSystemOk(s: System, step: Step)
    requires SystemOk(s)
    ensures SystemOk(Apply(s, step)) && s.db.votes <= Apply(s, step).db.votes
  {
    var s' := Apply(s, step);
    if step.Proceed? && step.id in s.calls {
      var act := s.calls[step.id];
      AdvanceKeepsTables(s.db, act, step.resolves);
      AdvanceKeepsActivity(s.db, act, step.resolves);
      forall id | id in s'.calls
        ensures ActivityOk(s'.db, s'.calls[id])
      {
        if id != step.id {
          ActivityGrows(s.db, s'.db, s.calls[id]);
        }
      }
    } else {
      assert s'.db.votes == s.db.votes;
      forall id | id in s.calls
        ensures ActivityOk(s'.db, s.calls[id])
      {
        ActivityGrows(s.db, s'.db, s.calls[id]);
      }
    }
  }

  lemma {:induction false} RunKeepsSystemOk(s: System, steps: seq<Step>)
    requires Initial(s)
    ensures SystemOk(Exec(s, steps))
  {
    if steps != [] {
      RunKeepsSystemOk(s, steps[..|steps| - 1]);
      StepKeepsSystemOk(Exec(s, steps[..|steps| - 1]), steps[|steps| - 1]);
    }
  }

  lemma {:induction false} ExecConcat(s: System, first: seq<Step>, second: seq<Step>)
    ensures Exec(s, first + second) == Exec(Exec(s, first), second)
  {
    if second == [] {
      assert first + second == first;
    } else {
      var all := first + second;
      assert all[..|all| - 1] == first + second[..|second| - 1];
      ExecConcat(s, first, second[..|second| - 1]);
    }
  }

  lemma {:induction false} VotesKeptFrom(s: System, steps: seq<Step>)
    requires SystemOk(s)
    ensures SystemOk(Exec(s, steps)) && s.db.votes <= Exec(s, steps).db.votes
  {
    if steps != [] {
      VotesKeptFrom(s, steps[..|steps| - 1]);
      StepKeepsSystemOk(Exec(s, steps[..|steps| - 1]), steps[|steps| - 1]);
    }
  }

  /** No vote is ever overwritten or repeated: the table only grows at its end. */
  lemma FirstVoteStays(s: System, steps: seq<Step>, k: nat)
    requires Initial(s) && k <= |steps|
    ensures Exec(s, steps[..k]).db.votes <= Exec(s, steps).db.votes
    ensures Unique(Exec(s, steps).db.votes)
  {
    RunKeepsSystemOk(s, steps[..k]);
    ExecConcat(s, steps[..k], steps[k..]);
    assert steps == steps[..k] + steps[k..];
    VotesKeptFrom(Exec(s, steps[..k]), steps[k..]);
  }

  /******* One approval case *******/

  /** The rows of one approval: a task awaiting it, and the job request that owns the task. */
  datatype Case = Case(
    task: string, taskType: string, execution: string, request: string, owner: Owner, policy: Policy)

  ghost predicate CaseIn(db: Db, c: Case) {
    && c.task in db.tasks
    && db.tasks[c.task].execution == c.execution && db.tasks[c.task].taskType == c.taskType
    && c.request in db.requests && db.requests[c.request].owner == c.owner
  }

  /** (task state, job request state) */
  ghost function Pair(db: Db, c: Case): (RequestState, RequestState)
    requires CaseIn(db, c)
  {
    (db.tasks[c.task].state, db.requests[c.request].state)
  }

  /** Where the verdict committed first leaves each row; without one both still await it. */
  ghost function TaskAfter(v: Option<Verdict>): RequestState {
    if v.Some? then TaskState(v.value) else ManualApprovalRequired
  }

  ghost function RequestAfter(v: Option<Verdict>): RequestState {
    if v.Some? then RequestOutcome(v.value) else ManualApprovalRequired
  }

  ghost function Outcome(v: Option<Verdict>): (RequestState, RequestState) { (TaskAfter(v), RequestAfter(v)) }

  /** Task and request stand at the same verdict, or both await one. */
  ghost predicate Whole(pair: (RequestState, RequestState)) {
    pair == Outcome(None) || pair == Outcome(Some(Approve)) || pair == Outcome(Some(Reject))
  }

  /** The UPDATE of task rows finds them by job execution and task type. */
  ghost predicate NamesTask(call: Call, c: Case) {
    call.request.execution == c.execution && call.taskType == c.taskType
  }

  /** The UPDATE of request rows finds them by ID, within the scope of the query context. */
  ghost predicate NamesRequest(call: Call, c: Case) {
    call.request.id == c.request && call.qc.Scopes(c.owner)
  }

  /** The call's finaliser finds both rows of the case or neither. */
  ghost predicate Coherent(call: Call, c: Case) { NamesTask(call, c) <==> NamesRequest(call, c) }

  ghost predicate CoherentSteps(steps: seq<Step>, c: Case) {
    forall step :: step in steps && step.Begin? ==> Coherent(step.call, c)
  }

  ghost predicate CoherentCalls(s: System, c: Case) {
    forall id :: id in s.calls ==> Coherent(s.calls[id].call, c)
  }

  datatype Part = TaskPart | RequestPart

  ghost predicate Names(call: Call, c: Case, part: Part) {
    if part == TaskPart then NamesTask(call, c) else NamesRequest(call, c)
  }

  /** The verdict that this step commits for one row of the case, if it commits one. */
  ghost function Commit(s: System, step: Step, c: Case, part: Part): Option<Verdict> {
    if step.Proceed? && step.id in s.calls && s.calls[step.id].pc.Deciding? && Names(s.calls[step.id].call, c, part)
    then Some(s.calls[step.id].pc.verdict) else None
  }

  ghost function FirstCommit(s: System, steps: seq<Step>, c: Case, part: Part): Option<Verdict> {
    if steps == [] then None
    else
      var init := steps[..|steps| - 1];
      Earlier(FirstCommit(s, init, c, part), Commit(Exec(s, init), steps[|steps| - 1], c, part))
  }

  ghost function Earlier(first: Option<Verdict>, second: Option<Verdict>): Option<Verdict> {
    if first.Some? then first else second
  }

  /** The state of one row of the case, and where its first verdict leaves it. */
  ghost function RowState(db: Db, c: Case, part: Part): RequestState
    requires CaseIn(db, c)
  {
    if part == TaskPart then db.tasks[c.task].state else db.requests[c.request].state
  }

  ghost function RowAfter(v: Option<Verdict>, part: Part): RequestState {
    if part == TaskPart then TaskAfter(v) else RequestAfter(v)
  }

  lemma StepOnRow(s: System, step: Step, c: Case, part: Part, decided: Option<Verdict>)
    requires CaseIn(s.db, c) && RowState(s.db, c, part) == RowAfter(decided, part)
    ensures CaseIn(Apply(s, step).db, c)
    ensures RowState(Apply(s, step).db, c, part) == RowAfter(Earlier(decided, Commit(s, step, c, part)), part)
  {
    if step.Proceed? && step.id in s.calls && !s.calls[step.id].pc.Deciding? {
      AdvanceRows(s.db, s.calls[step.id].call, s.calls[step.id].pc, step.resolves);
    }
  }

  /**
   In every run, whatever the calls name: an awaiting row of the case is where the first
   transaction that found it has put it, and no later one moves it again.
   */
  lemma {:induction false} RowFollowsFirstCommit(s: System, steps: seq<Step>, c: Case, part: Part)
    requires CaseIn(s.db, c) && RowState(s.db, c, part) == ManualApprovalRequired
    ensures CaseIn(Exec(s, steps).db, c)
    ensures RowState(Exec(s, steps).db, c, part) == RowAfter(FirstCommit(s, steps, c, part), part)
  {
    if steps != [] {
      var init, last := steps[..|steps| - 1], steps[|steps| - 1];
      RowFollowsFirstCommit(s, init, c, part);
      StepOnRow(Exec(s, init), last, c, part, FirstCommit(s, init, c, part));
    }
  }

  /** For both rows at once. */
  lemma RowsFollowFirstCommits(s: System, steps: seq<Step>, c: Case)
    requires CaseIn(s.db, c) && Pair(s.db, c) == Outcome(None)
    ensures CaseIn(Exec(s, steps).db, c)
    ensures Pair(Exec(s, steps).db, c) ==
            (TaskAfter(FirstCommit(s, steps, c, TaskPart)), RequestAfter(FirstCommit(s, steps, c, RequestPart)))
  {
    RowFollowsFirstCommit(s, steps, c, TaskPart);
    RowFollowsFirstCommit(s, steps, c, RequestPart);
  }

  /** So in every run task and request agree if and only if the same verdict came first for both. */
  lemma WholeExactly(s: System, steps: seq<Step>, c: Case)
    requires CaseIn(s.db, c) && Pair(s.db, c) == Outcome(None)
    ensures CaseIn(Exec(s, steps).db, c)
    ensures Whole(Pair(Exec(s, steps).db, c)) <==>
            FirstCommit(s, steps, c, TaskPart) == FirstCommit(s, steps, c, RequestPart)
  {
    RowsFollowFirstCommits(s, steps, c);
  }

  lemma {:induction false} CoherentCommits(s: System, steps: seq<Step>, c: Case)
    requires s.calls == map[] && CoherentSteps(steps, c)
    ensures CoherentCalls(Exec(s, steps), c)
    ensures FirstCommit(s, steps, c, TaskPart) == FirstCommit(s, steps, c, RequestPart)
  {
    if steps != [] {
      var init, last := steps[..|steps| - 1], steps[|steps| - 1];
      assert last in steps && forall step :: step in init ==> step in steps;
      CoherentCommits(s, init, c);
    }
  }

  /**
   Under every interleaving of coherent calls the first committed transaction decides the
   case, and nothing this service does afterwards changes it.
   */
  lemma FirstCommitWins(s: System, steps: seq<Step>, c: Case)
    requires Initial(s) && CaseIn(s.db, c) && Pair(s.db, c) == Outcome(None)
    requires CoherentSteps(steps, c)
    ensures CaseIn(Exec(s, steps).db, c) && CoherentCalls(Exec(s, steps), c)
    ensures Pair(Exec(s, steps).db, c) == Outcome(FirstCommit(s, steps, c, TaskPart))
    ensures FirstCommit(s, steps, c, TaskPart) == FirstCommit(s, steps, c, RequestPart)
  {
    RowsFollowFirstCommits(s, steps, c);
    CoherentCommits(s, steps, c);
  }

  lemma {:induction false} FirstCommitIsFirst(s: System, early: seq<Step>, later: seq<Step>, c: Case, part: Part)
    requires FirstCommit(s, early, c, part).Some?
    ensures FirstCommit(s, early + later, c, part) == FirstCommit(s, early, c, part)
  {
    if later == [] {
      assert early + later == early;
    } else {
      var all := early + later;
      assert all[..|all| - 1] == early + later[..|later| - 1];
      FirstCommitIsFirst(s, early, later[..|later| - 1], c, part);
    }
  }

  /**
   In every run each row leaves its awaiting state at most once. If the calls are coherent,
   the two leave it together, for one of the two outcomes, and stay there.
   */
  lemma DecidedOnce(s: System, early: seq<Step>, later: seq<Step>, c: Case)
    requires Initial(s) && CaseIn(s.db, c) && Pair(s.db, c) == Outcome(None)
    ensures CaseIn(Exec(s, early).db, c) && CaseIn(Exec(s, early + later).db, c)
    ensures
      var mid, end := Pair(Exec(s, early).db, c), Pair(Exec(s, early + later).db, c);
      && (mid.0 != ManualApprovalRequired ==> end.0 == mid.0)
      && (mid.1 != ManualApprovalRequired ==> end.1 == mid.1)
      && (CoherentSteps(early, c) && mid != Outcome(None) ==>
            (mid == Outcome(Some(Approve)) || mid == Outcome(Some(Reject))) && end == mid)
  {
    RowsFollowFirstCommits(s, early, c);
    RowsFollowFirstCommits(s, early + later, c);
    forall part | FirstCommit(s, early, c, part).Some?
      ensures FirstCommit(s, early + later, c, part) == FirstCommit(s, early, c, part)
    {
      FirstCommitIsFirst(s, early, later, c, part);
    }
    if CoherentSteps(early, c) {
      FirstCommitWins(s, early, c);
    }
  }

  /**
   Coherence is exactly what one finaliser needs: it moves an awaiting pair to its outcome if
   and only if it finds both rows, and keeps the pair whole if and only if it finds both or
   neither. A decided pair it leaves alone, whatever it names.
   */
  lemma FinalizeMovesPairIff(db: Db, call: Call, v: Verdict, resolves: bool, c: Case)
    requires CaseIn(db, c)
    ensures CaseIn(Finalize(db, call, v, resolves), c)
    ensures Pair(db, c) == Outcome(None) ==>
      && (Pair(Finalize(db, call, v, resolves), c) == Outcome(Some(v)) <==> NamesTask(call, c) && NamesRequest(call, c))
      && (Pair(Finalize(db, call, v, resolves), c) == Outcome(None) <==> !NamesTask(call, c) && !NamesRequest(call, c))
      && (Whole(Pair(Finalize(db, call, v, resolves), c)) <==> Coherent(call, c))
    ensures forall w :: Pair(db, c) == Outcome(Some(w)) ==>
      Pair(Finalize(db, call, v, resolves), c) == Pair(db, c)
  {
  }

  /**
   A call that finds the request and misses the task moves the request alone: one on another
   task type of the same execution, one whose request still names an earlier execution, or one
   with the empty task type that the scheduler passes for a deadline of an earlier execution.
   */
  lemma MissedTaskMovesRequestAlone(db: Db, call: Call, v: Verdict, resolves: bool, c: Case)
    requires CaseIn(db, c) && Pair(db, c) == Outcome(None) && NamesRequest(call, c) && !NamesTask(call, c)
    ensures CaseIn(Finalize(db, call, v, resolves), c)
    ensures Pair(Finalize(db, call, v, resolves), c) == (ManualApprovalRequired, RequestOutcome(v))
  {
  }

  /** The query context the scheduler makes for SLA breaches. */
  const SCHEDULER := QueryContext(Some(User("", "", {})))

  /** It covers only unowned requests. */
  lemma SchedulerContextScope(owner: Owner)
    ensures SCHEDULER.Scopes(owner) <==> owner.userID == ""
  {
  }

  /** A deadline left over from an earlier execution approves the request while its task awaits a vote. */
  lemma LeftoverDeadlineApproves() returns (s: System, steps: seq<Step>, c: Case)
    ensures Initial(s) && CaseIn(s.db, c) && Pair(s.db, c) == Outcome(None)
    ensures CaseIn(Exec(s, steps).db, c) && Pair(Exec(s, steps).db, c) == (ManualApprovalRequired, Pending)
  {
    var policy := Policy(1, [], ["ann"], false, 0, NoTimeoutAction);
    c := Case("task2", "review", "exec2", "req", Owner("", "org"), policy);
    var db := Db([], map[c.task := TaskRow(c.execution, c.taskType, ManualApprovalRequired)], map[],
                 map[c.request := RequestRow(c.owner, ManualApprovalRequired)],
                 [Deadline("old", "task1", c.request, 0, AutoApprove, false, false)]);
    s := System(db, map[]);
    var breach := Call(Snapshot(c.request, c.execution, ManualApprovalRequired), SCHEDULER, "", "task1",
                       BySla("old", AutoApprove));
    var s1 := Apply(s, Begin(0, breach));
    steps := [Begin(0, breach), Proceed(0, true)];
    assert steps[..1] == [Begin(0, breach)] && [Begin(0, breach)][..0] == [];
    assert Exec(s, [Begin(0, breach)]) == s1;
    assert Exec(s, steps) == Apply(s1, Proceed(0, true));
    MissedTaskMovesRequestAlone(db, breach, Approve, true, c);
  }

  /******* The job execution row *******/

  /** This step commits a rejection that names the job execution. */
  ghost predicate RejectsExecution(s: System, step: Step, execution: string) {
    && step.Proceed? && step.id in s.calls && s.calls[step.id].pc.Deciding?
    && s.calls[step.id].pc.verdict == Reject && s.calls[step.id].call.request.execution == execution
  }

  /** Some rejection that names the job execution was committed, first or not. */
  ghost predicate AnyRejection(s: System, steps: seq<Step>, execution: string) {
    steps != [] &&
    (|| AnyRejection(s, steps[..|steps| - 1], execution)
     || RejectsExecution(Exec(s, steps[..|steps| - 1]), steps[|steps| - 1], execution))
  }

  lemma StepOnExecution(s: System, step: Step, execution: string)
    requires execution in s.db.executions && s.db.executions[execution] in {ManualApprovalRequired, Failed}
    ensures execution in Apply(s, step).db.executions
    ensures Apply(s, step).db.executions[execution] ==
            if RejectsExecution(s, step, execution) then Failed else s.db.executions[execution]
  {
    if step.Proceed? && step.id in s.calls && !s.calls[step.id].pc.Deciding? {
      AdvanceRows(s.db, s.calls[step.id].call, s.calls[step.id].pc, step.resolves);
    }
  }

  /**
   In every run the job execution fails if and only if some rejection that names it is
   committed, even one that comes after an approval: approving leaves its guard state in place.
   */
  lemma {:induction false} ExecutionFollowsAnyRejection(s: System, steps: seq<Step>, execution: string)
    requires execution in s.db.executions && s.db.executions[execution] == ManualApprovalRequired
    ensures execution in Exec(s, steps).db.executions
    ensures Exec(s, steps).db.executions[execution] ==
            if AnyRejection(s, steps, execution) then Failed else ManualApprovalRequired
  {
    if steps != [] {
      var init, last := steps[..|steps| - 1], steps[|steps| - 1];
      ExecutionFollowsAnyRejection(s, init, execution);
      StepOnExecution(Exec(s, init), last, execution);
    }
  }

  /** An approved task and request whose job execution has failed. */
  ghost predicate Split(db: Db, c: Case)
    requires CaseIn(db, c) && c.execution in db.executions
  {
    Pair(db, c) == (Completed, Pending) && db.executions[c.execution] == Failed
  }

  /** In every run the case is split exactly when both rows were approved first and some rejection was committed too. */
  lemma LateRejectionSplitsCase(s: System, steps: seq<Step>, c: Case)
    requires CaseIn(s.db, c) && Pair(s.db, c) == Outcome(None)
    requires c.execution in s.db.executions && s.db.executions[c.execution] == ManualApprovalRequired
    ensures CaseIn(Exec(s, steps).db, c) && c.execution in Exec(s, steps).db.executions
    ensures Split(Exec(s, steps).db, c) <==>
            && FirstCommit(s, steps, c, TaskPart) == Some(Approve)
            && FirstCommit(s, steps, c, RequestPart) == Some(Approve)
            && AnyRejection(s, steps, c.execution)
  {
    RowsFollowFirstCommits(s, steps, c);
    ExecutionFollowsAnyRejection(s, steps, c.execution);
  }

  /**
   What to look for before a rejection: it splits the case if and only if it names the
   execution, task and request are approved, and the execution row still awaits approval.
   */
  lemma RejectionSplitsExactly(db: Db, call: Call, resolves: bool, c: Case)
    requires CaseIn(db, c) && c.execution in db.executions && !Split(db, c)
    ensures
      var db' := Finalize(db, call, Reject, resolves);
      && CaseIn(db', c) && c.execution in db'.executions
      && (Split(db', c) <==>
            && call.request.execution == c.execution && Pair(db, c) == (Completed, Pending)
            && db.executions[c.execution] == ManualApprovalRequired)
  {
  }

  /******* Runs that a single vote makes *******/

  lemma Extend(s: System, steps: seq<Step>, step: Step) returns (steps': seq<Step>)
    ensures steps' == steps + [step] && Exec(s, steps') == Apply(Exec(s, steps), step)
  {
    steps' := steps + [step];
    assert steps'[..|steps|] == steps;
  }

  /** A vote that will be saved: checked, the voter's first, and with a comment if it rejects. */
  ghost predicate Savable(db: Db, call: Call) {
    && call.origin.ByVote? && Screen(call).None? && call.request.id != ""
    && !HasVoted(db.votes, call.task, call.origin.voter)
    && !(call.origin.decision == Rejected && Blank(call.origin.comments))
  }

  /** Only this call begins in the steps, and none dies. */
  ghost predicate Only(steps: seq<Step>, call: Call) {
    forall step :: step in steps ==> (step.Begin? && step.call == call) || step.Proceed?
  }

  lemma SavesVote(s: System, id: nat, call: Call) returns (steps: seq<Step>)
    requires id !in s.calls && Savable(s.db, call)
    ensures Only(steps, call)
    ensures Exec(s, steps) ==
            System(s.db.(votes := s.db.votes + [VoteRow(call)]), s.calls[id := Activity(call, Counting)])
  {
    steps := Extend(s, [], Begin(id, call));
    assert Exec(s, steps).calls == s.calls[id := Activity(call, Checking)];
    steps := Extend(s, steps, Proceed(id, true));
    assert Exec(s, steps).calls == s.calls[id := Activity(call, Saving)];
    steps := Extend(s, steps, Proceed(id, true));
    assert Exec(s, steps).calls == s.calls[id := Activity(call, Counting)];
  }

  lemma EvaluatesVotes(s: System, steps: seq<Step>, id: nat) returns (steps': seq<Step>)
    requires var end := Exec(s, steps);
             id in end.calls && end.calls[id].call.origin.ByVote? && end.calls[id].pc.Counting?
    ensures forall step :: step in steps' ==> step in steps || step.Proceed?
    ensures
      var end := Exec(s, steps);
      var call, votes := end.calls[id].call, end.db.votes;
      Exec(s, steps') ==
        System(end.db, end.calls[id := Activity(call,
          Decide(call, Count(votes, call.task, Approved), Count(votes, call.task, Rejected), GetVotes(votes, call.task)))])
  {
    var end := Exec(s, steps);
    var call, votes := end.calls[id].call, end.db.votes;
    var a, r := Count(votes, call.task, Approved), Count(votes, call.task, Rejected);
    var pc := Decide(call, a, r, GetVotes(votes, call.task));
    steps' := Extend(s, steps, Proceed(id, true));
    assert Exec(s, steps') == System(end.db, end.calls[id := Activity(call, Listing(a, r))]);
    steps' := Extend(s, steps', Proceed(id, true));
    assert Exec(s, steps').calls == end.calls[id := Activity(call, pc)];
  }

  lemma CommitsApproval(s: System, vote: Call, c: Case)
    requires 0 in s.calls && s.calls[0].call == vote && s.calls[0].pc.Deciding? && s.calls[0].pc.verdict == Approve
    requires CaseIn(s.db, c) && Pair(s.db, c) == Outcome(None)
    requires vote.origin.ByVote? && NamesTask(vote, c) && NamesRequest(vote, c)
    ensures
      var s' := Apply(s, Proceed(0, true));
      && CaseIn(s'.db, c) && Pair(s'.db, c) == (Completed, Pending) && s'.db.executions == s.db.executions
      && forall id :: id in s.calls && id != 0 ==> id in s'.calls && s'.calls[id] == s.calls[id]
  {
    FinalizeMovesPairIff(s.db, vote, Approve, true, c);
    assert Finalize(s.db, vote, Approve, true).executions == s.db.executions;
  }

  /** An approval is about to commit; an automatic rejection starts now and commits after it. */
  lemma BreachAfterCommit(s: System, steps: seq<Step>, c: Case, vote: Call, breach: Call) returns (steps': seq<Step>)
    requires
      var end := Exec(s, steps);
      && 0 in end.calls && end.calls[0].call == vote && end.calls[0].pc.Deciding? && end.calls[0].pc.verdict == Approve
      && 1 !in end.calls && CaseIn(end.db, c) && Pair(end.db, c) == Outcome(None)
      && c.execution in end.db.executions && end.db.executions[c.execution] == ManualApprovalRequired
    requires vote.origin.ByVote? && NamesTask(vote, c) && NamesRequest(vote, c)
    requires breach.origin.BySla? && breach.origin.action == AutoReject && breach.request.execution == c.execution
    ensures forall step :: step in steps' && step.Begin? ==> step in steps || step.call == breach
    ensures CaseIn(Exec(s, steps').db, c) && c.execution in Exec(s, steps').db.executions
    ensures Split(Exec(s, steps').db, c)
  {
    steps' := Extend(s, steps, Begin(1, breach));
    var waiting := Exec(s, steps');
    assert waiting.calls[1] == Activity(breach, Deciding(Reject, NO_STATUS));
    CommitsApproval(waiting, vote, c);
    steps' := Extend(s, steps', Proceed(0, true));
    var approved := Exec(s, steps').db;
    steps' := Extend(s, steps', Proceed(1, true));
    assert Exec(s, steps').db == Finalize(approved, breach, Reject, true);
    RejectionSplitsExactly(approved, breach, true, c);
  }

  /**
   The split happens: a vote reaches the quorum, an automatic rejection starts before the
   approval commits, and commits after it.
   */
  lemma BreachAfterApprovalSplits(s: System, c: Case, vote: Call, breach: Call) returns (steps: seq<Step>)
    requires Initial(s) && CaseIn(s.db, c) && Pair(s.db, c) == Outcome(None)
    requires c.execution in s.db.executions && s.db.executions[c.execution] == ManualApprovalRequired
    requires Savable(s.db, vote) && NamesTask(vote, c) && NamesRequest(vote, c)
    requires var votes := s.db.votes + [VoteRow(vote)];
             var a, r := Count(votes, vote.task, Approved), Count(votes, vote.task, Rejected);
             QuorumReached(a, vote.origin.policy) && !IsRejected(a, r, vote.origin.policy)
    requires breach.origin.BySla? && breach.origin.action == AutoReject
    requires breach.request.execution == c.execution
    ensures forall step :: step in steps && step.Begin? ==> step.call in {vote, breach}
    ensures CaseIn(Exec(s, steps).db, c) && c.execution in Exec(s, steps).db.executions
    ensures Split(Exec(s, steps).db, c)
  {
    steps := SavesVote(s, 0, vote);
    steps := EvaluatesVotes(s, steps, 0);
    steps := BreachAfterCommit(s, steps, c, vote, breach);
  }

  /** Such a case: one approval of one listed user, and a deadline that rejects. */
  lemma SplittableCase() returns (s: System, c: Case, vote: Call, breach: Call, steps: seq<Step>)
    ensures Initial(s) && CaseIn(s.db, c) && Pair(s.db, c) == Outcome(None)
    ensures CoherentSteps(steps, c) && vote.origin.ByVote? && breach.qc == SCHEDULER
    ensures CaseIn(Exec(s, steps).db, c) && c.execution in Exec(s, steps).db.executions
    ensures Split(Exec(s, steps).db, c)
  {
    var policy := Policy(1, [], ["ann"], false, 0, NoTimeoutAction);
    c := Case("task", "review", "exec", "req", Owner("", "org"), policy);
    var request := Snapshot(c.request, c.execution, ManualApprovalRequired);
    s := System(Db([], map[c.task := TaskRow(c.execution, c.taskType, ManualApprovalRequired)],
                   map[c.execution := ManualApprovalRequired],
                   map[c.request := RequestRow(c.owner, ManualApprovalRequired)],
                   [Deadline("due", c.task, c.request, 0, AutoReject, false, false)]), map[]);
    vote := Call(request, QueryContext(Some(User("ann", "org", {}))), c.taskType, c.task,
                 ByVote(Some(policy), "ann", Approved, "", 0));
    breach := Call(request, SCHEDULER, c.taskType, c.task, BySla("due", AutoReject));
    assert policy.allowedUsers[0] == "ann";
    CountSnoc([], VoteRow(vote), c.task, Approved);
    CountSnoc([], VoteRow(vote), c.task, Rejected);
    steps := BreachAfterApprovalSplits(s, c, vote, breach);
  }

  /******* Decisions by vote are justified, and do not contradict each other *******/

  /** The transaction that a vote is about to commit is justified by the table as it is now. */
  lemma CommitJustified(s: System, steps: seq<Step>, id: nat)
    requires Initial(s)
    requires
      var end := Exec(s, steps);
      id in end.calls && end.calls[id].pc.Deciding? && end.calls[id].call.origin.ByVote?
    ensures
      var end := Exec(s, steps);
      var call, policy := end.calls[id].call, end.calls[id].call.origin.policy;
      var a, r := Count(end.db.votes, call.task, Approved), Count(end.db.votes, call.task, Rejected);
      && Decisive(a, r, policy)
      && (end.calls[id].pc.verdict == Approve ==> QuorumReached(a, policy))
      && (end.calls[id].pc.verdict == Reject ==>
            && r > 0
            && (policy.Some? && policy.value.allowedUsers != [] && a + r <= |policy.value.allowedUsers| ==>
                  IsRejected(a, r, policy)))
  {
    RunKeepsSystemOk(s, steps);
    var end := Exec(s, steps);
    var act := end.calls[id];
    assert ActivityOk(end.db, act);
    DecisiveStays(act.pc.status.approvals, act.pc.status.rejections,
                  Count(end.db.votes, act.call.task, Approved), Count(end.db.votes, act.call.task, Rejected),
                  act.call.origin.policy);
  }

  /** A list of users and no roles: the pool of voters is known. */
  ghost predicate PooledPolicy(policy: Policy) {
    policy.allowedUsers != [] && policy.allowedRoles == []
  }

  /** If the context's user is listed, so is the ID the vote is cast under. */
  ghost predicate Vouched(call: Call, policy: Policy)
    requires call.origin.ByVote?
  {
    call.qc.UserID() in policy.allowedUsers ==> call.origin.voter in policy.allowedUsers
  }

  /** A vote on the case, under its policy and an ID that is vouched for. */
  ghost predicate VouchedVote(call: Call, c: Case) {
    && call.origin.ByVote? && call.task == c.task && call.origin.policy == Some(c.policy)
    && Vouched(call, c.policy)
  }

  ghost predicate VouchedVotes(steps: seq<Step>, c: Case) {
    forall step :: step in steps && step.Begin? && step.call.origin.ByVote? && step.call.task == c.task ==>
      VouchedVote(step.call, c)
  }

  ghost predicate VouchedCalls(s: System, c: Case) {
    forall id :: id in s.calls && s.calls[id].call.origin.ByVote? && s.calls[id].call.task == c.task ==>
      VouchedVote(s.calls[id].call, c)
  }

  /** Being vouched for is exactly what an authorised vote of a pooled policy needs to be a listed user's. */
  lemma AuthorizedIsListed(call: Call, policy: Policy)
    requires PooledPolicy(policy) && call.origin.ByVote? && Screen(call).None? && call.origin.policy == Some(policy)
    ensures call.origin.voter in policy.allowedUsers <==> Vouched(call, policy)
  {
  }

  /**
   The callers vouch for every ID: with authentication the vote is cast under the user's own
   ID, and without it the context has no user. A policy's list has no empty entry.
   */
  lemma CallersVouch(call: Call, policy: Policy)
    requires call.origin.ByVote? && "" !in policy.allowedUsers
    requires call.qc.UserID() == "" || call.origin.voter == call.qc.UserID()
    ensures Vouched(call, policy)
  {
  }

  lemma StepKeepsPool(s: System, step: Step, c: Case)
    requires SystemOk(s) && PooledPolicy(c.policy) && VouchedCalls(s, c)
    requires VouchedVotes([step], c)
    requires Pooled(s.db.votes, c.task, c.policy.allowedUsers)
    ensures VouchedCalls(Apply(s, step), c)
    ensures Pooled(Apply(s, step).db.votes, c.task, c.policy.allowedUsers)
  {
    assert step in [step];
    if step.Proceed? && step.id in s.calls {
      var act := s.calls[step.id];
      assert ActivityOk(s.db, act);
      AdvanceVotes(s.db, act.call, act.pc, step.resolves);
      if act.pc.Saving? && act.call.origin.ByVote? {
        InsertVoteKeeps(s.db.votes, VoteRow(act.call));
        if act.call.task == c.task {
          AuthorizedIsListed(act.call, c.policy);
        }
      }
    }
  }

  lemma {:induction false} PoolKept(s: System, steps: seq<Step>, c: Case)
    requires Initial(s) && PooledPolicy(c.policy) && VouchedVotes(steps, c)
    requires Pooled(s.db.votes, c.task, c.policy.allowedUsers)
    ensures VouchedCalls(Exec(s, steps), c)
    ensures Pooled(Exec(s, steps).db.votes, c.task, c.policy.allowedUsers)
  {
    if steps != [] {
      var init, last := steps[..|steps| - 1], steps[|steps| - 1];
      assert last in steps && forall step :: step in init ==> step in steps;
      PoolKept(s, init, c);
      RunKeepsSystemOk(s, init);
      StepKeepsPool(Exec(s, init), last, c);
    }
  }

  /** The verdict was put to commit by a vote on the case, somewhere in the run. */
  ghost predicate IssuedByVote(s: System, steps: seq<Step>, c: Case, v: Verdict) {
    exists k :: 0 <= k < |steps| && CommitsByVote(Exec(s, steps[..k]), steps[k], c, v)
  }

  ghost predicate CommitsByVote(s: System, step: Step, c: Case, v: Verdict) {
    && step.Proceed? && step.id in s.calls && s.calls[step.id].pc.Deciding?
    && s.calls[step.id].pc.verdict == v
    && s.calls[step.id].call.origin.ByVote? && s.calls[step.id].call.task == c.task
  }

  /** What the table shows once a verdict by vote is put to commit. */
  ghost predicate Shows(votes: seq<Vote>, c: Case, v: Verdict) {
    match v
    case Approve => Count(votes, c.task, Approved) >= c.policy.minApprovals
    case Reject =>
      if c.policy.requireUnanimous then Count(votes, c.task, Rejected) > 0
      else |c.policy.allowedUsers| - Count(votes, c.task, Rejected) < c.policy.minApprovals
  }

  /** A single rejection must not be enough while a quorum of the others is still possible. */
  ghost predicate OneVerdictOnly(policy: Policy) {
    policy.requireUnanimous ==> |Members(policy.allowedUsers)| <= policy.minApprovals
  }

  lemma CommitShows(s: System, step: Step, c: Case, v: Verdict)
    requires SystemOk(s) && PooledPolicy(c.policy) && VouchedCalls(s, c)
    requires CommitsByVote(s, step, c, v)
    ensures Shows(s.db.votes, c, v)
  {
    assert ActivityOk(s.db, s.calls[step.id]);
  }

  lemma IssuedShows(s: System, steps: seq<Step>, c: Case, v: Verdict)
    requires Initial(s) && PooledPolicy(c.policy) && VouchedVotes(steps, c)
    requires Pooled(s.db.votes, c.task, c.policy.allowedUsers)
    requires IssuedByVote(s, steps, c, v)
    ensures Shows(Exec(s, steps).db.votes, c, v)
  {
    var k :| 0 <= k < |steps| && CommitsByVote(Exec(s, steps[..k]), steps[k], c, v);
    assert forall step :: step in steps[..k] ==> step in steps;
    PoolKept(s, steps[..k], c);
    RunKeepsSystemOk(s, steps[..k]);
    CommitShows(Exec(s, steps[..k]), steps[k], c, v);
    FirstVoteStays(s, steps, k);
    CountPrefix(Exec(s, steps[..k]).db.votes, Exec(s, steps).db.votes, c.task, Approved);
    CountPrefix(Exec(s, steps[..k]).db.votes, Exec(s, steps).db.votes, c.task, Rejected);
  }

  /**
   For pooled policies no interleaving issues both an approval and a rejection by vote, unless
   the policy is unanimous and its quorum less than the list.
   */
  lemma VotesNeverContradict(s: System, steps: seq<Step>, c: Case)
    requires Initial(s) && PooledPolicy(c.policy) && OneVerdictOnly(c.policy) && VouchedVotes(steps, c)
    requires Pooled(s.db.votes, c.task, c.policy.allowedUsers)
    ensures !(IssuedByVote(s, steps, c, Approve) && IssuedByVote(s, steps, c, Reject))
  {
    if IssuedByVote(s, steps, c, Approve) && IssuedByVote(s, steps, c, Reject) {
      IssuedShows(s, steps, c, Approve);
      IssuedShows(s, steps, c, Reject);
      PoolKept(s, steps, c);
      RunKeepsSystemOk(s, steps);
      var votes, users := Exec(s, steps).db.votes, c.policy.allowedUsers;
      CountsAreVoters(votes, c.task);
      SubsetSize(Voters(votes, c.task), Members(users));
      ListSize(users);
      assert false;
    }
  }

  /******* Deadlines *******/

  lemma StepKeepsDeadlines(s: System, step: Step)
    ensures DeadlinesKept(s.db.deadlines, Apply(s, step).db.deadlines)
  {
    if step.Proceed? && step.id in s.calls {
      AdvanceDeadlines(s.db, s.calls[step.id].call, s.calls[step.id].pc, step.resolves);
    }
  }

  lemma KeptTransitive(a: seq<Deadline>, b: seq<Deadline>, c: seq<Deadline>)
    requires DeadlinesKept(a, b) && DeadlinesKept(b, c)
    ensures DeadlinesKept(a, c)
  {
    forall i | 0 <= i < |a|
      ensures Later(a[i], c[i])
    {
      assert Later(a[i], b[i]) && Later(b[i], c[i]);
    }
  }

  lemma {:induction false} DeadlinesOnlyGrow(s: System, steps: seq<Step>)
    ensures DeadlinesKept(s.db.deadlines, Exec(s, steps).db.deadlines)
  {
    if steps != [] {
      var before := Exec(s, steps[..|steps| - 1]);
      DeadlinesOnlyGrow(s, steps[..|steps| - 1]);
      StepKeepsDeadlines(before, steps[|steps| - 1]);
      KeptTransitive(s.db.deadlines, before.db.deadlines, Exec(s, steps).db.deadlines);
    }
  }

  /** A deadline once resolved or escalated is never returned as breached again. */
  lemma HandledDeadlineNeverBreached(s: System, steps: seq<Step>, k: nat, d: Deadline, now: int, limit: nat)
    requires Initial(s) && k <= |steps|
    requires d in Exec(s, steps[..k]).db.deadlines && (d.resolved || d.escalated)
    ensures forall e :: e in FindBreached(Exec(s, steps).db.deadlines, now, limit) ==> e.id != d.id
  {
    var mid, end := Exec(s, steps[..k]), Exec(s, steps);
    ExecConcat(s, steps[..k], steps[k..]);
    assert steps == steps[..k] + steps[k..];
    DeadlinesOnlyGrow(mid, steps[k..]);
    RunKeepsSystemOk(s, steps);
    FindBreachedOnlyOpen(end.db.deadlines, now, limit);
    var i :| 0 <= i < |mid.db.deadlines| && mid.db.deadlines[i] == d;
    assert Later(d, end.db.deadlines[i]);
    forall e | e in FindBreached(end.db.deadlines, now, limit)
      ensures e.id != d.id
    {
      var j :| 0 <= j < |end.db.deadlines| && end.db.deadlines[j] == e;
      assert j != i;
    }
  }

  /** The last statement of a breach handler marks every row of its deadline. */
  lemma BreachMarksDeadline(db: Db, call: Call, pc: Pc, resolves: bool)
    requires call.origin.BySla? && (pc.Resolving? || pc.Escalating?)
    ensures forall d :: d in Advance(db, call, pc, resolves).0.deadlines && d.id == call.origin.deadline ==>
      d.resolved || d.escalated
  {
    assert Advance(db, call, pc, resolves).0.deadlines ==
           if pc.Resolving? then MarkResolved(db.deadlines, call.origin.deadline)
           else MarkEscalated(db.deadlines, call.origin.deadline);
  }

  /** A committed decision closes the deadlines of its task and no others. */
  lemma CommitClosesDeadlines(db: Db, call: Call, v: Verdict, now: int, limit: nat)
    ensures forall d :: d in FindBreached(Finalize(db, call, v, true).deadlines, now, limit) ==>
      d.task != call.task && d in db.deadlines
    ensures forall d :: d in db.deadlines && d.task != call.task ==> d in Finalize(db, call, v, true).deadlines
  {
    FindBreachedOnlyOpen(Finalize(db, call, v, true).deadlines, now, limit);
    ResolveClosesExactly(db.deadlines, call.task, now);
  }

  lemma ResolveClosesExactly(deadlines: seq<Deadline>, task: string, now: int)
    ensures
      var ds := ResolveFor(deadlines, task);
      && (forall d :: d in ds && Open(d, now) ==> d.task != task && d in deadlines)
      && (forall d :: d in deadlines && d.task != task ==> d in ds)
  {
    var ds := ResolveFor(deadlines, task);
    forall d | d in deadlines && d.task != task
      ensures d in ds
    {
      var i :| 0 <= i < |deadlines| && deadlines[i] == d;
      assert ds[i] == d;
    }
    forall d | d in ds && Open(d, now)
      ensures d.task != task && d in deadlines
    {
      var i :| 0 <= i < |ds| && ds[i] == d;
      assert deadlines[i] in deadlines;
    }
  }
}
