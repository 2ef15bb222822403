/**
 The tables behind multi-party approval and the atomic database steps of its calls.

 A call of `CastVote` or `HandleSLABreach` is a sequence of separate database statements,
 so other calls may run in between. `Advance` is one such statement: it takes the tables
 and the call's program counter to the next ones.
 */
module ApprovalTables {
  import opened Options
  import opened Ordering
  import opened Strings
  import opened ApprovalVotes

  datatype RequestState =
    | Pending | Ready | Completed | Failed | Executing | Started | Cancelled | Paused
    | ManualApprovalRequired | OtherState(name: string)

  /** Owner columns of a job request. */
  datatype Owner = Owner(userID: string, organizationID: string)

  datatype User = User(id: string, organizationID: string, roles: set<string>)

  /** Who is asking; a context without a user is the system itself. */
  datatype QueryContext = QueryContext(user: Option<User>) {
    predicate IsAdmin() { user.None? || "Admin" in user.value.roles }

    function UserID(): string { if user.Some? then user.value.id else "" }

    /** AddOrgElseUserWhere(db, false): does the scope let a row of this owner through? */
    predicate Scopes(owner: Owner) {
      || IsAdmin()
      || (if user.value.organizationID != "" then owner.organizationID == user.value.organizationID
          else owner.userID == user.value.id)
    }
  }

  datatype TaskRow = TaskRow(execution: string, taskType: string, state: RequestState)
  datatype RequestRow = RequestRow(owner: Owner, state: RequestState)
  datatype Deadline = Deadline(
    id: string, task: string, request: string, at: int,
    action: TimeoutAction, resolved: bool, escalated: bool)

  datatype Db = Db(
    votes: seq<Vote>,
    tasks: map<string, TaskRow>,
    executions: map<string, RequestState>,
    requests: map<string, RequestRow>,
    deadlines: seq<Deadline>)

  /******* Repository *******/

  predicate HasVoted(votes: seq<Vote>, task: string, voter: string) {
    exists i :: 0 <= i < |votes| && votes[i].task == task && votes[i].voter == voter
  }

  /** INSERT ... ON CONFLICT (task_execution_id, voter_id) DO NOTHING */
  function InsertVote(votes: seq<Vote>, v: Vote): seq<Vote> {
    if HasVoted(votes, v.task, v.voter) then votes else votes + [v]
  }

  function VotesOf(votes: seq<Vote>, task: string): seq<Vote> {
    if votes == [] then []
    else
      var last := votes[|votes| - 1];
      VotesOf(votes[..|votes| - 1], task) + (if last.task == task then [last] else [])
  }

  function CastTime(v: Vote): int { v.votedAt }

  /** All votes on a task in the order they were cast. */
  function GetVotes(votes: seq<Vote>, task: string): seq<Vote> {
    OrderBy(VotesOf(votes, task), CastTime)
  }

  lemma CountSnoc(rows: seq<Vote>, row: Vote, task: string, d: Decision)
    ensures Count(rows + [row], task, d) ==
            Count(rows, task, d) + (if row.task == task && row.decision == d then 1 else 0)
  {
    assert (rows + [row])[..|rows|] == rows;
  }

  lemma {:induction false} CountInsertBy(rows: seq<Vote>, row: Vote, key: Vote -> int, task: string, d: Decision)
    ensures Count(InsertBy(rows, row, key), task, d) ==
            Count(rows, task, d) + (if row.task == task && row.decision == d then 1 else 0)
  {
    CountSnoc(rows, row, task, d);
    if rows != [] && key(rows[|rows| - 1]) > key(row) {
      var init, last := rows[..|rows| - 1], rows[|rows| - 1];
      CountInsertBy(init, row, key, task, d);
      CountSnoc(InsertBy(init, row, key), last, task, d);
    }
  }

  lemma {:induction false} CountOrderBy(rows: seq<Vote>, key: Vote -> int, task: string, d: Decision)
    ensures Count(OrderBy(rows, key), task, d) == Count(rows, task, d)
  {
    if rows != [] {
      CountOrderBy(rows[..|rows| - 1], key, task, d);
      CountInsertBy(OrderBy(rows[..|rows| - 1], key), rows[|rows| - 1], key, task, d);
    }
  }

  lemma {:induction false} CountVotesOf(votes: seq<Vote>, task: string, d: Decision)
    ensures Count(VotesOf(votes, task), task, d) == Count(votes, task, d)
  {
    if votes != [] {
      var init, last := votes[..|votes| - 1], votes[|votes| - 1];
      CountVotesOf(init, task, d);
      CountConcat(VotesOf(init, task), if last.task == task then [last] else [], task, d);
    }
  }

  /** CountVotes and the fold over GetVotes agree, decision by decision. */
  lemma CountVotesIsFold(votes: seq<Vote>, task: string, d: Decision)
    ensures Count(GetVotes(votes, task), task, d) == Count(votes, task, d)
  {
    CountOrderBy(VotesOf(votes, task), CastTime, task, d);
    CountVotesOf(votes, task, d);
  }

  function DueTime(d: Deadline): int { d.at }

  /** A deadline that FindBreachedDeadlines may return. */
  predicate Open(d: Deadline, now: int) {
    !d.resolved && !d.escalated && d.at < now
  }

  function OpenDeadlines(deadlines: seq<Deadline>, now: int): (r: seq<Deadline>)
    ensures forall d :: d in r <==> d in deadlines && Open(d, now)
  {
    if deadlines == [] then []
    else
      assert deadlines == deadlines[..|deadlines| - 1] + [deadlines[|deadlines| - 1]];
      OpenDeadlines(deadlines[..|deadlines| - 1], now) +
      (if Open(deadlines[|deadlines| - 1], now) then [deadlines[|deadlines| - 1]] else [])
  }

  function FindBreached(deadlines: seq<Deadline>, now: int, limit: nat): seq<Deadline> {
    var rows := OrderBy(OpenDeadlines(deadlines, now), DueTime);
    if limit < |rows| then rows[..limit] else rows
  }

  /** Only open rows are returned; all of them when the limit allows. */
  lemma FindBreachedOnlyOpen(deadlines: seq<Deadline>, now: int, limit: nat)
    ensures forall d :: d in FindBreached(deadlines, now, limit) ==> d in deadlines && Open(d, now)
    ensures |OpenDeadlines(deadlines, now)| <= limit ==>
      multiset(FindBreached(deadlines, now, limit)) == multiset(OpenDeadlines(deadlines, now))
  {
    var open := OpenDeadlines(deadlines, now);
    OrderByCorrect(open, DueTime);
    assert |multiset(OrderBy(open, DueTime))| == |multiset(open)|;
    forall d | d in FindBreached(deadlines, now, limit)
      ensures d in deadlines && Open(d, now)
    {
      assert d in multiset(OrderBy(open, DueTime));
    }
  }

  /** What the limit cuts off is due no earlier than what is returned. */
  lemma FindBreachedEarliest(deadlines: seq<Deadline>, now: int, limit: nat, d: Deadline, e: Deadline)
    requires d in FindBreached(deadlines, now, limit)
    requires e in deadlines && Open(e, now) && e !in FindBreached(deadlines, now, limit)
    ensures d.at <= e.at
  {
    var open := OpenDeadlines(deadlines, now);
    var all, rows := OrderBy(open, DueTime), FindBreached(deadlines, now, limit);
    OrderByCorrect(open, DueTime);
    assert e in multiset(all);
    var i :| 0 <= i < |rows| && rows[i] == d;
    var j :| 0 <= j < |all| && all[j] == e;
    assert j >= |rows|;
    assert DueTime(all[i]) <= DueTime(all[j]);
  }

  function ResolveFor(deadlines: seq<Deadline>, task: string): (r: seq<Deadline>)
    ensures |r| == |deadlines|
    ensures forall i :: 0 <= i < |r| ==>
      r[i] == if deadlines[i].task == task then deadlines[i].(resolved := true) else deadlines[i]
  {
    seq(|deadlines|, i requires 0 <= i < |deadlines| =>
      if deadlines[i].task == task && !deadlines[i].resolved
      then deadlines[i].(resolved := true) else deadlines[i])
  }

  function MarkResolved(deadlines: seq<Deadline>, id: string): (r: seq<Deadline>)
    ensures |r| == |deadlines|
  {
    seq(|deadlines|, i requires 0 <= i < |deadlines| =>
      if deadlines[i].id == id then deadlines[i].(resolved := true) else deadlines[i])
  }

  function MarkEscalated(deadlines: seq<Deadline>, id: string): (r: seq<Deadline>)
    ensures |r| == |deadlines|
  {
    seq(|deadlines|, i requires 0 <= i < |deadlines| =>
      if deadlines[i].id == id then deadlines[i].(escalated := true) else deadlines[i])
  }

  /** Rows under the ID carry a flag they need not have had; all others are the same, place by place. */
  ghost predicate Marked(ds: seq<Deadline>, ds': seq<Deadline>, id: string) {
    && |ds'| == |ds|
    && forall i :: 0 <= i < |ds| ==>
         if ds[i].id == id then ds'[i].id == id && (ds'[i].resolved || ds'[i].escalated) else ds'[i] == ds[i]
  }

  ghost predicate ClosesExactly(ds: seq<Deadline>, ds': seq<Deadline>, id: string) {
    forall now, d :: d in OpenDeadlines(ds', now) <==> d in OpenDeadlines(ds, now) && d.id != id
  }

  /** Marking the rows of an ID takes exactly those out of the open ones. */
  lemma MarkedClosesExactly(ds: seq<Deadline>, ds': seq<Deadline>, id: string)
    requires Marked(ds, ds', id)
    ensures ClosesExactly(ds, ds', id)
  {
    forall now, d
      ensures d in OpenDeadlines(ds', now) <==> d in OpenDeadlines(ds, now) && d.id != id
    {
      if d in OpenDeadlines(ds', now) {
        var i :| 0 <= i < |ds'| && ds'[i] == d;
        assert ds[i] == d;
      }
      if d in OpenDeadlines(ds, now) && d.id != id {
        var i :| 0 <= i < |ds| && ds[i] == d;
        assert ds'[i] == d;
      }
    }
  }

  /** SaveDeadline; the primary key refuses an ID already in the table. */
  function InsertDeadline(deadlines: seq<Deadline>, d: Deadline): seq<Deadline> {
    if exists i :: 0 <= i < |deadlines| && deadlines[i].id == d.id then deadlines
    else deadlines + [d]
  }

  /******* Calls *******/

  /** The caller's copy of a job request, possibly stale. */
  datatype Snapshot = Snapshot(id: string, execution: string, state: RequestState)

  datatype Origin =
    | ByVote(policy: Option<Policy>, voter: string, decision: Decision, comments: string, votedAt: int)
    | BySla(deadline: string, action: TimeoutAction)

  datatype Call = Call(
    request: Snapshot, qc: QueryContext, taskType: string, task: string, origin: Origin)

  datatype Error = Invalid | Conflict | Forbidden | DbFailure

  datatype Status = Status(
    approvals: int, rejections: int, minRequired: int,
    quorumReached: bool, rejected: bool, votes: seq<Vote>)

  datatype Reply = Voted(status: Status) | Handled | Refused(error: Error)

  datatype Verdict = Approve | Reject

  /** Where a call stands: the database statement it will issue next. */
  datatype Pc =
    | Checking
    | Reading
    | Saving
    | Counting
    | Listing(approvals: nat, rejections: nat)
    | Deciding(verdict: Verdict, status: Status)
    | Resolving
    | Escalating
    | Finished(reply: Reply)

  const SYNTHETIC_VOTER := "system:sla-timeout"

  predicate Authorized(qc: QueryContext, policy: Option<Policy>, voter: string) {
    if voter == SYNTHETIC_VOTER || policy.None? then false
    else
      var users, roles := policy.value.allowedUsers, policy.value.allowedRoles;
      || (users == [] && roles == [])
      || (exists i :: 0 <= i < |users| && (users[i] == voter || users[i] == qc.UserID()))
      || (qc.user.Some? && exists i :: 0 <= i < |roles| && roles[i] in qc.user.value.roles)
  }

  /** Everything CastVote checks before it touches the database. */
  function Screen(c: Call): Option<Error>
    requires c.origin.ByVote?
  {
    if c.taskType == "" || c.task == "" || c.origin.voter == "" then Some(Invalid)
    else if c.origin.decision.OtherDecision? then Some(Invalid)
    else if c.request.state != ManualApprovalRequired then Some(Conflict)
    else if !Authorized(c.qc, c.origin.policy, c.origin.voter) then Some(Forbidden)
    else None
  }

  const NO_STATUS := Status(0, 0, 0, false, false, [])

  function Start(c: Call): Pc {
    match c.origin
    case ByVote(_, _, _, _, _) =>
      var refusal := Screen(c);
      if refusal.Some? then Finished(Refused(refusal.value)) else Checking
    case BySla(_, AutoApprove) => Deciding(Approve, NO_STATUS)
    case BySla(_, AutoReject) => Deciding(Reject, NO_STATUS)
    case BySla(_, _) => Escalating
  }

  /** GetStatus: counts whatever is not an approval as a rejection. */
  function StatusOf(votes: seq<Vote>, task: string, policy: Option<Policy>): Status {
    var rows := GetVotes(votes, task);
    var a := Count(rows, task, Approved);
    var r := |rows| - a;
    Status(a, r, MinRequired(policy), QuorumReached(a, policy), IsRejected(a, r, policy), rows)
  }

  function TaskState(v: Verdict): RequestState { if v == Approve then Completed else Failed }

  function RequestOutcome(v: Verdict): RequestState { if v == Approve then Pending else Failed }

  /**
   The transaction of finalizeApproval or finalizeRejection: each UPDATE is guarded by the
   state it moves away from. A failure to resolve the deadlines is only logged, so
   `resolves` says whether that last UPDATE took effect.
   */
  function Finalize(db: Db, c: Call, v: Verdict, resolves: bool): Db {
    Db(
      db.votes,
      map id | id in db.tasks :: UpdatedTask(db.tasks[id], c, v),
      map id | id in db.executions :: UpdatedExecution(id, db.executions[id], c, v),
      map id | id in db.requests :: UpdatedRequest(id, db.requests[id], c, v),
      if resolves then ResolveFor(db.deadlines, c.task) else db.deadlines)
  }

  function UpdatedTask(row: TaskRow, c: Call, v: Verdict): TaskRow {
    if row.execution == c.request.execution && row.taskType == c.taskType &&
       row.state == ManualApprovalRequired
    then row.(state := TaskState(v)) else row
  }

  /** Approval leaves the job execution as it is; the scheduler resumes it. */
  function UpdatedExecution(id: string, state: RequestState, c: Call, v: Verdict): RequestState {
    if v == Reject && id == c.request.execution && state == ManualApprovalRequired then Failed else state
  }

  function UpdatedRequest(id: string, row: RequestRow, c: Call, v: Verdict): RequestRow {
    if id == c.request.id && c.qc.Scopes(row.owner) && row.state == ManualApprovalRequired
    then row.(state := RequestOutcome(v)) else row
  }

  function VoteRow(c: Call): Vote
    requires c.origin.ByVote?
  {
    Vote(c.task, c.request.id, c.origin.voter, c.origin.decision, c.origin.comments, c.origin.votedAt)
  }

  /** What CastVote does with the counts it has read. */
  function Decide(c: Call, a: nat, r: nat, rows: seq<Vote>): Pc
    requires c.origin.ByVote?
  {
    var policy := c.origin.policy;
    var status := Status(a, r, MinRequired(policy), false, false, rows);
    if IsRejected(a, r, policy) then Deciding(Reject, status.(rejected := true))
    else if QuorumReached(a, policy) then Deciding(Approve, status.(quorumReached := true))
    else Finished(Voted(status))
  }

  /** One database statement of a call that has nothing else to wait for. */
  function Advance(db: Db, c: Call, pc: Pc, resolves: bool): (Db, Pc) {
    match (pc, c.origin)
    case (Checking, ByVote(_, voter, decision, comments, _)) =>
      if HasVoted(db.votes, c.task, voter) then (db, Reading)
      else if decision == Rejected && Blank(comments) then (db, Finished(Refused(Invalid)))
      else (db, Saving)
    case (Reading, ByVote(policy, _, _, _, _)) =>
      (db, Finished(Voted(StatusOf(db.votes, c.task, policy))))
    case (Saving, ByVote(_, _, _, _, _)) =>
      if c.request.id == "" then (db, Finished(Refused(Invalid)))
      else (db.(votes := InsertVote(db.votes, VoteRow(c))), Counting)
    case (Counting, ByVote(_, _, _, _, _)) =>
      (db, Listing(Count(db.votes, c.task, Approved), Count(db.votes, c.task, Rejected)))
    case (Listing(a, r), ByVote(_, _, _, _, _)) =>
      (db, Decide(c, a, r, GetVotes(db.votes, c.task)))
    case (Deciding(v, status), ByVote(_, _, _, _, _)) =>
      (Finalize(db, c, v, resolves), Finished(Voted(status)))
    case (Deciding(v, _), BySla(_, _)) => (Finalize(db, c, v, resolves), Resolving)
    case (Resolving, BySla(id, _)) =>
      (db.(deadlines := MarkResolved(db.deadlines, id)), Finished(Handled))
    case (Escalating, BySla(id, _)) =>
      (db.(deadlines := MarkEscalated(db.deadlines, id)), Finished(Handled))
    case (_, _) => (db, pc)
  }

  /** Only the insert changes the vote table. */
  lemma AdvanceVotes(db: Db, c: Call, pc: Pc, resolves: bool)
    ensures Advance(db, c, pc, resolves).0.votes ==
            if pc.Saving? && c.origin.ByVote? && c.request.id != "" then InsertVote(db.votes, VoteRow(c))
            else db.votes
  {
  }

  /** Only the finalising transactions change task and request rows. */
  lemma AdvanceRows(db: Db, c: Call, pc: Pc, resolves: bool)
    requires !pc.Deciding?
    ensures
      var db' := Advance(db, c, pc, resolves).0;
      db'.tasks == db.tasks && db'.executions == db.executions && db'.requests == db.requests
  {
  }

  /** A row keeps its identity and due time, and its flags are never cleared. */
  ghost predicate Later(d: Deadline, d': Deadline) {
    && d'.id == d.id && d'.task == d.task && d'.at == d.at
    && (d.resolved ==> d'.resolved) && (d.escalated ==> d'.escalated)
  }

  ghost predicate DeadlinesKept(ds: seq<Deadline>, ds': seq<Deadline>) {
    |ds| <= |ds'| && forall i :: 0 <= i < |ds| ==> Later(ds[i], ds'[i])
  }

  lemma AdvanceDeadlines(db: Db, c: Call, pc: Pc, resolves: bool)
    ensures
      var ds' := Advance(db, c, pc, resolves).0.deadlines;
      |ds'| == |db.deadlines| && DeadlinesKept(db.deadlines, ds')
  {
  }

  /******* What every statement keeps *******/

  ghost predicate TablesOk(db: Db) {
    && Unique(db.votes) && WellDecided(db.votes)
    && forall i, j :: 0 <= i < j < |db.deadlines| ==> db.deadlines[i].id != db.deadlines[j].id
  }

  /** A voter's first vote on a task stays as it is. */
  lemma InsertVoteKeeps(votes: seq<Vote>, v: Vote)
    requires Unique(votes) && WellDecided(votes) && !v.decision.OtherDecision?
    ensures Unique(InsertVote(votes, v)) && WellDecided(InsertVote(votes, v))
    ensures votes <= InsertVote(votes, v) && HasVoted(InsertVote(votes, v), v.task, v.voter)
    ensures forall t, d :: Count(votes, t, d) <= Count(InsertVote(votes, v), t, d)
    ensures forall t :: t != v.task ==> Voters(InsertVote(votes, v), t) == Voters(votes, t)
    ensures Voters(InsertVote(votes, v), v.task) == Voters(votes, v.task) + {v.voter}
  {
    forall t, d
      ensures Count(votes, t, d) <= Count(InsertVote(votes, v), t, d)
    {
      CountConcat(votes, [v], t, d);
    }
    forall t
      ensures Voters(votes + [v], t) == Voters(votes, t) + (if v.task == t then {v.voter} else {})
    {
      VotersSnoc(votes, v, t);
    }
    if !HasVoted(votes, v.task, v.voter) {
      assert InsertVote(votes, v)[|votes|] == v;
    } else {
      var i :| 0 <= i < |votes| && votes[i].task == v.task && votes[i].voter == v.voter;
      assert votes[i] in votes;
    }
  }

  /** GetStatus and CastVote count the same when every stored decision is valid. */
  lemma {:induction false} StatusCounts(votes: seq<Vote>, task: string, policy: Option<Policy>)
    requires WellDecided(votes)
    ensures
      var status := StatusOf(votes, task, policy);
      && status.approvals == Count(votes, task, Approved)
      && status.rejections == Count(votes, task, Rejected)
  {
    CountVotesIsFold(votes, task, Approved);
    RowCount(votes, task);
    OrderByCorrect(VotesOf(votes, task), CastTime);
    assert |multiset(GetVotes(votes, task))| == |multiset(VotesOf(votes, task))|;
  }

  lemma {:induction false} RowCount(votes: seq<Vote>, task: string)
    requires WellDecided(votes)
    ensures |VotesOf(votes, task)| == Count(votes, task, Approved) + Count(votes, task, Rejected)
  {
    if votes != [] {
      assert votes[|votes| - 1] in votes;
      RowCount(votes[..|votes| - 1], task);
    }
  }
}
