/**
 What the ant/queen protocol guarantees in every run: no accepted message is lost without
 a known cause, and no waiter is given another waiter's reply or left without one.
 */
module AntGuarantees {
  import opened Outbox
  import opened AntProtocol

  /******* Accepted messages *******/

  /** A send that reported success: the queen has handled the message, or it was buffered. */
  lemma AcceptedIsHandledOrStored(maxSize: int, ttl: int, steps: seq<Step>, call: nat)
    requires
      var s := Exec(Init(maxSize, ttl), steps);
      call in s.calls && s.calls[call].job.Sending? && s.calls[call].pc == Done(true)
    ensures
      var s := Exec(Init(maxSize, ttl), steps);
      Handled(s, s.calls[call].job.message) || Stored(s, s.calls[call].job.message)
  {
    RunKeepsInv(maxSize, ttl, steps);
    var s := Exec(Init(maxSize, ttl), steps);
    assert CallOk(s, s.calls[call]);
  }

  /** The step prunes the row because its time is up. */
  ghost predicate Expires(s: State, step: Step, row: Row) {
    && step.Go? && step.call in s.calls && s.calls[step.call].pc.Fetching?
    && (step.env.works || step.env.reached) && row.expiresAt <= Unix(step.env.now)
  }

  /** The step removes the row for a drain that has taken a reply to a frame carrying it. */
  ghost predicate Acknowledges(s: State, step: Step, row: Row) {
    && step.Go? && step.call in s.calls && step.env.works
    && s.calls[step.call].pc.Removing? && s.calls[step.call].pc.rows != []
    && s.calls[step.call].pc.rows[0] == row
    && s.calls[step.call].pc.reply.id in s.received
    && Genuine(s, Frame(s.calls[step.call].pc.reply.id, Publish(row.message)))
  }

  lemma OtherStepsKeepBuffer(s: State, step: Step)
    requires step.Go? && step.call in s.calls ==>
      var pc := s.calls[step.call].pc; !pc.Fetching? && !pc.Removing?
    ensures s.buffer.rows <= Apply(s, step).buffer.rows
  {
  }

  /** A buffered row leaves if and only if it expires or a reply to a frame carrying it was taken. */
  lemma RowLeavesExactly(s: State, step: Step, row: Row)
    requires Inv(s) && row in s.buffer.rows
    ensures row !in Apply(s, step).buffer.rows <==> Expires(s, step, row) || Acknowledges(s, step, row)
  {
    if step.Go? && step.call in s.calls && s.calls[step.call].pc.Fetching? {
      LiveMembers(s.buffer.rows, Unix(step.env.now));
    } else if step.Go? && step.call in s.calls && s.calls[step.call].pc.Removing? {
      assert CallOk(s, s.calls[step.call]);
      var rows := s.calls[step.call].pc.rows;
      assert rows[0] in s.stored && row in s.stored;
      WithoutIDMembers(s.buffer.rows, rows[0].id);
    } else {
      OtherStepsKeepBuffer(s, step);
    }
  }

  /** Neither in the buffer any more nor handled by the queen. */
  ghost predicate Lost(s: State, row: Row) {
    row in s.stored && row !in s.buffer.rows && !Handled(s, row.message)
  }

  /** In every run a stored row is lost exactly when it expired or left on an error frame, unhandled. */
  lemma LostExactly(maxSize: int, ttl: int, steps: seq<Step>, row: Row)
    ensures
      var s := Exec(Init(maxSize, ttl), steps);
      Lost(s, row) <==> (row in s.expired || row in s.dropped) && !Handled(s, row.message)
  {
    RunKeepsInv(maxSize, ttl, steps);
    var s := Exec(Init(maxSize, ttl), steps);
    assert row in s.expired || row in s.dropped ==> row in s.expired + s.dropped;
  }

  /** A drain never goes on to remove a row after an error frame. */
  ghost predicate DrainRepliesAreAcks(s: State, step: Step) {
    step.Go? && step.call in s.calls && s.calls[step.call].pc.Removing? ==>
      s.calls[step.call].pc.reply.kind != Error
  }

  ghost predicate NothingExpires(s: State, step: Step) {
    forall row :: row in s.buffer.rows ==> !Expires(s, step, row)
  }

  ghost predicate Calm(s: State, steps: seq<Step>) {
    steps != [] ==>
      && Calm(s, steps[..|steps| - 1])
      && DrainRepliesAreAcks(Exec(s, steps[..|steps| - 1]), steps[|steps| - 1])
      && NothingExpires(Exec(s, steps[..|steps| - 1]), steps[|steps| - 1])
  }

  lemma CalmStep(s: State, step: Step)
    requires DrainRepliesAreAcks(s, step) && NothingExpires(s, step)
    requires s.expired == {} && s.dropped == {}
    ensures Apply(s, step).expired == {} && Apply(s, step).dropped == {}
  {
  }

  lemma {:induction false} CalmRun(maxSize: int, ttl: int, steps: seq<Step>)
    requires Calm(Init(maxSize, ttl), steps)
    ensures Exec(Init(maxSize, ttl), steps).expired == {}
    ensures Exec(Init(maxSize, ttl), steps).dropped == {}
  {
    if steps != [] {
      CalmRun(maxSize, ttl, steps[..|steps| - 1]);
      CalmStep(Exec(Init(maxSize, ttl), steps[..|steps| - 1]), steps[|steps| - 1]);
    }
  }

  /**
   If all drain replies are acks and nothing expires, every message whose send succeeded is
   at every moment either handled by the queen or still in the buffer.
   */
  lemma NoMessageLost(maxSize: int, ttl: int, steps: seq<Step>, call: nat)
    requires Calm(Init(maxSize, ttl), steps)
    requires
      var s := Exec(Init(maxSize, ttl), steps);
      call in s.calls && s.calls[call].job.Sending? && s.calls[call].pc == Done(true)
    ensures
      var s := Exec(Init(maxSize, ttl), steps);
      var m := s.calls[call].job.message;
      Handled(s, m) || exists row :: row in s.buffer.rows && row.message == m
  {
    var s := Exec(Init(maxSize, ttl), steps);
    var m := s.calls[call].job.message;
    AcceptedIsHandledOrStored(maxSize, ttl, steps, call);
    CalmRun(maxSize, ttl, steps);
    if !Handled(s, m) {
      var row :| row in s.stored && row.message == m;
      LostExactly(maxSize, ttl, steps, row);
      assert row in s.buffer.rows;
    }
  }

  /******* The error frame that drainBuffer takes for an ack *******/

  const FINE := Env(0, 0, true, true)

  /** One more step at the end of a run. */
  lemma Extend(s: State, steps: seq<Step>, step: Step) returns (steps': seq<Step>, s': State)
    ensures steps' == steps + [step]
    ensures s' == Apply(Exec(s, steps), step) && Exec(s, steps') == s'
  {
    steps' := steps + [step];
    assert steps'[..|steps|] == steps;
    s' := Apply(Exec(s, steps), step);
  }

  /** The row is the only one stored, nothing is handled, and call 0 reported success. */
  ghost predicate Accepted(s: State, row: Row) {
    && 0 in s.calls && s.calls[0] == Call(Sending(row.message), Done(true))
    && s.buffer.rows == [row] && s.stored == {row} && s.expired == {} && s.handled == {} && s.slots == map[]
  }

  lemma BufferOne(m: Message) returns (steps: seq<Step>, row: Row)
    ensures
      var s := Exec(Init(1, SECOND), steps);
      && row.message == m && Accepted(s, row) && row.expiresAt > 0
      && s.calls.Keys == {0} && s.issued == [] && s.up == [] && s.pending == {}
  {
    var s := Init(1, SECOND);
    var s';
    steps, s' := Extend(s, [], Begin(0, Sending(m)));
    steps, s' := Extend(s, steps, Go(0, FINE));
    assert s'.calls[0].pc == Enqueueing;
    steps, s' := Extend(s, steps, Go(0, FINE));
    row := Row(1, m, Unix(0), Unix(SECOND));
    assert s'.buffer.rows == [row];
  }

  lemma DrainOne(steps: seq<Step>, row: Row) returns (steps': seq<Step>)
    requires
      var s := Exec(Init(1, SECOND), steps);
      Accepted(s, row) && row.expiresAt > 0 && s.calls.Keys == {0} && s.issued == [] && s.up == [] && s.pending == {}
    ensures
      var s := Exec(Init(1, SECOND), steps');
      && Accepted(s, row) && s.connected && 1 in s.calls && s.calls[1] == Call(Draining, Turning([row]))
      && s.issued == [] && s.up == [] && s.pending == {}
  {
    var start := Init(1, SECOND);
    var s;
    steps', s := Extend(start, steps, Connect);
    steps', s := Extend(start, steps', Begin(1, Draining));
    steps', s := Extend(start, steps', Go(1, FINE));
    assert s.calls[1].pc == Fetching;
    steps', s := Extend(start, steps', Go(1, FINE));
    assert [row][..0] == [] && Live([row], 0) == [row];
  }

  lemma PublishOne(steps: seq<Step>, row: Row) returns (steps': seq<Step>)
    requires
      var s := Exec(Init(1, SECOND), steps);
      && Accepted(s, row) && s.connected && 1 in s.calls && s.calls[1] == Call(Draining, Turning([row]))
      && s.issued == [] && s.up == [] && s.pending == {}
    ensures
      var s := Exec(Init(1, SECOND), steps');
      && Accepted(s, row) && |s.up| == 1 && s.pending == {0}
      && 1 in s.calls && s.calls[1] == Call(Draining, Waiting(Frame(0, Publish(row.message)), [row]))
  {
    var start := Init(1, SECOND);
    var s;
    steps', s := Extend(start, steps, Go(1, FINE));
    assert s.calls[1].pc == Registering(Frame(0, Publish(row.message)), [row]);
    steps', s := Extend(start, steps', Go(1, FINE));
    assert s.pending == {0} && s.slots == map[];
    steps', s := Extend(start, steps', Go(1, FINE));
  }

  lemma FailOne(steps: seq<Step>, row: Row) returns (steps': seq<Step>)
    requires
      var s := Exec(Init(1, SECOND), steps);
      && Accepted(s, row) && |s.up| == 1 && s.pending == {0}
      && 1 in s.calls && s.calls[1] == Call(Draining, Waiting(Frame(0, Publish(row.message)), [row]))
    ensures
      var s := Exec(Init(1, SECOND), steps');
      && Accepted(s, row)
      && 1 in s.calls && s.calls[1] == Call(Draining, Leaving(Frame(0, Publish(row.message)), [row], Got(Reply(0, Error))))
  {
    var start := Init(1, SECOND);
    var s;
    steps', s := Extend(start, steps, LoseUp(0));
    steps', s := Extend(start, steps', FailPending);
    assert 0 in s.slots && s.slots[0] == Reply(0, Error);
    steps', s := Extend(start, steps', Go(1, FINE));
    assert s.slots == map[];
  }

  lemma DropOne(steps: seq<Step>, row: Row) returns (steps': seq<Step>)
    requires
      var s := Exec(Init(1, SECOND), steps);
      && Accepted(s, row)
      && 1 in s.calls && s.calls[1] == Call(Draining, Leaving(Frame(0, Publish(row.message)), [row], Got(Reply(0, Error))))
    ensures
      var s := Exec(Init(1, SECOND), steps');
      && 0 in s.calls && s.calls[0] == Call(Sending(row.message), Done(true))
      && Lost(s, row) && s.expired == {}
  {
    var start := Init(1, SECOND);
    var s;
    steps', s := Extend(start, steps, Go(1, FINE));
    assert s.calls[1].pc == Removing(Reply(0, Error), [row]);
    WithoutIDMembers([row], row.id);
    steps', s := Extend(start, steps', Go(1, FINE));
    assert s.buffer.rows == WithoutID([row], row.id);
  }

  /**
   A run that loses a message although its send succeeded and nothing expired: the drain's
   frame is lost with the connection, and the error frame of triggerReconnect is taken for an
   ack, so the row is removed.
   */
  lemma ErrorFrameLosesMessage(m: Message) returns (steps: seq<Step>, row: Row)
    ensures
      var s := Exec(Init(1, SECOND), steps);
      && 0 in s.calls && s.calls[0] == Call(Sending(m), Done(true))
      && row.message == m && Lost(s, row) && s.expired == {}
  {
    steps, row := BufferOne(m);
    steps := DrainOne(steps, row);
    steps := PublishOne(steps, row);
    steps := FailOne(steps, row);
    steps := DropOne(steps, row);
  }

  /******* Replies *******/

  /** The step hands the waiter of frame `f` a reply. */
  ghost predicate Takes(s: State, step: Step, f: nat) {
    && step.Go? && step.call in s.calls && s.calls[step.call].pc.Waiting?
    && s.calls[step.call].pc.frame.id == f
    && Apply(s, step).calls[step.call].pc.Leaving? && Apply(s, step).calls[step.call].pc.answer.Got?
  }

  /** A waiter is only ever handed a reply to its own frame. */
  lemma ReplyIsOwn(maxSize: int, ttl: int, steps: seq<Step>, step: Step, f: nat)
    requires Takes(Exec(Init(maxSize, ttl), steps), step, f)
    ensures Apply(Exec(Init(maxSize, ttl), steps), step).calls[step.call].pc.answer.reply.id == f
    ensures f !in Exec(Init(maxSize, ttl), steps).received
    ensures f in Apply(Exec(Init(maxSize, ttl), steps), step).received
  {
    RunKeepsInv(maxSize, ttl, steps);
    var s := Exec(Init(maxSize, ttl), steps);
    assert CallOk(s, s.calls[step.call]);
  }

  lemma StepGrows(s: State, step: Step)
    ensures Grows(s, Apply(s, step))
  {
    if step.Go? && step.call in s.calls {
      AdvanceGrows(s, s.calls[step.call], step.env);
    }
  }

  lemma ExecSnoc(s: State, steps: seq<Step>, step: Step)
    ensures Exec(s, steps + [step]) == Apply(Exec(s, steps), step)
  {
    assert (steps + [step])[..|steps|] == steps;
  }

  lemma {:induction false} ExecConcat(s: State, first: seq<Step>, second: seq<Step>)
    ensures Exec(s, first + second) == Exec(Exec(s, first), second)
  {
    if second == [] {
      assert first + second == first;
    } else {
      var init, last := second[..|second| - 1], second[|second| - 1];
      ExecConcat(s, first, init);
      ExecSnoc(s, first + init, last);
      ExecSnoc(Exec(s, first), init, last);
      assert first + init + [last] == first + second && init + [last] == second;
    }
  }

  lemma {:induction false} RunGrows(s: State, steps: seq<Step>)
    ensures Grows(s, Exec(s, steps))
  {
    if steps != [] {
      RunGrows(s, steps[..|steps| - 1]);
      StepGrows(Exec(s, steps[..|steps| - 1]), steps[|steps| - 1]);
    }
  }

  /** In every run a waiter is handed at most one reply. */
  lemma RepliedOnce(maxSize: int, ttl: int, early: seq<Step>, first: Step, later: seq<Step>, second: Step, f: nat)
    requires Takes(Exec(Init(maxSize, ttl), early), first, f)
    ensures !Takes(Exec(Init(maxSize, ttl), early + [first] + later), second, f)
  {
    var s := Init(maxSize, ttl);
    ReplyIsOwn(maxSize, ttl, early, first, f);
    assert (early + [first])[..|early|] == early;
    assert f in Exec(s, early + [first]).received;
    ExecConcat(s, early + [first], later);
    RunGrows(Exec(s, early + [first]), later);
    if Takes(Exec(s, early + [first] + later), second, f) {
      ReplyIsOwn(maxSize, ttl, early + [first] + later, second, f);
      assert false;
    }
  }

  /** Whoever waits for frame `f` has a frame in its slot. */
  ghost predicate Answered(s: State, f: nat) {
    && f < |s.issued|
    && forall id :: id in s.calls && s.calls[id].pc.HasFrame() && s.calls[id].pc.frame.id == f ==>
         !s.calls[id].pc.Registering? && (f in s.slots || s.calls[id].pc.Leaving?)
  }

  lemma AdvanceKeepsAnswer(s: State, c: Call, env: Env, f: nat)
    requires c.pc.HasFrame() && c.pc.frame.id == f && !c.pc.Registering?
    requires f in s.slots || c.pc.Leaving?
    ensures
      var next := Advance(s, c, env);
      next.1.HasFrame() && next.1.frame.id == f ==>
        !next.1.Registering? && (f in next.0.slots || next.1.Leaving?)
  {
  }

  lemma GoKeepsAnswered(s: State, call: nat, env: Env, f: nat)
    requires Inv(s) && Answered(s, f) && call in s.calls
    ensures Answered(Apply(s, Go(call, env)), f)
  {
    var c := s.calls[call];
    var next := Advance(s, c, env);
    var s' := Apply(s, Go(call, env));
    assert CallOk(s, c);
    AdvanceGrows(s, c, env);
    AdvanceKeepsIds(s, c, env);
    if c.pc.HasFrame() && c.pc.frame.id == f {
      AdvanceKeepsAnswer(s, c, env, f);
      assert forall id :: id in s.calls && id != call ==> Apart(s.calls[id].pc, c.pc);
    } else {
      AdvanceTouchesOwn(s, c, env, f);
    }
  }

  lemma StepKeepsAnswered(s: State, step: Step, f: nat)
    requires Inv(s) && Answered(s, f)
    ensures Answered(Apply(s, step), f)
  {
    if step.Go? && step.call in s.calls {
      GoKeepsAnswered(s, step.call, step.env, f);
    }
  }

  lemma {:induction false} RunKeepsAnswered(s: State, steps: seq<Step>, f: nat)
    requires Inv(s) && Answered(s, f)
    ensures Inv(Exec(s, steps)) && Answered(Exec(s, steps), f)
  {
    if steps != [] {
      RunKeepsAnswered(s, steps[..|steps| - 1], f);
      StepKeepsInv(Exec(s, steps[..|steps| - 1]), steps[|steps| - 1]);
      StepKeepsAnswered(Exec(s, steps[..|steps| - 1]), steps[|steps| - 1], f);
    }
  }

  lemma FailPendingAnswers(s: State, f: nat)
    requires Inv(s) && f in s.pending
    ensures Answered(Apply(s, FailPending), f)
  {
    forall id | id in s.calls && s.calls[id].pc.HasFrame() && s.calls[id].pc.frame.id == f
      ensures !s.calls[id].pc.Registering?
    {
      assert CallOk(s, s.calls[id]);
    }
  }

  /**
   No waiter hangs: once triggerReconnect has failed the pending table, a waiter that was in
   it and still waits, however much later, has a frame in its slot.
   */
  lemma FailedWaiterHasFrame(maxSize: int, ttl: int, early: seq<Step>, later: seq<Step>, call: nat)
    requires
      var s := Exec(Init(maxSize, ttl), early);
      var s' := Exec(Init(maxSize, ttl), early + [FailPending] + later);
      call in s'.calls && s'.calls[call].pc.Waiting? && s'.calls[call].pc.frame.id in s.pending
    ensures
      var s' := Exec(Init(maxSize, ttl), early + [FailPending] + later);
      s'.calls[call].pc.frame.id in s'.slots
  {
    var start := Init(maxSize, ttl);
    var s := Exec(start, early);
    var f := Exec(start, early + [FailPending] + later).calls[call].pc.frame.id;
    RunKeepsInv(maxSize, ttl, early);
    FailPendingAnswers(s, f);
    StepKeepsInv(s, FailPending);
    assert (early + [FailPending])[..|early|] == early;
    assert Exec(start, early + [FailPending]) == Apply(s, FailPending);
    ExecConcat(start, early + [FailPending], later);
    RunKeepsAnswered(Apply(s, FailPending), later, f);
  }
}
