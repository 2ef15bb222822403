/**
 The store-and-forward protocol between an ant and the queen.

 Any number of sends, subscribes and buffer drains run at once on the ant. Each takes the
 steps between which the code holds no lock; the network loses, delays and reorders frames;
 the connection may drop and come back at any step, and the buffer's database may fail. A
 reply channel has one slot and belongs to one frame ID. `issued`, `handled`, `stored`,
 `expired`, `dropped` and `received` are logs that no step reads.
 */
module AntProtocol {
  import opened Outbox

  datatype Body = Publish(message: Message) | Subscribe(topic: string)

  /** Frame IDs are unique: they are numbered as they are issued. */
  datatype Frame = Frame(id: nat, body: Body)

  datatype ReplyKind = Ack | SubscribeAck | Nack | Error

  datatype Reply = Reply(id: nat, kind: ReplyKind)

  /** What sendFrameAwaitAck returns: a reply, or an error from the write or the timeout. */
  datatype Answer = Got(reply: Reply) | NoAnswer

  datatype Job = Sending(message: Message) | Draining | Subscribing(topic: string)

  /** `rows` are the rows a drain has fetched and not yet finished, the current one first. */
  datatype Pc =
    | Checking
    | Fetching
    | Turning(rows: seq<Row>)
    | Registering(frame: Frame, rows: seq<Row>)
    | Writing(frame: Frame, rows: seq<Row>)
    | Waiting(frame: Frame, rows: seq<Row>)
    | Leaving(frame: Frame, rows: seq<Row>, answer: Answer)
    | Enqueueing
    | Removing(reply: Reply, rows: seq<Row>)
    | Done(ok: bool)
  {
    predicate HasFrame() { Registering? || Writing? || Waiting? || Leaving? }
  }

  datatype Call = Call(job: Job, pc: Pc)

  datatype State = State(
    connected: bool,
    pending: set<nat>,
    slots: map<nat, Reply>,
    buffer: Buffer,
    calls: map<nat, Call>,
    up: seq<Frame>,
    down: seq<Reply>,
    inHand: seq<Reply>,
    issued: seq<Body>,
    handled: set<nat>,
    stored: set<Row>,
    expired: set<Row>,
    dropped: set<Row>,
    received: set<nat>)

  /** What the environment decides for a step: the clock, and whether the operation works. */
  datatype Env = Env(now: int, later: int, works: bool, reached: bool)

  datatype Step =
    | Begin(call: nat, job: Job)
    | Go(call: nat, env: Env)
    | Connect
    | Disconnect
    | FailPending
    | QueenHandles(i: nat, replies: bool)
    | LoseUp(i: nat)
    | LoseDown(i: nat)
    | Lookup(i: nat)
    | Put(i: nat)

  function Without<T>(s: seq<T>, i: nat): seq<T>
    requires i < |s|
  {
    s[..i] + s[i + 1..]
  }

  /******* The steps of a call *******/

  function Body0(job: Job): Body
    requires !job.Draining?
  {
    if job.Sending? then Publish(job.message) else Subscribe(job.topic)
  }

  /** isConnected, then a frame under a fresh ID; a send without a connection is buffered. */
  function Check(s: State, c: Call): (State, Pc)
    requires !c.job.Draining?
  {
    if s.connected then
      (s.(issued := s.issued + [Body0(c.job)]), Registering(Frame(|s.issued|, Body0(c.job)), []))
    else if c.job.Sending? then (s, Enqueueing)
    else (s, Done(true))
  }

  function Enqueued(s: State, m: Message, env: Env): (State, Pc) {
    if !env.works then (s, Done(false))
    else
      var r := Enqueue(s.buffer, m, env.now, env.later);
      (s.(buffer := r.0, stored := s.stored + set row | row in r.0.rows), Done(r.1))
  }

  function Pruned(s: State, env: Env): State {
    var live := Live(s.buffer.rows, Unix(env.now));
    s.(buffer := s.buffer.(rows := live),
       expired := s.expired + set row | row in s.buffer.rows && row.expiresAt <= Unix(env.now))
  }

  /** DequeueAll: prune, then select; the query may fail before or after the prune. */
  function Fetched(s: State, env: Env): (State, Pc) {
    if env.works then
      var s' := Pruned(s, env);
      (s', if s'.buffer.rows == [] then Done(true) else Turning(s'.buffer.rows))
    else (if env.reached then Pruned(s, env) else s, Done(false))
  }

  function Turned(s: State, rows: seq<Row>): (State, Pc) {
    if rows == [] then (s, Fetching)
    else if !s.connected then (s, Done(false))
    else
      var body := Publish(rows[0].message);
      (s.(issued := s.issued + [body]), Registering(Frame(|s.issued|, body), rows))
  }

  /** A failed write takes the connection down; its frame may have reached the wire all the same. */
  function Written(s: State, frame: Frame, rows: seq<Row>, env: Env): (State, Pc) {
    if !s.connected then (s, Leaving(frame, rows, NoAnswer))
    else if env.works then (s.(up := s.up + [frame]), Waiting(frame, rows))
    else
      (s.(connected := false, up := if env.reached then s.up + [frame] else s.up), Leaving(frame, rows, NoAnswer))
  }

  /** The channel or the timer, whichever the select takes. */
  function Waited(s: State, frame: Frame, rows: seq<Row>, env: Env): (State, Pc) {
    if !env.works then (s, Leaving(frame, rows, NoAnswer))
    else if frame.id in s.slots then
      (s.(slots := s.slots - {frame.id}, received := s.received + {frame.id}),
       Leaving(frame, rows, Got(s.slots[frame.id])))
    else (s, Waiting(frame, rows))
  }

  /** What each caller of sendFrameAwaitAck does with the answer; a drain ignores the reply's kind. */
  function After(job: Job, rows: seq<Row>, answer: Answer): Pc {
    match (job, answer)
    case (Sending(_), NoAnswer) => Enqueueing
    case (Draining, Got(reply)) => Removing(reply, rows)
    case (_, NoAnswer) => Done(false)
    case (_, Got(reply)) => Done(reply.kind != Error)
  }

  function Removed(s: State, reply: Reply, rows: seq<Row>, env: Env): (State, Pc) {
    if rows == [] then (s, Fetching)
    else if !env.works then (s, Turning(rows[1..]))
    else
      (s.(buffer := Remove(s.buffer, rows[0].id),
          dropped := if reply.kind == Error then s.dropped + {rows[0]} else s.dropped),
       Turning(rows[1..]))
  }

  function Advance(s: State, c: Call, env: Env): (State, Pc) {
    match c.pc
    case Checking => if c.job.Draining? then (s, Fetching) else Check(s, c)
    case Fetching => Fetched(s, env)
    case Turning(rows) => Turned(s, rows)
    case Registering(frame, rows) =>
      (s.(pending := s.pending + {frame.id}, slots := s.slots - {frame.id}), Writing(frame, rows))
    case Writing(frame, rows) => Written(s, frame, rows, env)
    case Waiting(frame, rows) => Waited(s, frame, rows, env)
    case Leaving(frame, rows, answer) =>
      (s.(pending := s.pending - {frame.id}), After(c.job, rows, answer))
    case Enqueueing => if c.job.Sending? then Enqueued(s, c.job.message, env) else (s, Done(false))
    case Removing(reply, rows) => Removed(s, reply, rows, env)
    case Done(ok) => (s, Done(ok))
  }

  /******* The steps of the environment *******/

  /** triggerReconnect: every registered waiter gets an error frame unless its slot is taken. */
  function FailAll(s: State): State {
    s.(pending := {},
       slots := map id | id in s.slots.Keys + s.pending :: if id in s.slots then s.slots[id] else Reply(id, Error))
  }

  function ReplyTo(frame: Frame): Reply {
    Reply(frame.id, if frame.body.Publish? then Ack else SubscribeAck)
  }

  /** The queen handles a frame and answers it, unless its send channel is full. */
  function HandleAt(s: State, i: nat, replies: bool): State
    requires i < |s.up|
  {
    s.(up := Without(s.up, i), handled := s.handled + {s.up[i].id},
       down := if replies then s.down + [ReplyTo(s.up[i])] else s.down)
  }

  function LookupAt(s: State, i: nat): State
    requires i < |s.down|
  {
    s.(down := Without(s.down, i),
       inHand := if s.down[i].id in s.pending then s.inHand + [s.down[i]] else s.inHand)
  }

  function PutAt(s: State, i: nat): State
    requires i < |s.inHand|
  {
    var reply := s.inHand[i];
    s.(inHand := Without(s.inHand, i),
       slots := if reply.id in s.slots then s.slots else s.slots[reply.id := reply])
  }

  function Apply(s: State, step: Step): State {
    match step
    case Begin(call, job) =>
      if call in s.calls then s else s.(calls := s.calls[call := Call(job, Checking)])
    case Go(call, env) =>
      if call !in s.calls then s
      else
        var next := Advance(s, s.calls[call], env);
        next.0.(calls := s.calls[call := Call(s.calls[call].job, next.1)])
    case Connect => s.(connected := true)
    case Disconnect => s.(connected := false)
    case FailPending => FailAll(s)
    case QueenHandles(i, replies) => if i < |s.up| then HandleAt(s, i, replies) else s
    case LoseUp(i) => if i < |s.up| then s.(up := Without(s.up, i)) else s
    case LoseDown(i) => if i < |s.down| then s.(down := Without(s.down, i)) else s
    case Lookup(i) => if i < |s.down| then LookupAt(s, i) else s
    case Put(i) => if i < |s.inHand| then PutAt(s, i) else s
  }

  function Exec(s: State, steps: seq<Step>): State {
    if steps == [] then s else Apply(Exec(s, steps[..|steps| - 1]), steps[|steps| - 1])
  }

  function Init(maxSize: int, ttl: int): State {
    State(false, {}, map[], Buffer([], 1, maxSize, ttl), map[], [], [], [], [], {}, {}, {}, {}, {})
  }

  /******* The invariant *******/

  ghost predicate Genuine(s: State, frame: Frame) {
    frame.id < |s.issued| && s.issued[frame.id] == frame.body
  }

  /** A reply other than an error frame comes from the queen, after it handled the frame. */
  ghost predicate Justified(s: State, reply: Reply) {
    reply.kind != Error ==> reply.id in s.handled
  }

  ghost predicate NetworkOk(s: State) {
    && (forall i :: 0 <= i < |s.up| ==> Genuine(s, s.up[i]))
    && (forall i :: 0 <= i < |s.down| ==> Justified(s, s.down[i]))
    && (forall i :: 0 <= i < |s.inHand| ==> Justified(s, s.inHand[i]))
    && (forall id :: id in s.slots ==> s.slots[id].id == id && Justified(s, s.slots[id]))
    && (forall id :: id in s.handled ==> id < |s.issued|)
  }

  /** A drain's rows were stored; the row it is busy with is the one in its frame. */
  ghost predicate RowsOk(s: State, rows: seq<Row>) {
    forall i :: 0 <= i < |rows| ==> rows[i] in s.stored
  }

  ghost predicate FrameOk(s: State, job: Job, frame: Frame, rows: seq<Row>) {
    && Genuine(s, frame) && RowsOk(s, rows)
    && (if job.Draining? then rows != [] && frame.body == Publish(rows[0].message)
        else frame.body == Body0(job))
  }

  ghost predicate CallOk(s: State, c: Call) {
    match c.pc
    case Fetching => c.job.Draining?
    case Turning(rows) => c.job.Draining? && RowsOk(s, rows)
    case Registering(frame, rows) => FrameOk(s, c.job, frame, rows) && frame.id !in s.pending && frame.id !in s.received
    case Writing(frame, rows) => FrameOk(s, c.job, frame, rows) && frame.id !in s.received
    case Waiting(frame, rows) => FrameOk(s, c.job, frame, rows) && frame.id !in s.received
    case Leaving(frame, rows, answer) =>
      && FrameOk(s, c.job, frame, rows)
      && (answer.Got? ==> answer.reply.id == frame.id && frame.id in s.received && Justified(s, answer.reply))
    case Enqueueing => c.job.Sending?
    case Removing(reply, rows) =>
      && c.job.Draining? && RowsOk(s, rows) && rows != [] && Justified(s, reply) && reply.id in s.received
      && Genuine(s, Frame(reply.id, Publish(rows[0].message)))
    case Done(ok) => ok && c.job.Sending? ==> Handled(s, c.job.message) || Stored(s, c.job.message)
    case _ => true
  }

  /** The queen has handled a publish frame with this message. */
  ghost predicate Handled(s: State, m: Message) {
    exists id :: id in s.handled && id < |s.issued| && s.issued[id] == Publish(m)
  }

  /** The message has been put in the offline buffer. */
  ghost predicate Stored(s: State, m: Message) {
    exists row :: row in s.stored && row.message == m
  }

  ghost predicate IdsIssued(s: State) {
    && (forall id :: id in s.pending ==> id < |s.issued|)
    && (forall id :: id in s.received ==> id < |s.issued|)
  }

  /** Two calls never use the same frame ID. */
  ghost predicate Apart(pc: Pc, pc': Pc) {
    pc.HasFrame() && pc'.HasFrame() ==> pc.frame.id != pc'.frame.id
  }

  ghost predicate CallsOk(s: State) {
    && (forall id :: id in s.calls ==> CallOk(s, s.calls[id]))
    && (forall a, b :: a in s.calls && b in s.calls && a != b ==> Apart(s.calls[a].pc, s.calls[b].pc))
    && IdsIssued(s)
  }

  ghost predicate BufferOk(s: State) {
    && (forall row :: row in s.buffer.rows ==> row in s.stored)
    && (forall row :: row in s.stored ==> row.id < s.buffer.nextID)
    && (forall r, r' :: r in s.stored && r' in s.stored && r.id == r'.id ==> r == r')
    && (forall row :: row in s.expired + s.dropped ==> row in s.stored && row !in s.buffer.rows)
    && (forall row :: row in s.stored ==>
          row in s.buffer.rows || row in s.expired || row in s.dropped || Handled(s, row.message))
  }

  ghost predicate Inv(s: State) { NetworkOk(s) && CallsOk(s) && BufferOk(s) }

  /******* The logs only grow, and that keeps what they justify *******/

  ghost predicate Grows(s: State, s': State) {
    s.issued <= s'.issued && s.handled <= s'.handled && s.stored <= s'.stored && s.received <= s'.received
  }

  lemma HandledGrows(s: State, s': State, m: Message)
    requires Grows(s, s') && Handled(s, m)
    ensures Handled(s', m)
  {
    var id :| id in s.handled && id < |s.issued| && s.issued[id] == Publish(m);
    assert id in s'.handled && s'.issued[id] == Publish(m);
  }

  /** A call that does not move stays in order when the logs grow and its ID is not touched. */
  lemma CallGrows(s: State, s': State, c: Call)
    requires Grows(s, s') && CallOk(s, c)
    requires c.pc.HasFrame() && !c.pc.Leaving? ==>
      && (c.pc.frame.id in s'.received ==> c.pc.frame.id in s.received)
      && (c.pc.Registering? && c.pc.frame.id in s'.pending ==> c.pc.frame.id in s.pending)
    ensures CallOk(s', c)
  {
    if c.pc.Done? && c.pc.ok && c.job.Sending? {
      if Handled(s, c.job.message) {
        HandledGrows(s, s', c.job.message);
      }
    }
  }

  lemma AdvanceGrows(s: State, c: Call, env: Env)
    ensures Grows(s, Advance(s, c, env).0)
  {
  }

  /** A call touches no frame ID but its own: in the pending table, the slots and the log. */
  lemma AdvanceTouchesOwn(s: State, c: Call, env: Env, f: nat)
    requires c.pc.HasFrame() ==> c.pc.frame.id != f
    ensures
      var s' := Advance(s, c, env).0;
      && (f in s'.pending <==> f in s.pending)
      && (f in s'.received <==> f in s.received)
      && (f in s'.slots <==> f in s.slots)
  {
  }

  lemma NetworkGrows(s: State, s': State)
    requires NetworkOk(s) && Grows(s, s')
    requires s'.up == s.up && s'.down == s.down && s'.inHand == s.inHand && s'.handled == s.handled
    requires forall id :: id in s'.slots ==> id in s.slots && s'.slots[id] == s.slots[id]
    ensures NetworkOk(s')
  {
  }

  lemma WrittenKeepsNetwork(s: State, frame: Frame, rows: seq<Row>, env: Env)
    requires NetworkOk(s) && Genuine(s, frame)
    ensures NetworkOk(Written(s, frame, rows, env).0)
  {
  }

  /** Only a write puts frames on the wire; a call never adds a reply. */
  lemma AdvanceKeepsNetwork(s: State, c: Call, env: Env)
    requires NetworkOk(s) && CallOk(s, c)
    ensures NetworkOk(Advance(s, c, env).0)
  {
    if c.pc.Writing? {
      WrittenKeepsNetwork(s, c.pc.frame, c.pc.rows, env);
    } else {
      AdvanceGrows(s, c, env);
      NetworkGrows(s, Advance(s, c, env).0);
    }
  }

  lemma HandledUnchanged(s: State, s': State)
    requires Grows(s, s')
    ensures forall m :: Handled(s, m) ==> Handled(s', m)
  {
    forall m | Handled(s, m)
      ensures Handled(s', m)
    {
      HandledGrows(s, s', m);
    }
  }

  lemma EnqueuedKeepsBuffer(s: State, m: Message, env: Env)
    requires BufferOk(s)
    ensures BufferOk(Enqueued(s, m, env).0)
    ensures Enqueued(s, m, env).1 == Done(true) ==> Stored(Enqueued(s, m, env).0, m)
  {
    var s' := Enqueued(s, m, env).0;
    HandledUnchanged(s, s');
    if s'.buffer != s.buffer {
      var row := s'.buffer.rows[|s.buffer.rows|];
      assert s'.buffer.rows == s.buffer.rows + [row];
      assert s'.stored == s.stored + {row};
      assert row in s'.stored && row.message == m;
      assert row !in s.stored;
    }
  }

  lemma PrunedKeepsBuffer(s: State, env: Env)
    requires BufferOk(s)
    ensures BufferOk(Pruned(s, env))
  {
    HandledUnchanged(s, Pruned(s, env));
    LiveMembers(s.buffer.rows, Unix(env.now));
  }

  lemma RemovedKeepsBuffer(s: State, reply: Reply, rows: seq<Row>, env: Env)
    requires BufferOk(s) && RowsOk(s, rows) && rows != [] && Justified(s, reply)
    requires Genuine(s, Frame(reply.id, Publish(rows[0].message)))
    ensures BufferOk(Removed(s, reply, rows, env).0)
  {
    var s' := Removed(s, reply, rows, env).0;
    HandledUnchanged(s, s');
    WithoutIDMembers(s.buffer.rows, rows[0].id);
    assert rows[0] in s.stored;
    if reply.kind != Error {
      assert Handled(s, rows[0].message);
    }
  }

  /** Growing logs keep the buffer's bookkeeping when the buffer is left alone. */
  lemma BufferGrows(s: State, s': State)
    requires BufferOk(s) && Grows(s, s') && s'.buffer == s.buffer && s'.stored == s.stored
    requires s'.expired == s.expired && s'.dropped == s.dropped
    ensures BufferOk(s')
  {
    HandledUnchanged(s, s');
  }

  lemma AdvanceKeepsBuffer(s: State, c: Call, env: Env)
    requires BufferOk(s) && CallOk(s, c)
    ensures BufferOk(Advance(s, c, env).0)
  {
    if c.pc.Enqueueing? {
      EnqueuedKeepsBuffer(s, c.job.message, env);
    } else if c.pc.Fetching? {
      PrunedKeepsBuffer(s, env);
    } else if c.pc.Removing? {
      RemovedKeepsBuffer(s, c.pc.reply, c.pc.rows, env);
    } else {
      AdvanceGrows(s, c, env);
      BufferGrows(s, Advance(s, c, env).0);
    }
  }

  lemma AnswerKeepsCall(s: State, c: Call)
    requires NetworkOk(s) && CallOk(s, c) && c.pc.Leaving?
    ensures CallOk(s.(pending := s.pending - {c.pc.frame.id}), Call(c.job, After(c.job, c.pc.rows, c.pc.answer)))
  {
    var s' := s.(pending := s.pending - {c.pc.frame.id});
    if c.pc.answer.Got? && c.pc.answer.reply.kind != Error && c.job.Sending? {
      assert c.pc.frame.id in s'.handled && s'.issued[c.pc.frame.id] == Publish(c.job.message);
    }
  }

  lemma FetchKeepsCall(s: State, c: Call, env: Env)
    requires BufferOk(s) && CallOk(s, c) && c.pc.Fetching?
    ensures CallOk(Fetched(s, env).0, Call(c.job, Fetched(s, env).1))
  {
    PrunedKeepsBuffer(s, env);
  }

  lemma FrameKeepsCall(s: State, c: Call, env: Env)
    requires NetworkOk(s) && CallOk(s, c) && c.pc.HasFrame() && !c.pc.Leaving?
    ensures var next := Advance(s, c, env); CallOk(next.0, Call(c.job, next.1))
  {
  }

  lemma AdvanceKeepsCall(s: State, c: Call, env: Env)
    requires NetworkOk(s) && BufferOk(s) && CallOk(s, c)
    requires IdsIssued(s)
    ensures var next := Advance(s, c, env); CallOk(next.0, Call(c.job, next.1))
  {
    match c.pc
    case Enqueueing => EnqueuedKeepsBuffer(s, c.job.message, env);
    case Fetching => FetchKeepsCall(s, c, env);
    case Leaving(_, _, _) => AnswerKeepsCall(s, c);
    case Registering(_, _) => FrameKeepsCall(s, c, env);
    case Writing(_, _) => FrameKeepsCall(s, c, env);
    case Waiting(_, _) => FrameKeepsCall(s, c, env);
    case Done(_) =>
    case Checking =>
    case Turning(_) =>
    case Removing(_, _) =>
  }

  /******* Every step keeps the invariant *******/

  lemma AdvanceKeepsIds(s: State, c: Call, env: Env)
    requires IdsIssued(s) && CallOk(s, c)
    ensures IdsIssued(Advance(s, c, env).0)
    ensures
      var next := Advance(s, c, env);
      next.1.HasFrame() ==>
        next.1.frame.id == |s.issued| || (c.pc.HasFrame() && next.1.frame == c.pc.frame)
  {
  }

  lemma CallsGrow(s: State, s': State)
    requires CallsOk(s) && Grows(s, s') && IdsIssued(s') && s'.calls == s.calls
    requires s'.received == s.received && s'.pending <= s.pending
    ensures CallsOk(s')
  {
    forall id | id in s.calls
      ensures CallOk(s', s.calls[id])
    {
      CallGrows(s, s', s.calls[id]);
    }
  }

  lemma GoKeepsOthers(s: State, call: nat, env: Env, other: nat)
    requires Inv(s) && call in s.calls && other in s.calls && other != call
    ensures CallOk(Advance(s, s.calls[call], env).0, s.calls[other])
    ensures Apart(Advance(s, s.calls[call], env).1, s.calls[other].pc)
  {
    var c, o := s.calls[call], s.calls[other];
    assert CallOk(s, c) && CallOk(s, o) && Apart(c.pc, o.pc);
    AdvanceGrows(s, c, env);
    AdvanceKeepsIds(s, c, env);
    if o.pc.HasFrame() {
      assert o.pc.frame.id < |s.issued|;
      AdvanceTouchesOwn(s, c, env, o.pc.frame.id);
    }
    CallGrows(s, Advance(s, c, env).0, o);
  }

  /** The checks on a call do not look at the other calls. */
  lemma CallTableIrrelevant(s: State, c: Call, calls: map<nat, Call>)
    requires CallOk(s, c)
    ensures CallOk(s.(calls := calls), c)
  {
    var s' := s.(calls := calls);
    CallGrows(s, s', c);
  }

  lemma GoKeepsCalls(s: State, call: nat, env: Env)
    requires Inv(s) && call in s.calls
    ensures CallsOk(Apply(s, Go(call, env)))
  {
    var c := s.calls[call];
    var next := Advance(s, c, env);
    var s' := Apply(s, Go(call, env));
    assert CallOk(s, c);
    AdvanceKeepsCall(s, c, env);
    AdvanceKeepsIds(s, c, env);
    forall id | id in s'.calls
      ensures CallOk(s', s'.calls[id])
    {
      if id != call {
        GoKeepsOthers(s, call, env, id);
      }
      CallTableIrrelevant(next.0, s'.calls[id], s'.calls);
    }
    forall a, b | a in s'.calls && b in s'.calls && a != b
      ensures Apart(s'.calls[a].pc, s'.calls[b].pc)
    {
      if a == call {
        GoKeepsOthers(s, call, env, b);
      } else if b == call {
        GoKeepsOthers(s, call, env, a);
      }
    }
  }

  lemma GoKeepsInv(s: State, call: nat, env: Env)
    requires Inv(s) && call in s.calls
    ensures Inv(Apply(s, Go(call, env)))
  {
    var c := s.calls[call];
    var mid := Advance(s, c, env).0;
    var s' := Apply(s, Go(call, env));
    assert CallOk(s, c);
    GoKeepsCalls(s, call, env);
    AdvanceKeepsNetwork(s, c, env);
    AdvanceKeepsBuffer(s, c, env);
    NetworkGrows(mid, s');
    BufferGrows(mid, s');
  }

  lemma HandleKeepsNetwork(s: State, i: nat, replies: bool)
    requires NetworkOk(s) && i < |s.up|
    ensures NetworkOk(HandleAt(s, i, replies))
  {
    assert Genuine(s, s.up[i]);
  }

  lemma LookupKeepsNetwork(s: State, i: nat)
    requires NetworkOk(s) && i < |s.down|
    ensures NetworkOk(LookupAt(s, i))
  {
  }

  lemma PutKeepsNetwork(s: State, i: nat)
    requires NetworkOk(s) && i < |s.inHand|
    ensures NetworkOk(PutAt(s, i))
  {
    assert Justified(s, s.inHand[i]);
  }

  lemma EnvironmentKeepsNetwork(s: State, step: Step)
    requires NetworkOk(s) && !step.Go? && !step.Begin?
    ensures NetworkOk(Apply(s, step))
  {
    match step
    case QueenHandles(i, replies) =>
      if i < |s.up| {
        HandleKeepsNetwork(s, i, replies);
      }
    case Lookup(i) =>
      if i < |s.down| {
        LookupKeepsNetwork(s, i);
      }
    case Put(i) =>
      if i < |s.inHand| {
        PutKeepsNetwork(s, i);
      }
    case _ =>
  }

  lemma EnvironmentLeavesCalls(s: State, step: Step)
    requires !step.Go? && !step.Begin?
    ensures
      var s' := Apply(s, step);
      && Grows(s, s') && s'.calls == s.calls && s'.issued == s.issued && s'.buffer == s.buffer
      && s'.stored == s.stored && s'.expired == s.expired && s'.dropped == s.dropped
      && s'.received == s.received && s'.pending <= s.pending
  {
  }

  lemma BeginKeepsInv(s: State, call: nat, job: Job)
    requires Inv(s)
    ensures Inv(Apply(s, Begin(call, job)))
  {
    var s' := Apply(s, Begin(call, job));
    NetworkGrows(s, s');
    BufferGrows(s, s');
    forall id | id in s'.calls
      ensures CallOk(s', s'.calls[id])
    {
      if id in s.calls {
        CallTableIrrelevant(s, s.calls[id], s'.calls);
      }
    }
  }

  lemma StepKeepsInv(s: State, step: Step)
    requires Inv(s)
    ensures Inv(Apply(s, step))
  {
    if step.Begin? {
      BeginKeepsInv(s, step.call, step.job);
    } else if step.Go? {
      if step.call in s.calls {
        GoKeepsInv(s, step.call, step.env);
      }
    } else {
      EnvironmentKeepsNetwork(s, step);
      EnvironmentLeavesCalls(s, step);
      CallsGrow(s, Apply(s, step));
      BufferGrows(s, Apply(s, step));
    }
  }

  lemma {:induction false} RunKeepsInv(maxSize: int, ttl: int, steps: seq<Step>)
    ensures Inv(Exec(Init(maxSize, ttl), steps))
  {
    if steps != [] {
      RunKeepsInv(maxSize, ttl, steps[..|steps| - 1]);
      StepKeepsInv(Exec(Init(maxSize, ttl), steps[..|steps| - 1]), steps[|steps| - 1]);
    }
  }
}
