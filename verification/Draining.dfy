/**
 What a drain of the offline buffer has done so far. A removal that fails is only logged: the
 row stays in the buffer, and a later batch publishes it again.
 */
module Draining {
  import opened Outbox

  /**
   What happens around one message of a drain: the clock before it and after it, whether the
   connection is up, the messages other goroutines buffer meanwhile, whether
   sendFrameAwaitAck returns a reply, and whether the row can then be removed.
   */
  datatype Turn = Turn(now: int, connected: bool, arrivals: seq<Message>, replied: bool, removed: bool, later: int) {
    predicate Settles() { connected && replied && removed }
  }

  /**
   A drain after some turns: the buffer, what is left of the batch it fetched, what it has
   published, the turns it has used, and whether it has ended, with an empty buffer or not.
   `all` is a log of every row there was or that came in.
   */
  datatype Session = Session(
    buffer: Buffer, batch: seq<Row>, published: seq<Row>, used: nat, stopped: bool, empty: bool, all: seq<Row>)

  function Arrived(b: Buffer, arrivals: seq<Message>, now: int): Buffer {
    if arrivals == [] then b
    else Enqueue(Arrived(b, arrivals[..|arrivals| - 1], now), arrivals[|arrivals| - 1], now, now).0
  }

  /** The row an enqueue adds, if the buffer takes it. */
  function Gained(b: Buffer, m: Message, now: int): seq<Row> {
    if Enqueue(b, m, now, now).1 then [Row(b.nextID, m, Unix(now), Unix(now + b.ttl))] else []
  }

  function Added(b: Buffer, arrivals: seq<Message>, now: int): seq<Row> {
    if arrivals == [] then []
    else
      var init := arrivals[..|arrivals| - 1];
      Added(b, init, now) + Gained(Arrived(b, init, now), arrivals[|arrivals| - 1], now)
  }

  /** One message: other rows come in while its reply is awaited, and a failed removal is ignored. */
  function PublishOne(s: Session, turn: Turn): Session
    requires s.batch != []
  {
    if !turn.connected then s.(used := s.used + 1, stopped := true)
    else
      var b := Arrived(s.buffer, turn.arrivals, turn.later);
      var m := s.batch[0];
      var sent := s.(buffer := b, published := s.published + [m], used := s.used + 1, all := s.all + Added(s.buffer, turn.arrivals, turn.later));
      if !turn.replied then sent.(stopped := true)
      else sent.(buffer := if turn.removed then Remove(b, m.id) else b, batch := s.batch[1..])
  }

  /** The next message of the batch, or the first of the next batch; the drain ends when there is none. */
  function TakeTurn(s: Session, turn: Turn): Session {
    if s.stopped then s
    else if s.batch != [] then PublishOne(s, turn)
    else
      var fetched := Dequeue(s.buffer, turn.now);
      if fetched.1 == [] then s.(buffer := fetched.0, stopped := true, empty := true)
      else PublishOne(s.(buffer := fetched.0, batch := fetched.1), turn)
  }

  /** A session after the turns of a range. */
  function SessionAfter(s: Session, turns: seq<Turn>, lo: nat, hi: nat): Session
    requires lo <= hi <= |turns|
  {
    if lo == hi then s else TakeTurn(SessionAfter(s, turns, lo, hi - 1), turns[hi - 1])
  }

  function Opened(b: Buffer): Session { Session(b, [], [], 0, false, false, b.rows) }

  function DrainAll(b: Buffer, turns: seq<Turn>): Session { SessionAfter(Opened(b), turns, 0, |turns|) }

  /******* What has become of the rows *******/

  /**
   `initial` is what the drain found, `all` every row there was or that came in, and `rows`
   what is in the buffer now. Message p was published in turn p.
   */
  datatype Drain = Drain(initial: seq<Row>, all: seq<Row>, rows: seq<Row>, published: seq<Row>, clock: int)

  ghost predicate Settled(turns: seq<Turn>, p: nat) { p < |turns| && turns[p].Settles() }

  /** The row was published, answered and removed. */
  ghost predicate Taken(d: Drain, turns: seq<Turn>, row: Row) {
    exists p :: 0 <= p < |d.published| && d.published[p] == row && Settled(turns, p)
  }

  ghost predicate Shaped(d: Drain) {
    && d.initial <= d.all && InOrder(d.all) && InOrder(d.rows)
    && (forall row :: row in d.rows ==> row in d.all)
    && (forall row :: row in d.published ==> row in d.all)
  }

  /** No row goes missing: it is in the buffer, its time is up, or it was taken. */
  ghost predicate Accounted(d: Drain, turns: seq<Turn>) {
    forall row :: row in d.all ==> row in d.rows || row.expiresAt <= Unix(d.clock) || Taken(d, turns, row)
  }

  /** Expiry takes rows only from the front: what is missing behind a row still there was taken. */
  ghost predicate FrontExpires(d: Drain, turns: seq<Turn>) {
    forall row, next :: row in d.rows && next in d.all && row.id < next.id ==> next in d.rows || Taken(d, turns, next)
  }

  /** Nothing is passed over: a row still there that is no later than a published one was published too. */
  ghost predicate NonePassedOver(d: Drain) {
    forall row, p :: row in d.rows && 0 <= p < |d.published| && row.id <= d.published[p].id ==> row in d.published
  }

  ghost predicate StillThere(d: Drain, turns: seq<Turn>) {
    forall p :: 0 <= p < |d.published| && d.published[p] in d.rows ==> !Settled(turns, p)
  }

  /** A row is published again only after a turn that did not remove it. */
  ghost predicate RepeatsUnsettled(published: seq<Row>, turns: seq<Turn>) {
    forall p, q :: 0 <= p < q < |published| && published[p] == published[q] ==> !Settled(turns, p)
  }

  /** First publications are in buffer order: a row that comes out of order has been published before. */
  ghost predicate FirstInOrder(published: seq<Row>) {
    forall p, q :: 0 <= p < q < |published| && published[q].id <= published[p].id ==> published[q] in published[..q]
  }

  ghost predicate Inv(d: Drain, turns: seq<Turn>) {
    && Shaped(d) && Accounted(d, turns) && FrontExpires(d, turns) && NonePassedOver(d) && StillThere(d, turns)
    && RepeatsUnsettled(d.published, turns) && FirstInOrder(d.published)
  }

  lemma SameID(rows: seq<Row>, a: Row, b: Row)
    requires InOrder(rows) && a in rows && b in rows && a.id == b.id
    ensures a == b
  {
    var i :| 0 <= i < |rows| && rows[i] == a;
    var j :| 0 <= j < |rows| && rows[j] == b;
    assert i == j;
  }

  lemma ArrivalsKeep(d: Drain, turns: seq<Turn>, added: seq<Row>, clock: int)
    requires Inv(d, turns) && InOrder(d.all + added) && InOrder(d.rows + added) && d.clock <= clock
    ensures Inv(d.(all := d.all + added, rows := d.rows + added, clock := clock), turns)
  {
    var d' := d.(all := d.all + added, rows := d.rows + added, clock := clock);
    UnixMonotone(d.clock, clock);
    forall row, prior | row in added && prior in d.all
      ensures prior.id < row.id
    {
      var i :| 0 <= i < |d.all| && d.all[i] == prior;
      var j :| 0 <= j < |added| && added[j] == row;
      assert d'.all[i] == prior && d'.all[|d.all| + j] == row;
    }
    forall row | Taken(d, turns, row)
      ensures Taken(d', turns, row)
    {
    }
  }

  lemma LaterExpiresLater(rows: seq<Row>, row: Row, next: Row)
    requires InOrder(rows) && row in rows && next in rows && row.id < next.id
    ensures row.expiresAt <= next.expiresAt
  {
    var i :| 0 <= i < |rows| && rows[i] == row;
    var j :| 0 <= j < |rows| && rows[j] == next;
    assert i < j;
  }

  lemma PruneKeeps(d: Drain, turns: seq<Turn>, now: int)
    requires Inv(d, turns) && d.clock <= now
    ensures Inv(d.(rows := Live(d.rows, Unix(now)), clock := now), turns)
  {
    var d' := d.(rows := Live(d.rows, Unix(now)), clock := now);
    UnixMonotone(d.clock, now);
    LiveMembers(d.rows, Unix(now));
    LiveInOrder(d.rows, Unix(now));
    forall row | Taken(d, turns, row)
      ensures Taken(d', turns, row)
    {
    }
    forall row, next | row in d'.rows && next in d.all && row.id < next.id
      ensures next in d'.rows || Taken(d', turns, next)
    {
      if next in d.rows {
        LaterExpiresLater(d.rows, row, next);
      }
    }
  }

  lemma LiveInOrder(rows: seq<Row>, now: int)
    requires InOrder(rows)
    ensures InOrder(Live(rows, now))
  {
    ExpiredRowsArePrefix(rows, now);
  }

  /** Publishing one more message appends to what was published, whatever becomes of the row. */
  lemma PublishedOnceMore(d: Drain, turns: seq<Turn>, m: Row)
    requires Inv(d, turns) && m in d.rows
    ensures
      var published := d.published + [m];
      RepeatsUnsettled(published, turns) && FirstInOrder(published)
  {
    var published := d.published + [m];
    forall p, q | 0 <= p < q < |published| && published[q].id <= published[p].id
      ensures published[q] in published[..q]
    {
      if q == |d.published| {
        assert m in d.published && published[..q] == d.published;
      } else {
        assert published[..q] == d.published[..q];
      }
    }
  }

  lemma TakenStays(d: Drain, d': Drain, turns: seq<Turn>, row: Row)
    requires d.published <= d'.published && Taken(d, turns, row)
    ensures Taken(d', turns, row)
  {
    var p :| 0 <= p < |d.published| && d.published[p] == row && Settled(turns, p);
    assert d'.published[p] == row;
  }

  /** A turn that publishes the row and leaves it in the buffer. */
  lemma UnsettledTurnKeeps(d: Drain, turns: seq<Turn>, m: Row)
    requires Inv(d, turns) && m in d.rows && !Settled(turns, |d.published|)
    requires forall row :: row in d.rows && row.id < m.id ==> row in d.published
    ensures Inv(d.(published := d.published + [m]), turns)
  {
    var d' := d.(published := d.published + [m]);
    PublishedOnceMore(d, turns, m);
    forall row | Taken(d, turns, row)
      ensures Taken(d', turns, row)
    {
      TakenStays(d, d', turns, row);
    }
    forall row, p | row in d.rows && 0 <= p < |d'.published| && row.id <= d'.published[p].id
      ensures row in d'.published
    {
      if p == |d.published| && row.id == m.id {
        SameID(d.rows, row, m);
        assert d'.published[p] == m;
      }
    }
  }

  /** A turn that publishes the row, is answered, and removes it. */
  lemma SettledTurnKeeps(d: Drain, turns: seq<Turn>, m: Row)
    requires Inv(d, turns) && m in d.rows && Settled(turns, |d.published|)
    requires forall row :: row in d.rows && row.id < m.id ==> row in d.published
    ensures Inv(d.(published := d.published + [m], rows := WithoutID(d.rows, m.id)), turns)
  {
    var d' := d.(published := d.published + [m], rows := WithoutID(d.rows, m.id));
    PublishedOnceMore(d, turns, m);
    WithoutIDMembers(d.rows, m.id);
    WithoutIDKeepsOrder(d.rows, m.id);
    assert d'.published[|d.published|] == m;
    assert Taken(d', turns, m);
    forall row | Taken(d, turns, row)
      ensures Taken(d', turns, row)
    {
      TakenStays(d, d', turns, row);
    }
    forall row | row in d.rows && row !in d'.rows
      ensures row == m
    {
      SameID(d.rows, row, m);
    }
  }

  /******* Drains whose removals all succeed *******/

  ghost predicate Ascending(rows: seq<Row>) { forall i, j :: 0 <= i < j < |rows| ==> rows[i].id < rows[j].id }

  lemma {:induction false} SettledAscends(d: Drain, turns: seq<Turn>, q: nat)
    requires Inv(d, turns) && q < |d.published|
    requires forall p :: 0 <= p < |d.published| - 1 ==> Settled(turns, p)
    ensures forall p :: 0 <= p < q ==> d.published[p].id < d.published[q].id
  {
    forall p | 0 <= p < q
      ensures d.published[p].id < d.published[q].id
    {
      assert d.published[q] !in d.published[..q];
    }
  }

  /** Rows of the table, and with each of them all later ones. */
  ghost predicate Closed(all: seq<Row>, rows: seq<Row>) {
    && InOrder(all) && InOrder(rows) && (forall row :: row in rows ==> row in all)
    && forall row, next :: row in rows && next in all && row.id < next.id ==> next in rows
  }

  lemma ClosedHasLast(all: seq<Row>, rows: seq<Row>)
    requires Closed(all, rows) && rows != []
    ensures all != [] && rows[|rows| - 1] == all[|all| - 1]
  {
    var last := rows[|rows| - 1];
    assert last in rows;
    var i :| 0 <= i < |all| && all[i] == last;
    var end := all[|all| - 1];
    assert end in all && (i < |all| - 1 ==> end in rows && last.id < end.id);
  }

  /** A row other than the last is found before it. */
  lemma InInit(rows: seq<Row>, row: Row)
    requires InOrder(rows) && row in rows && row.id < rows[|rows| - 1].id
    ensures row in rows[..|rows| - 1]
  {
    var i :| 0 <= i < |rows| && rows[i] == row;
    assert rows[..|rows| - 1][i] == row;
  }

  lemma InitBelow(rows: seq<Row>, row: Row)
    requires InOrder(rows) && rows != [] && row in rows[..|rows| - 1]
    ensures row in rows && row.id < rows[|rows| - 1].id
  {
  }

  lemma ClosedInit(all: seq<Row>, rows: seq<Row>)
    requires Closed(all, rows) && rows != [] && all != [] && rows[|rows| - 1] == all[|all| - 1]
    ensures Closed(all[..|all| - 1], rows[..|rows| - 1])
  {
    var all', rows' := all[..|all| - 1], rows[..|rows| - 1];
    forall row | row in rows'
      ensures row in all'
    {
      InitBelow(rows, row);
      InInit(all, row);
    }
    forall row, next | row in rows' && next in all' && row.id < next.id
      ensures next in rows'
    {
      InitBelow(rows, row);
      InitBelow(all, next);
      InInit(rows, next);
    }
  }

  lemma {:induction false} TailOf(all: seq<Row>, rows: seq<Row>)
    requires Closed(all, rows)
    ensures |rows| <= |all| && rows == all[|all| - |rows|..]
  {
    if rows != [] {
      ClosedHasLast(all, rows);
      ClosedInit(all, rows);
      TailOf(all[..|all| - 1], rows[..|rows| - 1]);
    }
  }

  /** If every turn but perhaps the last settled its row, publication is in order and a tail of the rows is left. */
  lemma SettledLeavesTail(d: Drain, turns: seq<Turn>)
    requires Inv(d, turns) && forall p :: 0 <= p < |d.published| - 1 ==> Settled(turns, p)
    ensures Ascending(d.published)
    ensures |d.rows| <= |d.all| && d.rows == d.all[|d.all| - |d.rows|..]
  {
    forall q | 0 <= q < |d.published|
      ensures forall p :: 0 <= p < q ==> d.published[p].id < d.published[q].id
    {
      SettledAscends(d, turns, q);
    }
    forall row, next | row in d.rows && next in d.all && row.id < next.id
      ensures next in d.rows
    {
      assert next in d.rows || Taken(d, turns, next);
    }
    TailOf(d.all, d.rows);
  }

  /******* Every drain *******/

  ghost predicate ClockAdvances(turns: seq<Turn>, start: int) {
    && (forall i :: 0 <= i < |turns| ==> start <= turns[i].now <= turns[i].later)
    && (forall i, j :: 0 <= i < j < |turns| ==> turns[i].later <= turns[j].now)
  }

  /** Every turn before this one had a connection and brought a reply. */
  ghost predicate Flowed(turns: seq<Turn>, hi: int) {
    forall i :: 0 <= i < hi && i < |turns| ==> turns[i].connected && turns[i].replied
  }

  function View(s: Session, initial: seq<Row>, clock: int): Drain {
    Drain(initial, s.all, s.buffer.rows, s.published, clock)
  }

  /** Both what is in the buffer and all that ever was are in order, and the next row comes after it. */
  ghost predicate InStep(b: Buffer, all: seq<Row>, clock: int) {
    Ordered(b, clock) && Ordered(b.(rows := all), clock)
  }

  ghost predicate AfterAll(batch: seq<Row>, row: Row) { forall j :: 0 <= j < |batch| ==> batch[j].id < row.id }

  /** What is left of the batch is in the buffer; everything else there was published or came later. */
  ghost predicate InBatch(rows: seq<Row>, published: seq<Row>, batch: seq<Row>) {
    && InOrder(batch) && (forall row :: row in batch ==> row in rows)
    && (forall row :: row in rows ==> row in batch || row in published || AfterAll(batch, row))
  }

  lemma StepKeepsTime(b: Buffer, all: seq<Row>, clock: int, now: int)
    requires InStep(b, all, clock) && clock <= now
    ensures InStep(b, all, now)
  {
    UnixMonotone(clock + b.ttl, now + b.ttl);
  }

  lemma AppendKeepsOrder(b: Buffer, row: Row, now: int)
    requires Ordered(b, now) && row.id == b.nextID && row.expiresAt == Unix(now + b.ttl)
    ensures Ordered(b.(rows := b.rows + [row], nextID := b.nextID + 1), now)
  {
  }

  lemma GainKeepsStep(b: Buffer, all: seq<Row>, m: Message, now: int)
    requires InStep(b, all, now)
    ensures
      var b' := Enqueue(b, m, now, now).0;
      b'.rows == b.rows + Gained(b, m, now) && InStep(b', all + Gained(b, m, now), now)
  {
    if Enqueue(b, m, now, now).1 {
      var row := Gained(b, m, now)[0];
      AppendKeepsOrder(b, row, now);
      AppendKeepsOrder(b.(rows := all), row, now);
    } else {
      assert all + [] == all;
    }
  }

  lemma {:induction false} ArrivedOrdered(b: Buffer, all: seq<Row>, arrivals: seq<Message>, now: int)
    requires InStep(b, all, now)
    ensures InStep(Arrived(b, arrivals, now), all + Added(b, arrivals, now), now)
  {
    if arrivals == [] {
      assert all + [] == all;
    } else {
      var init, m := arrivals[..|arrivals| - 1], arrivals[|arrivals| - 1];
      var mid, added := Arrived(b, init, now), Added(b, init, now);
      ArrivedOrdered(b, all, init, now);
      GainKeepsStep(mid, all + added, m, now);
      assert all + (added + Gained(mid, m, now)) == all + added + Gained(mid, m, now);
    }
  }

  lemma {:induction false} ArrivedRows(b: Buffer, arrivals: seq<Message>, now: int)
    ensures Arrived(b, arrivals, now).rows == b.rows + Added(b, arrivals, now)
  {
    if arrivals != [] {
      var init, m := arrivals[..|arrivals| - 1], arrivals[|arrivals| - 1];
      ArrivedRows(b, init, now);
      var gained := Gained(Arrived(b, init, now), m, now);
      assert b.rows + Added(b, init, now) + gained == b.rows + (Added(b, init, now) + gained);
    }
  }

  /** Rows that come in are later than everything there ever was. */
  lemma AddedAfter(all: seq<Row>, added: seq<Row>, row: Row, prior: Row)
    requires InOrder(all + added) && row in added && prior in all
    ensures prior.id < row.id
  {
    var i :| 0 <= i < |all| && all[i] == prior;
    var j :| 0 <= j < |added| && added[j] == row;
    assert (all + added)[i] == prior && (all + added)[|all| + j] == row;
  }

  lemma HeadIsReady(rows: seq<Row>, published: seq<Row>, batch: seq<Row>)
    requires InBatch(rows, published, batch) && batch != []
    ensures batch[0] in rows
    ensures forall row :: row in rows && row.id < batch[0].id ==> row in published
  {
  }

  lemma BatchMeetsArrivals(all: seq<Row>, rows: seq<Row>, added: seq<Row>, published: seq<Row>, batch: seq<Row>)
    requires InBatch(rows, published, batch) && InOrder(all + added) && forall row :: row in rows ==> row in all
    ensures InBatch(rows + added, published, batch)
  {
    forall row | row in added
      ensures AfterAll(batch, row)
    {
      forall j | 0 <= j < |batch|
        ensures batch[j].id < row.id
      {
        assert batch[j] in batch;
        AddedAfter(all, added, row, batch[j]);
      }
    }
  }

  lemma BatchGoesOn(rows: seq<Row>, rows': seq<Row>, published: seq<Row>, batch: seq<Row>)
    requires InBatch(rows, published, batch) && batch != []
    requires forall row :: row in rows' ==> row in rows
    requires forall row :: row in rows && row.id != batch[0].id ==> row in rows'
    ensures InBatch(rows', published + [batch[0]], batch[1..])
  {
    var published' := published + [batch[0]];
    assert published'[|published|] == batch[0] && batch == [batch[0]] + batch[1..];
  }

  /** Where a drain stands that goes on: every turn so far flowed, and published one message. */
  ghost predicate Going(s: Session, initial: seq<Row>, turns: seq<Turn>, clock: int) {
    && !s.stopped && !s.empty && s.used == |s.published| <= |turns| && Flowed(turns, s.used)
    && Inv(View(s, initial, clock), turns) && InStep(s.buffer, s.all, clock)
    && InBatch(s.buffer.rows, s.published, s.batch)
  }

  /** How a drain ends: the buffer is empty, or its last turn had no connection or no reply. */
  ghost predicate Ended(s: Session, initial: seq<Row>, turns: seq<Turn>, clock: int) {
    && s.stopped && s.used <= |turns| && Inv(View(s, initial, clock), turns)
    && if s.empty then s.buffer.rows == [] && s.used == |s.published| && Flowed(turns, s.used)
       else && 0 < s.used && Flowed(turns, s.used - 1)
            && !(turns[s.used - 1].connected && turns[s.used - 1].replied)
            && |s.published| == if turns[s.used - 1].connected then s.used else s.used - 1
  }

  lemma WaitKeeps(d: Drain, turns: seq<Turn>, clock: int)
    requires Inv(d, turns) && d.clock <= clock
    ensures Inv(d.(clock := clock), turns)
  {
    assert d.all + [] == d.all && d.rows + [] == d.rows;
    ArrivalsKeep(d, turns, [], clock);
  }

  /** The rows that come in during a turn. */
  lemma ArrivalsInTurn(s: Session, initial: seq<Row>, turns: seq<Turn>, clock: int, later: int, arrivals: seq<Message>)
    requires Going(s, initial, turns, clock) && clock <= later
    ensures Going(s.(buffer := Arrived(s.buffer, arrivals, later), all := s.all + Added(s.buffer, arrivals, later)),
                  initial, turns, later)
  {
    var added := Added(s.buffer, arrivals, later);
    StepKeepsTime(s.buffer, s.all, clock, later);
    ArrivedRows(s.buffer, arrivals, later);
    ArrivedOrdered(s.buffer, s.all, arrivals, later);
    ArrivalsKeep(View(s, initial, clock), turns, added, later);
    BatchMeetsArrivals(s.all, s.buffer.rows, added, s.published, s.batch);
  }

  /** The message of a turn, once the others have come in. */
  lemma SendInTurn(s: Session, initial: seq<Row>, turns: seq<Turn>, clock: int)
    requires Going(s, initial, turns, clock) && s.batch != [] && s.used < |turns| && turns[s.used].connected
    ensures
      var m, turn := s.batch[0], turns[s.used];
      var sent := s.(published := s.published + [m], used := s.used + 1);
      if !turn.replied then Ended(sent.(stopped := true), initial, turns, clock)
      else Going(sent.(buffer := if turn.removed then Remove(s.buffer, m.id) else s.buffer, batch := s.batch[1..]),
                 initial, turns, clock)
  {
    var m, turn := s.batch[0], turns[s.used];
    HeadIsReady(s.buffer.rows, s.published, s.batch);
    if turn.Settles() {
      SettledTurnKeeps(View(s, initial, clock), turns, m);
      RemoveKeepsOrder(s.buffer, m.id, clock);
      WithoutIDMembers(s.buffer.rows, m.id);
      BatchGoesOn(s.buffer.rows, WithoutID(s.buffer.rows, m.id), s.published, s.batch);
    } else {
      UnsettledTurnKeeps(View(s, initial, clock), turns, m);
      BatchGoesOn(s.buffer.rows, s.buffer.rows, s.published, s.batch);
    }
  }

  lemma PublishKeeps(s: Session, initial: seq<Row>, turns: seq<Turn>, clock: int)
    requires Going(s, initial, turns, clock) && s.batch != [] && s.used < |turns|
    requires clock <= turns[s.used].later
    ensures
      var s', later := PublishOne(s, turns[s.used]), turns[s.used].later;
      Going(s', initial, turns, later) || Ended(s', initial, turns, later)
  {
    var turn := turns[s.used];
    if turn.connected {
      ArrivalsInTurn(s, initial, turns, clock, turn.later, turn.arrivals);
      SendInTurn(s.(buffer := Arrived(s.buffer, turn.arrivals, turn.later),
                    all := s.all + Added(s.buffer, turn.arrivals, turn.later)), initial, turns, turn.later);
    } else {
      WaitKeeps(View(s, initial, clock), turns, turn.later);
    }
  }

  lemma FetchKeeps(s: Session, initial: seq<Row>, turns: seq<Turn>, clock: int, now: int)
    requires Going(s, initial, turns, clock) && s.batch == [] && clock <= now
    ensures
      var fetched := Dequeue(s.buffer, now);
      if fetched.1 == [] then Ended(s.(buffer := fetched.0, stopped := true, empty := true), initial, turns, now)
      else Going(s.(buffer := fetched.0, batch := fetched.1), initial, turns, now)
  {
    StepKeepsTime(s.buffer, s.all, clock, now);
    DequeueKeepsOrder(s.buffer, clock, now);
    PruneKeeps(View(s, initial, clock), turns, now);
  }

  lemma TurnKeeps(s: Session, initial: seq<Row>, turns: seq<Turn>, clock: int)
    requires Going(s, initial, turns, clock) && s.used < |turns|
    requires clock <= turns[s.used].now <= turns[s.used].later
    ensures
      var s' := TakeTurn(s, turns[s.used]);
      || Going(s', initial, turns, turns[s.used].later)
      || Ended(s', initial, turns, turns[s.used].now)
      || Ended(s', initial, turns, turns[s.used].later)
  {
    var turn := turns[s.used];
    if s.batch != [] {
      PublishKeeps(s, initial, turns, clock);
    } else {
      FetchKeeps(s, initial, turns, clock, turn.now);
      var fetched := Dequeue(s.buffer, turn.now);
      if fetched.1 != [] {
        PublishKeeps(s.(buffer := fetched.0, batch := fetched.1), initial, turns, turn.now);
      }
    }
  }

  /**
   In every drain no row goes missing, nothing is passed over, a row is published again only
   after a turn that did not remove it, and first publications are in buffer order. One message
   is published per turn, and the drain ends only when the buffer is empty or a turn has no
   connection or no reply. `clock` is a time the drain has reached.
   */
  lemma {:induction false} DrainKeeps(b: Buffer, turns: seq<Turn>, start: int, k: nat) returns (clock: int)
    requires Ordered(b, start) && ClockAdvances(turns, start) && k <= |turns|
    ensures Stands(SessionAfter(Opened(b), turns, 0, k), b.rows, turns, clock, k)
    ensures clock <= Reached(turns, start, k)
  {
    if k == 0 {
      clock := start;
      DrainStarts(b, turns, start);
    } else {
      clock := DrainKeeps(b, turns, start, k - 1);
      TurnTimes(turns, start, k - 1);
      clock := DrainStep(SessionAfter(Opened(b), turns, 0, k - 1), b.rows, turns, clock, k - 1);
    }
  }

  function Reached(turns: seq<Turn>, start: int, k: nat): int
    requires k <= |turns|
  {
    if k == 0 then start else turns[k - 1].later
  }

  lemma TurnTimes(turns: seq<Turn>, start: int, k: nat)
    requires ClockAdvances(turns, start) && k < |turns|
    ensures Reached(turns, start, k) <= turns[k].now <= turns[k].later
  {
  }

  /** A drain after k turns, at a time it has reached. */
  ghost predicate Stands(s: Session, initial: seq<Row>, turns: seq<Turn>, clock: int, k: nat) {
    if s.stopped then Ended(s, initial, turns, clock) else s.used == k && Going(s, initial, turns, clock)
  }

  lemma DrainStarts(b: Buffer, turns: seq<Turn>, start: int)
    requires Ordered(b, start)
    ensures Going(Opened(b), b.rows, turns, start)
  {
  }

  lemma DrainStep(s: Session, initial: seq<Row>, turns: seq<Turn>, clock: int, k: nat) returns (clock': int)
    requires k < |turns| && Stands(s, initial, turns, clock, k) && clock <= turns[k].now <= turns[k].later
    ensures Stands(TakeTurn(s, turns[k]), initial, turns, clock', k + 1) && clock' <= turns[k].later
  {
    clock' := clock;
    if !s.stopped {
      TurnKeeps(s, initial, turns, clock);
      UsedOneMore(s, turns[k]);
      clock' := if Ended(TakeTurn(s, turns[k]), initial, turns, turns[k].now) then turns[k].now else turns[k].later;
    }
  }

  lemma UsedOneMore(s: Session, turn: Turn)
    requires !s.stopped
    ensures TakeTurn(s, turn).stopped || TakeTurn(s, turn).used == s.used + 1
  {
  }

  /** If no removal failed, messages are published in order without repeats and a tail of the rows is left. */
  lemma DrainLeavesTail(b: Buffer, turns: seq<Turn>, start: int)
    requires Ordered(b, start) && ClockAdvances(turns, start)
    requires forall i :: 0 <= i < |turns| ==> turns[i].removed
    ensures
      var s := DrainAll(b, turns);
      && Ascending(s.published) && b.rows <= s.all
      && |s.buffer.rows| <= |s.all| && s.buffer.rows == s.all[|s.all| - |s.buffer.rows|..]
  {
    var clock := DrainKeeps(b, turns, start, |turns|);
    SettledLeavesTail(View(DrainAll(b, turns), b.rows, clock), turns);
  }
}
