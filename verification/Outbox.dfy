/**
 The ant's durable offline buffer: an ordered table of rows with an expiry time.

 Clock readings are in nanoseconds; the table stores whole seconds. The reference is a
 ledger that never deletes anything: pruning expired rows must not be observable.
 */
module Outbox {

  const SECOND := 1_000_000_000

  /** time.Time.Unix() */
  function Unix(t: int): int { t / SECOND }

  /** `origin` tells apart the sends that messages come from. */
  datatype Message = Message(origin: nat, topic: string, payload: string, properties: map<string, string>)

  datatype Row = Row(id: nat, message: Message, createdAt: int, expiresAt: int)

  datatype Buffer = Buffer(rows: seq<Row>, nextID: nat, maxSize: int, ttl: int)

  /** SELECT ... WHERE expires_at > now ORDER BY id */
  function Live(rows: seq<Row>, now: int): (live: seq<Row>)
    ensures |live| <= |rows|
  {
    if rows == [] then []
    else
      var last := rows[|rows| - 1];
      Live(rows[..|rows| - 1], now) + (if last.expiresAt > now then [last] else [])
  }

  /** DELETE ... WHERE id = ? */
  function WithoutID(rows: seq<Row>, id: nat): (left: seq<Row>)
    ensures |left| <= |rows|
  {
    if rows == [] then []
    else
      var last := rows[|rows| - 1];
      WithoutID(rows[..|rows| - 1], id) + (if last.id == id then [] else [last])
  }

  /** Refuses when the live rows fill the buffer. `later` is the clock when the row is written. */
  function Enqueue(b: Buffer, m: Message, now: int, later: int): (Buffer, bool) {
    if |Live(b.rows, Unix(now))| >= b.maxSize then (b, false)
    else
      (b.(rows := b.rows + [Row(b.nextID, m, Unix(now), Unix(later + b.ttl))], nextID := b.nextID + 1), true)
  }

  /** Prunes expired rows and returns the rest. */
  function Dequeue(b: Buffer, now: int): (Buffer, seq<Row>) {
    var live := Live(b.rows, Unix(now));
    (b.(rows := live), live)
  }

  function Remove(b: Buffer, id: nat): Buffer { b.(rows := WithoutID(b.rows, id)) }

  /******* The shape of the table *******/

  ghost predicate InOrder(rows: seq<Row>) {
    forall i, j :: 0 <= i < j < |rows| ==> rows[i].id < rows[j].id && rows[i].expiresAt <= rows[j].expiresAt
  }

  /** Row IDs increase, and so do expiry times; the next row expires no earlier than any before. */
  ghost predicate Ordered(b: Buffer, clock: int) {
    && InOrder(b.rows)
    && (forall i :: 0 <= i < |b.rows| ==>
          b.rows[i].id < b.nextID && b.rows[i].expiresAt <= Unix(clock + b.ttl))
  }

  ghost predicate Within(b: Buffer, clock: int) {
    |Live(b.rows, Unix(clock))| <= if b.maxSize < 0 then 0 else b.maxSize
  }

  lemma {:induction false} AllExpired(rows: seq<Row>, now: int)
    requires rows != [] && InOrder(rows) && rows[|rows| - 1].expiresAt <= now
    ensures Live(rows, now) == [] && forall i :: 0 <= i < |rows| ==> rows[i].expiresAt <= now
  {
    if |rows| > 1 {
      var init := rows[..|rows| - 1];
      assert rows[|rows| - 2].expiresAt <= rows[|rows| - 1].expiresAt && init[|init| - 1] == rows[|rows| - 2];
      AllExpired(init, now);
      assert forall i :: 0 <= i < |init| ==> rows[i] == init[i];
    }
  }

  /** The live rows of an ordered table are its tail: expired rows form a prefix. */
  lemma {:induction false} ExpiredRowsArePrefix(rows: seq<Row>, now: int)
    requires InOrder(rows)
    ensures
      var k := |rows| - |Live(rows, now)|;
      && Live(rows, now) == rows[k..]
      && (forall i :: 0 <= i < k ==> rows[i].expiresAt <= now)
      && (forall i :: k <= i < |rows| ==> rows[i].expiresAt > now)
  {
    if rows != [] {
      var init, last := rows[..|rows| - 1], rows[|rows| - 1];
      if last.expiresAt <= now {
        AllExpired(rows, now);
      } else {
        ExpiredRowsArePrefix(init, now);
        var k := |init| - |Live(init, now)|;
        assert rows[k..] == init[k..] + [last];
        assert forall i :: 0 <= i < |init| ==> rows[i] == init[i];
      }
    }
  }

  lemma {:induction false} WithoutIDMembers(rows: seq<Row>, id: nat)
    ensures forall r :: r in WithoutID(rows, id) <==> r in rows && r.id != id
  {
    if rows != [] {
      WithoutIDMembers(rows[..|rows| - 1], id);
      assert rows == rows[..|rows| - 1] + [rows[|rows| - 1]];
    }
  }

  lemma {:induction false} WithoutIDKeepsOrder(rows: seq<Row>, id: nat)
    requires InOrder(rows)
    ensures InOrder(WithoutID(rows, id))
  {
    if rows != [] {
      var init, last := rows[..|rows| - 1], rows[|rows| - 1];
      WithoutIDKeepsOrder(init, id);
      WithoutIDMembers(init, id);
      var left := WithoutID(init, id);
      forall k | 0 <= k < |left|
        ensures left[k].id < last.id && left[k].expiresAt <= last.expiresAt
      {
        assert left[k] in init;
        var i :| 0 <= i < |init| && init[i] == left[k];
        assert rows[i] == left[k];
      }
    }
  }

  lemma {:induction false} LiveShrinks(rows: seq<Row>, now: int, later: int)
    requires now <= later
    ensures Live(Live(rows, now), later) == Live(rows, later)
    ensures |Live(rows, later)| <= |Live(rows, now)|
  {
    if rows != [] {
      LiveShrinks(rows[..|rows| - 1], now, later);
      LiveConcat(Live(rows[..|rows| - 1], now), if rows[|rows| - 1].expiresAt > now then [rows[|rows| - 1]] else [], later);
    }
  }

  lemma {:induction false} LiveConcat(a: seq<Row>, b: seq<Row>, now: int)
    ensures Live(a + b, now) == Live(a, now) + Live(b, now)
  {
    if b == [] {
      assert a + b == a;
    } else {
      assert (a + b)[..|a + b| - 1] == a + b[..|b| - 1];
      LiveConcat(a, b[..|b| - 1], now);
    }
  }

  lemma {:induction false} WithoutIDConcat(a: seq<Row>, b: seq<Row>, id: nat)
    ensures WithoutID(a + b, id) == WithoutID(a, id) + WithoutID(b, id)
  {
    if b == [] {
      assert a + b == a;
    } else {
      assert (a + b)[..|a + b| - 1] == a + b[..|b| - 1];
      WithoutIDConcat(a, b[..|b| - 1], id);
    }
  }

  lemma {:induction false} RemoveCommutes(rows: seq<Row>, id: nat, now: int)
    ensures Live(WithoutID(rows, id), now) == WithoutID(Live(rows, now), id)
  {
    if rows != [] {
      var init, last := rows[..|rows| - 1], rows[|rows| - 1];
      RemoveCommutes(init, id, now);
      LiveConcat(WithoutID(init, id), if last.id == id then [] else [last], now);
      WithoutIDConcat(Live(init, now), if last.expiresAt > now then [last] else [], id);
    }
  }

  /******* Runs against a ledger that never deletes *******/

  datatype Op = Put(message: Message, now: int, later: int) | Take(now: int) | Drop(id: nat)

  /** What the caller sees of an operation. */
  datatype Seen = Accepted(ok: bool) | Taken(rows: seq<Row>) | Dropped

  function Do(b: Buffer, op: Op): (Buffer, Seen) {
    match op
    case Put(m, now, later) => var r := Enqueue(b, m, now, later); (r.0, Accepted(r.1))
    case Take(now) => var r := Dequeue(b, now); (r.0, Taken(r.1))
    case Drop(id) => (Remove(b, id), Dropped)
  }

  datatype Ledger = Ledger(accepted: seq<Row>, removed: set<nat>, maxSize: int, ttl: int)

  /** Accepted rows that are neither removed nor expired, in the order they were accepted. */
  function Owed(accepted: seq<Row>, removed: set<nat>, now: int): seq<Row> {
    if accepted == [] then []
    else
      var last := accepted[|accepted| - 1];
      Owed(accepted[..|accepted| - 1], removed, now) +
      (if last.expiresAt > now && last.id !in removed then [last] else [])
  }

  /** SQLite numbers rows from 1 and never reuses a number. */
  function DoLedger(l: Ledger, op: Op): (Ledger, Seen) {
    match op
    case Put(m, now, later) =>
      if |Owed(l.accepted, l.removed, Unix(now))| >= l.maxSize then (l, Accepted(false))
      else
        var row := Row(|l.accepted| + 1, m, Unix(now), Unix(later + l.ttl));
        (l.(accepted := l.accepted + [row]), Accepted(true))
    case Take(now) => (l, Taken(Owed(l.accepted, l.removed, Unix(now))))
    case Drop(id) => (if id <= |l.accepted| then l.(removed := l.removed + {id}) else l, Dropped)
  }

  function Clock(ops: seq<Op>, start: int): int {
    if ops == [] then start
    else
      match ops[|ops| - 1]
      case Put(_, _, later) => later
      case Take(now) => now
      case Drop(_) => Clock(ops[..|ops| - 1], start)
  }

  /** The clock never goes back. */
  predicate ClockRuns(ops: seq<Op>, start: int) {
    ops != [] ==>
      && ClockRuns(ops[..|ops| - 1], start)
      && (match ops[|ops| - 1]
          case Put(_, now, later) => Clock(ops[..|ops| - 1], start) <= now <= later
          case Take(now) => Clock(ops[..|ops| - 1], start) <= now
          case Drop(_) => true)
  }

  function DoAll(b: Buffer, ops: seq<Op>): (Buffer, seq<Seen>) {
    if ops == [] then (b, [])
    else
      var before := DoAll(b, ops[..|ops| - 1]);
      var r := Do(before.0, ops[|ops| - 1]);
      (r.0, before.1 + [r.1])
  }

  function DoAllLedger(l: Ledger, ops: seq<Op>): (Ledger, seq<Seen>) {
    if ops == [] then (l, [])
    else
      var before := DoAllLedger(l, ops[..|ops| - 1]);
      var r := DoLedger(before.0, ops[|ops| - 1]);
      (r.0, before.1 + [r.1])
  }

  /** From `now` on, the table's live rows are what the ledger owes. */
  ghost predicate Agree(b: Buffer, l: Ledger, now: int) {
    && b.nextID == |l.accepted| + 1 && b.maxSize == l.maxSize && b.ttl == l.ttl
    && (forall i :: 0 <= i < |l.accepted| ==> l.accepted[i].id == i + 1)
    && (forall id :: id in l.removed ==> id <= |l.accepted|)
    && forall t :: t >= now ==> Live(b.rows, t) == Owed(l.accepted, l.removed, t)
  }

  lemma {:induction false} OwedRemoves(accepted: seq<Row>, removed: set<nat>, id: nat, now: int)
    ensures Owed(accepted, removed + {id}, now) == WithoutID(Owed(accepted, removed, now), id)
  {
    if accepted != [] {
      var init, last := accepted[..|accepted| - 1], accepted[|accepted| - 1];
      OwedRemoves(init, removed, id, now);
      WithoutIDConcat(Owed(init, removed, now), if last.expiresAt > now && last.id !in removed then [last] else [], id);
    }
  }

  lemma {:induction false} WithoutAbsentID(accepted: seq<Row>, removed: set<nat>, id: nat, now: int)
    requires forall i :: 0 <= i < |accepted| ==> accepted[i].id == i + 1
    requires id > |accepted|
    ensures WithoutID(Owed(accepted, removed, now), id) == Owed(accepted, removed, now)
  {
    if accepted != [] {
      var init, last := accepted[..|accepted| - 1], accepted[|accepted| - 1];
      WithoutAbsentID(init, removed, id, now);
      WithoutIDConcat(Owed(init, removed, now), if last.expiresAt > now && last.id !in removed then [last] else [], id);
    }
  }

  lemma PutAgrees(b: Buffer, l: Ledger, m: Message, now: int, later: int)
    requires Agree(b, l, Unix(now)) && now <= later
    ensures Do(b, Put(m, now, later)).1 == DoLedger(l, Put(m, now, later)).1
    ensures Agree(Do(b, Put(m, now, later)).0, DoLedger(l, Put(m, now, later)).0, Unix(later))
  {
    var b', l' := Do(b, Put(m, now, later)).0, DoLedger(l, Put(m, now, later)).0;
    assert Live(b.rows, Unix(now)) == Owed(l.accepted, l.removed, Unix(now));
    forall t | t >= Unix(later)
      ensures Live(b'.rows, t) == Owed(l'.accepted, l'.removed, t)
    {
      assert Live(b.rows, t) == Owed(l.accepted, l.removed, t);
      if b' != b {
        assert b'.rows[..|b.rows|] == b.rows && l'.accepted[..|l.accepted|] == l.accepted;
      }
    }
  }

  lemma TakeAgrees(b: Buffer, l: Ledger, now: int)
    requires Agree(b, l, Unix(now))
    ensures Do(b, Take(now)).1 == DoLedger(l, Take(now)).1
    ensures Agree(Do(b, Take(now)).0, l, Unix(now))
  {
    forall t | t >= Unix(now)
      ensures Live(Live(b.rows, Unix(now)), t) == Owed(l.accepted, l.removed, t)
    {
      LiveShrinks(b.rows, Unix(now), t);
    }
  }

  lemma DropAgrees(b: Buffer, l: Ledger, id: nat, now: int)
    requires Agree(b, l, now)
    ensures Agree(Do(b, Drop(id)).0, DoLedger(l, Drop(id)).0, now)
  {
    var removed := DoLedger(l, Drop(id)).0.removed;
    forall t | t >= now
      ensures Live(WithoutID(b.rows, id), t) == Owed(l.accepted, removed, t)
    {
      assert Live(b.rows, t) == Owed(l.accepted, l.removed, t);
      DropAgreesAt(b.rows, l, id, t);
    }
  }

  /** At one time: removing an ID from the table and from what is owed. */
  lemma DropAgreesAt(rows: seq<Row>, l: Ledger, id: nat, t: int)
    requires forall i :: 0 <= i < |l.accepted| ==> l.accepted[i].id == i + 1
    requires Live(rows, t) == Owed(l.accepted, l.removed, t)
    ensures Live(WithoutID(rows, id), t) == Owed(l.accepted, DoLedger(l, Drop(id)).0.removed, t)
  {
    RemoveCommutes(rows, id, t);
    if id > |l.accepted| {
      WithoutAbsentID(l.accepted, l.removed, id, t);
    } else {
      OwedRemoves(l.accepted, l.removed, id, t);
    }
  }

  /**
   For every sequence of operations with a clock that never goes back, every acceptance and
   every returned list is that of the ledger: DequeueAll returns exactly the live unremoved
   rows in enqueue order, and the prune cannot be noticed.
   */
  lemma {:induction false} RefinesLedger(ops: seq<Op>, start: int, maxSize: int, ttl: int)
    requires ClockRuns(ops, start)
    ensures DoAll(Buffer([], 1, maxSize, ttl), ops).1 == DoAllLedger(Ledger([], {}, maxSize, ttl), ops).1
    ensures Agree(DoAll(Buffer([], 1, maxSize, ttl), ops).0, DoAllLedger(Ledger([], {}, maxSize, ttl), ops).0,
                  Unix(Clock(ops, start)))
  {
    if ops != [] {
      var init := ops[..|ops| - 1];
      RefinesLedger(init, start, maxSize, ttl);
      var b, l := DoAll(Buffer([], 1, maxSize, ttl), init).0, DoAllLedger(Ledger([], {}, maxSize, ttl), init).0;
      match ops[|ops| - 1]
      case Put(m, now, later) =>
        assert Agree(b, l, Unix(now));
        PutAgrees(b, l, m, now, later);
      case Take(now) =>
        assert Agree(b, l, Unix(now));
        TakeAgrees(b, l, now);
      case Drop(id) =>
        DropAgrees(b, l, id, Unix(Clock(init, start)));
    }
  }

  lemma {:induction false} LiveMembers(rows: seq<Row>, now: int)
    ensures forall r :: r in Live(rows, now) <==> r in rows && r.expiresAt > now
  {
    if rows != [] {
      LiveMembers(rows[..|rows| - 1], now);
      assert rows == rows[..|rows| - 1] + [rows[|rows| - 1]];
    }
  }

  lemma UnixMonotone(s: int, t: int)
    requires s <= t
    ensures Unix(s) <= Unix(t)
  {
  }

  lemma EnqueueKeepsOrder(b: Buffer, m: Message, clock: int, now: int, later: int)
    requires Ordered(b, clock) && clock <= now <= later
    ensures Ordered(Enqueue(b, m, now, later).0, later)
  {
    UnixMonotone(clock + b.ttl, later + b.ttl);
  }

  lemma DequeueKeepsOrder(b: Buffer, clock: int, now: int)
    requires Ordered(b, clock) && clock <= now
    ensures Ordered(Dequeue(b, now).0, now)
  {
    UnixMonotone(clock + b.ttl, now + b.ttl);
    ExpiredRowsArePrefix(b.rows, Unix(now));
  }

  lemma RemoveKeepsOrder(b: Buffer, id: nat, clock: int)
    requires Ordered(b, clock)
    ensures Ordered(Remove(b, id), clock)
  {
    WithoutIDKeepsOrder(b.rows, id);
    WithoutIDMembers(b.rows, id);
    var left := WithoutID(b.rows, id);
    forall i | 0 <= i < |left|
      ensures left[i].id < b.nextID && left[i].expiresAt <= Unix(clock + b.ttl)
    {
      assert left[i] in b.rows;
    }
  }

  /** In every run the live rows never exceed the size limit, and expired rows form a prefix. */
  lemma {:induction false} RunKeepsOrder(ops: seq<Op>, start: int, maxSize: int, ttl: int)
    requires ClockRuns(ops, start)
    ensures
      var b := DoAll(Buffer([], 1, maxSize, ttl), ops).0;
      && b.maxSize == maxSize
      && Ordered(b, Clock(ops, start)) && Within(b, Clock(ops, start))
  {
    if ops != [] {
      var init, last := ops[..|ops| - 1], ops[|ops| - 1];
      RunKeepsOrder(init, start, maxSize, ttl);
      var b := DoAll(Buffer([], 1, maxSize, ttl), init).0;
      match last
      case Put(m, now, later) =>
        EnqueueKeepsOrder(b, m, Clock(init, start), now, later);
        UnixMonotone(now, later);
        UnixMonotone(Clock(init, start), later);
        LiveShrinks(b.rows, Unix(now), Unix(later));
        LiveShrinks(b.rows, Unix(Clock(init, start)), Unix(later));
        var b' := Do(b, last).0;
        if b' != b {
          assert b'.rows[..|b.rows|] == b.rows;
        }
      case Take(now) =>
        DequeueKeepsOrder(b, Clock(init, start), now);
        UnixMonotone(Clock(init, start), now);
        LiveShrinks(b.rows, Unix(Clock(init, start)), Unix(now));
      case Drop(id) =>
        RemoveKeepsOrder(b, id, Clock(init, start));
        RemoveCommutes(b.rows, id, Unix(Clock(init, start)));
    }
  }

  /******* The buffer object *******/

  class OfflineBuffer {
    var rows: seq<Row>
    var nextID: nat
    const maxSize: int
    const ttl: int

    ghost function State(): Buffer
      reads this
    {
      Buffer(rows, nextID, maxSize, ttl)
    }

    constructor (maxSize: int, ttl: int)
      ensures State() == Buffer([], 1, maxSize, ttl)
    {
      rows, nextID := [], 1;
      this.maxSize, this.ttl := maxSize, ttl;
    }

    method Count(now: int) returns (n: nat)
      ensures n == |Live(rows, Unix(now))|
    {
      n := 0;
      for i := 0 to |rows|
        invariant n == |Live(rows[..i], Unix(now))|
      {
        assert rows[..i + 1][..i] == rows[..i];
        if rows[i].expiresAt > Unix(now) {
          n := n + 1;
        }
      }
      assert rows[..|rows|] == rows;
    }

    method EnqueueMessage(m: Message, now: int, later: int) returns (ok: bool)
      modifies this
      ensures (State(), ok) == Enqueue(old(State()), m, now, later)
    {
      var count := Count(now);
      if count >= maxSize {
        return false;
      }
      rows := rows + [Row(nextID, m, Unix(now), Unix(later + ttl))];
      nextID := nextID + 1;
      ok := true;
    }

    method DequeueAll(now: int) returns (msgs: seq<Row>)
      modifies this
      ensures (State(), msgs) == Dequeue(old(State()), now)
    {
      msgs := [];
      for i := 0 to |rows|
        invariant rows == old(rows) && msgs == Live(rows[..i], Unix(now))
      {
        assert rows[..i + 1][..i] == rows[..i];
        if rows[i].expiresAt > Unix(now) {
          msgs := msgs + [rows[i]];
        }
      }
      assert rows[..|rows|] == rows;
      rows := msgs;
    }

    method RemoveRow(id: nat)
      modifies this
      ensures State() == Remove(old(State()), id)
    {
      var left := [];
      for i := 0 to |rows|
        invariant rows == old(rows) && left == WithoutID(rows[..i], id)
      {
        assert rows[..i + 1][..i] == rows[..i];
        if rows[i].id != id {
          left := left + [rows[i]];
        }
      }
      assert rows[..|rows|] == rows;
      rows := left;
    }
  }
}
