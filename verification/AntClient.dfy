/**
 The ant client's own loops: failing the pending table, routing a reply, and draining the
 offline buffer after a reconnect.
 */
module AntClient {
  import opened Outbox
  import opened AntProtocol
  import opened Draining

  class Client {
    var connected: bool
    var pending: set<nat>
    var slots: map<nat, Reply>
    const buffer: OfflineBuffer

    constructor (buffer: OfflineBuffer)
      ensures !connected && pending == {} && slots == map[] && this.buffer == buffer
    {
      connected, pending, slots := false, {}, map[];
      this.buffer := buffer;
    }

    /** The client's fields are those of a state of the protocol. */
    ghost predicate Mirrors(s: State)
      reads this
    {
      connected == s.connected && pending == s.pending && slots == s.slots
    }

    /** Loses the connection and fails the pending table, as the protocol does in two steps. */
    method TriggerReconnect(ghost s: State)
      requires Mirrors(s)
      modifies this
      ensures Mirrors(Apply(Apply(s, Disconnect), FailPending))
      ensures !connected && pending == {}
      ensures slots.Keys == old(slots).Keys + old(pending)
      ensures forall id :: id in slots ==>
        slots[id] == if id in old(slots) then old(slots)[id] else Reply(id, Error)
    {
      connected := false;
      while pending != {}
        invariant pending <= old(pending)
        invariant slots.Keys == old(slots).Keys + (old(pending) - pending)
        invariant forall id :: id in slots ==>
          slots[id] == if id in old(slots) then old(slots)[id] else Reply(id, Error)
        invariant !connected
        decreases pending
      {
        var id :| id in pending;
        if id !in slots {
          slots := slots[id := Reply(id, Error)];
        }
        pending := pending - {id};
      }
    }

    /**
     A reply goes to the waiter registered under its ID, if there is one and its slot is free:
     the protocol's look-up and, if it finds a waiter, its put.
     */
    method DispatchReply(reply: Reply, ghost s: State, ghost i: nat)
      requires Mirrors(s) && i < |s.down| && s.down[i] == reply
      modifies this
      ensures
        var found := Apply(s, Lookup(i));
        Mirrors(if reply.id in s.pending then Apply(found, Step.Put(|found.inHand| - 1)) else found)
      ensures slots == if reply.id in old(pending) && reply.id !in old(slots)
                       then old(slots)[reply.id := reply] else old(slots)
    {
      if reply.id in pending {
        if reply.id !in slots {
          slots := slots[reply.id := reply];
        }
      }
    }

    method BufferAll(arrivals: seq<Message>, now: int)
      modifies buffer
      ensures buffer.State() == Arrived(old(buffer.State()), arrivals, now)
    {
      for i := 0 to |arrivals|
        invariant buffer.State() == Arrived(old(buffer.State()), arrivals[..i], now)
      {
        assert arrivals[..i + 1][..i] == arrivals[..i];
        var ok := buffer.EnqueueMessage(arrivals[i], now, now);
      }
      assert arrivals[..|arrivals|] == arrivals;
    }

    /** One message of a batch; `go` says whether the drain goes on to the next. */
    method DrainOne(m: Row, turn: Turn, published: seq<Row>, ghost s: Session)
      returns (published': seq<Row>, go: bool, ghost s': Session)
      requires s.buffer == buffer.State() && s.batch != [] && s.batch[0] == m && !s.stopped && s.published == published
      modifies buffer
      ensures s' == TakeTurn(s, turn) && s'.buffer == buffer.State() && s'.published == published'
      ensures s'.used == s.used + 1 && s'.empty == s.empty
      ensures go == !s'.stopped && (go ==> s'.batch == s.batch[1..])
    {
      s' := PublishOne(s, turn);
      if !turn.connected {
        return published, false, s';
      }
      BufferAll(turn.arrivals, turn.later);
      published' := published + [m];
      if !turn.replied {
        return published', false, s';
      }
      if turn.removed {
        buffer.RemoveRow(m.id);
      }
      go := true;
    }

    /** Message `i` of a batch that was started at turn `t`. */
    method DrainNext(msgs: seq<Row>, i: nat, turns: seq<Turn>, ghost t: nat, next: nat, published: seq<Row>,
                     ghost s: Session, ghost now: Session)
      returns (published': seq<Row>, go: bool, ghost s': Session)
      requires i < |msgs| && t <= next < |turns| && now == SessionAfter(s, turns, t, next)
      requires now.buffer == buffer.State() && now.batch == msgs[i..] && !now.stopped && now.published == published
      modifies buffer
      ensures s' == SessionAfter(s, turns, t, next + 1) && s'.buffer == buffer.State() && s'.published == published'
      ensures s'.used == now.used + 1 && s'.empty == now.empty
      ensures go == !s'.stopped && (go ==> s'.batch == msgs[i + 1..])
    {
      assert msgs[i..][1..] == msgs[i + 1..];
      published', go, s' := DrainOne(msgs[i], turns[next], published, now);
    }

    /** The messages of one batch in turn; `go` says whether to fetch again. */
    method DrainBatch(msgs: seq<Row>, turns: seq<Turn>, t: nat, published: seq<Row>, ghost s: Session)
      returns (published': seq<Row>, t': nat, go: bool, ghost s': Session)
      requires msgs != [] && t < |turns| && s.buffer == buffer.State() && s.batch == msgs
      requires !s.stopped && !s.empty && s.published == published && s.used == t
      modifies buffer
      ensures t < t' <= |turns| && s' == SessionAfter(s, turns, t, t')
      ensures s'.buffer == buffer.State() && s'.published == published' && s'.used == t' && !s'.empty
      ensures go == !s'.stopped && (go ==> s'.batch == [] || t' == |turns|)
    {
      published', t', go, s' := published, t, true, s;
      var i := 0;
      while i < |msgs| && go && t' < |turns|
        invariant 0 <= i <= |msgs| && t' == t + i <= |turns|
        invariant s' == SessionAfter(s, turns, t, t') && s'.buffer == buffer.State()
        invariant s'.published == published' && s'.used == t' && !s'.empty
        invariant go == !s'.stopped && (go ==> s'.batch == msgs[i..])
      {
        published', go, s' := DrainNext(msgs, i, turns, t, t', published', s, s');
        t', i := t' + 1, i + 1;
      }
    }

    /** A drain on its own is the session that `Draining` speaks about. */
    method DrainBuffer(turns: seq<Turn>) returns (published: seq<Row>, used: nat, empty: bool)
      modifies buffer
      ensures
        var s := DrainAll(old(buffer.State()), turns);
        buffer.State() == s.buffer && published == s.published && used == s.used && empty == s.empty
    {
      published, used, empty := [], 0, false;
      ghost var s0 := Opened(buffer.State());
      ghost var s := s0;
      var go := true;
      while go && used < |turns|
        invariant used <= |turns| && s == SessionAfter(s0, turns, 0, used) && go == !s.stopped && !s.empty
        invariant s.buffer == buffer.State() && s.published == published && s.used == used
        invariant go ==> s.batch == [] || used == |turns|
        decreases |turns| - used, go
      {
        var msgs := buffer.DequeueAll(turns[used].now);
        if msgs == [] {
          SessionStays(s0, turns, used + 1, |turns|);
          return published, used, true;
        }
        ghost var t := used;
        ghost var fetched := s.(buffer := buffer.State(), batch := msgs);
        published, used, go, fetched := DrainBatch(msgs, turns, used, published, fetched);
        SessionAfterFetch(s, turns, t, used);
        SessionInParts(s0, turns, t, used);
        s := fetched;
      }
      if !go {
        SessionStays(s0, turns, used, |turns|);
      }
    }
  }

  lemma {:induction false} SessionInParts(s: Session, turns: seq<Turn>, mid: nat, hi: nat)
    requires mid <= hi <= |turns|
    ensures SessionAfter(SessionAfter(s, turns, 0, mid), turns, mid, hi) == SessionAfter(s, turns, 0, hi)
  {
    if mid < hi {
      SessionInParts(s, turns, mid, hi - 1);
    }
  }

  lemma {:induction false} SessionStays(s: Session, turns: seq<Turn>, mid: nat, hi: nat)
    requires mid <= hi <= |turns| && SessionAfter(s, turns, 0, mid).stopped
    ensures SessionAfter(s, turns, 0, hi) == SessionAfter(s, turns, 0, mid)
  {
    if mid < hi {
      SessionStays(s, turns, mid, hi - 1);
    }
  }

  /** A turn that fetches a batch goes on as if the batch had been there. */
  lemma {:induction false} SessionAfterFetch(s: Session, turns: seq<Turn>, lo: nat, hi: nat)
    requires lo < hi <= |turns| && !s.stopped && s.batch == [] && Dequeue(s.buffer, turns[lo].now).1 != []
    ensures
      var fetched := Dequeue(s.buffer, turns[lo].now);
      SessionAfter(s, turns, lo, hi) == SessionAfter(s.(buffer := fetched.0, batch := fetched.1), turns, lo, hi)
  {
    if lo + 1 < hi {
      SessionAfterFetch(s, turns, lo, hi - 1);
    } else {
      assert SessionAfter(s, turns, lo, lo) == s;
    }
  }
}
