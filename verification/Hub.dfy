/**
 The queen's side of the WebSocket queue: which ant connection is subscribed to which topic.

 Two indexes are kept: each topic has a table of its remote subscriptions, and each
 connection lists its subscription IDs by topic. A connection's list outlives its
 registration, and cleaning up after it relies on that list alone.
 */
module Hub {

  datatype Remote = Remote(conn: nat, topic: string)

  datatype Topic = Topic(locals: set<nat>, remotes: map<nat, Remote>)

  type Listing = map<string, seq<nat>>

  /** Subscription and connection IDs are fresh: they are numbered as they are given out. */
  datatype State = State(
    topics: map<string, Topic>, live: set<nat>, lists: map<nat, Listing>, nextSub: nat, nextConn: nat)

  const EMPTY_TOPIC := Topic({}, map[])

  /******* Operations *******/

  function GetTopic(s: State, name: string): Topic {
    if name in s.topics then s.topics[name] else EMPTY_TOPIC
  }

  function Listed(list: Listing, topic: string): seq<nat> {
    if topic in list then list[topic] else []
  }

  /** The first occurrence goes; removeSub stops there. */
  function WithoutFirst(ids: seq<nat>, id: nat): (r: seq<nat>)
    ensures |r| <= |ids|
  {
    if ids == [] then [] else if ids[0] == id then ids[1..] else [ids[0]] + WithoutFirst(ids[1..], id)
  }

  function RemoveSub(list: Listing, topic: string, id: nat): Listing {
    var ids := WithoutFirst(Listed(list, topic), id);
    if ids == [] then list - {topic} else list[topic := ids]
  }

  function AddSub(list: Listing, topic: string, id: nat): Listing {
    list[topic := Listed(list, topic) + [id]]
  }

  function Accept(s: State): State {
    s.(live := s.live + {s.nextConn}, lists := s.lists[s.nextConn := map[]], nextConn := s.nextConn + 1)
  }

  /** handleSubscribeFrame; the connection object is known even when it is no longer registered. */
  function Subscribe(s: State, conn: nat, topic: string): State
    requires conn in s.lists
  {
    var t := GetTopic(s, topic);
    s.(topics := s.topics[topic := t.(remotes := t.remotes[s.nextSub := Remote(conn, topic)])],
       lists := s.lists[conn := AddSub(s.lists[conn], topic, s.nextSub)],
       nextSub := s.nextSub + 1)
  }

  /** A subscribe that inserts into a topic object which has left the table: only the list gets the ID. */
  function Orphan(s: State, conn: nat, topic: string): State
    requires conn in s.lists
  {
    s.(lists := s.lists[conn := AddSub(s.lists[conn], topic, s.nextSub)], nextSub := s.nextSub + 1)
  }

  /** handleUnsubscribeFrame; it takes any subscription ID, whoever owns it. */
  function Unsubscribe(s: State, conn: nat, topic: string, id: nat): State
    requires conn in s.lists
  {
    var topics := if topic in s.topics
                  then s.topics[topic := s.topics[topic].(remotes := s.topics[topic].remotes - {id})]
                  else s.topics;
    s.(topics := topics, lists := s.lists[conn := RemoveSub(s.lists[conn], topic, id)])
  }

  function Elements(ids: seq<nat>): set<nat> { set id | id in ids }

  function Cleaned(t: Topic, ids: seq<nat>): Topic { t.(remotes := t.remotes - Elements(ids)) }

  /** A topic the connection lists loses its IDs, and goes altogether when no subscriber is left. */
  function CleanTopics(topics: map<string, Topic>, list: Listing, names: set<string>): map<string, Topic> {
    map name | name in topics && !(name in names && name in list && Cleaned(topics[name], list[name]) == EMPTY_TOPIC) ::
      if name in names && name in list then Cleaned(topics[name], list[name]) else topics[name]
  }

  function RemoveConn(s: State, conn: nat): State
    requires conn in s.lists
  {
    s.(live := s.live - {conn}, topics := CleanTopics(s.topics, s.lists[conn], s.lists[conn].Keys))
  }

  function SubscribeLocal(s: State, topic: string): State {
    var t := GetTopic(s, topic);
    s.(topics := s.topics[topic := t.(locals := t.locals + {s.nextSub})], nextSub := s.nextSub + 1)
  }

  function DropIfEmpty(topics: map<string, Topic>, name: string): map<string, Topic> {
    if name in topics && topics[name] == EMPTY_TOPIC then topics - {name} else topics
  }

  function UnsubscribeLocal(s: State, topic: string, id: nat): State {
    if topic !in s.topics || id !in s.topics[topic].locals then s
    else
      var t := s.topics[topic];
      s.(topics := DropIfEmpty(s.topics[topic := t.(locals := t.locals - {id})], topic))
  }

  /** A publish, and every call that only makes sure the topic is there. */
  function Touch(s: State, topic: string): State { s.(topics := s.topics[topic := GetTopic(s, topic)]) }

  /******* What every operation keeps *******/

  /** A remote subscription has its topic's name, and a place in its connection's list. */
  ghost predicate RemoteOk(s: State, name: string, id: nat, r: Remote) {
    r.topic == name && r.conn in s.lists && id in Listed(s.lists[r.conn], name)
  }

  ghost predicate Inv(s: State) {
    && (forall name, id :: name in s.topics && id in s.topics[name].remotes ==>
          RemoteOk(s, name, id, s.topics[name].remotes[id]) && id < s.nextSub)
    && (forall c :: c in s.live ==> c in s.lists)
    && (forall c :: c in s.lists ==> c < s.nextConn)
    && (forall c, name :: c in s.lists && name in s.lists[c] ==> Old(s.lists[c][name], s.nextSub) && NoRepeat(s.lists[c][name]))
  }

  /** Every remote subscription belongs to a connection that is still registered. */
  ghost predicate Registered(s: State) {
    forall name, id :: name in s.topics && id in s.topics[name].remotes ==> s.topics[name].remotes[id].conn in s.live
  }

  ghost predicate Old(ids: seq<nat>, next: nat) { forall i :: 0 <= i < |ids| ==> ids[i] < next }

  ghost predicate NoRepeat(ids: seq<nat>) { forall i, j :: 0 <= i < j < |ids| ==> ids[i] != ids[j] }

  lemma {:induction false} WithoutFirstMembers(ids: seq<nat>, id: nat)
    ensures forall x :: x in WithoutFirst(ids, id) ==> x in ids
    ensures forall x :: x in ids && x != id ==> x in WithoutFirst(ids, id)
    ensures NoRepeat(ids) ==> NoRepeat(WithoutFirst(ids, id)) && id !in WithoutFirst(ids, id)
  {
    if ids != [] {
      assert ids == [ids[0]] + ids[1..];
      if ids[0] != id {
        WithoutFirstMembers(ids[1..], id);
        if NoRepeat(ids) {
          assert NoRepeat(ids[1..]);
          var rest := WithoutFirst(ids[1..], id);
          forall j | 0 <= j < |rest|
            ensures rest[j] != ids[0]
          {
            assert rest[j] in ids[1..];
          }
        }
      }
    }
  }

  lemma {:induction false} WithoutFirstAt(ids: seq<nat>, id: nat, i: nat)
    requires i <= |ids| && id !in ids[..i] && (i < |ids| ==> ids[i] == id)
    ensures WithoutFirst(ids, id) == if i < |ids| then ids[..i] + ids[i + 1..] else ids
  {
    if i > 0 {
      assert ids[0] == ids[..i][0];
      assert id !in ids[1..][..i - 1] by {
        assert ids[1..][..i - 1] == ids[..i][1..];
      }
      WithoutFirstAt(ids[1..], id, i - 1);
      if i < |ids| {
        assert [ids[0]] + (ids[1..][..i - 1] + ids[1..][i..]) == ids[..i] + ids[i + 1..];
      }
    }
  }

  lemma AcceptKeeps(s: State)
    requires Inv(s)
    ensures Inv(Accept(s))
  {
  }

  lemma SubscribeKeeps(s: State, conn: nat, topic: string)
    requires Inv(s) && conn in s.lists
    ensures Inv(Subscribe(s, conn, topic))
  {
    var s' := Subscribe(s, conn, topic);
    var ids := Listed(s.lists[conn], topic);
    assert s'.lists[conn][topic] == ids + [s.nextSub];
    forall name, id | name in s'.topics && id in s'.topics[name].remotes
      ensures RemoteOk(s', name, id, s'.topics[name].remotes[id]) && id < s'.nextSub
    {
      if name == topic && id == s.nextSub {
        assert (ids + [s.nextSub])[|ids|] == s.nextSub;
      } else {
        assert RemoteOk(s, name, id, s.topics[name].remotes[id]);
      }
    }
  }

  lemma OrphanKeeps(s: State, conn: nat, topic: string)
    requires Inv(s) && conn in s.lists
    ensures Inv(Orphan(s, conn, topic))
  {
    var s' := Orphan(s, conn, topic);
    var ids := Listed(s.lists[conn], topic);
    assert s'.lists[conn][topic] == ids + [s.nextSub];
    forall name, id | name in s'.topics && id in s'.topics[name].remotes
      ensures RemoteOk(s', name, id, s'.topics[name].remotes[id]) && id < s'.nextSub
    {
      assert RemoteOk(s, name, id, s.topics[name].remotes[id]);
    }
  }

  /**
   The read pump may handle a subscribe frame after the write pump has removed the connection:
   the subscription then belongs to no registered connection, and in no other case.
   */
  lemma SubscribeKeepsExactly(s: State, conn: nat, topic: string)
    requires Inv(s) && Registered(s) && conn in s.lists
    ensures Registered(Subscribe(s, conn, topic)) <==> conn in s.live
  {
    var s' := Subscribe(s, conn, topic);
    assert s.nextSub in s'.topics[topic].remotes && s'.topics[topic].remotes[s.nextSub].conn == conn;
  }

  lemma UnsubscribeKeeps(s: State, conn: nat, topic: string, id: nat)
    requires Inv(s) && conn in s.lists
    ensures Inv(Unsubscribe(s, conn, topic, id))
  {
    var s' := Unsubscribe(s, conn, topic, id);
    var ids := Listed(s.lists[conn], topic);
    WithoutFirstMembers(ids, id);
    assert Old(WithoutFirst(ids, id), s.nextSub) by {
      forall i | 0 <= i < |WithoutFirst(ids, id)|
        ensures WithoutFirst(ids, id)[i] < s.nextSub
      {
        assert WithoutFirst(ids, id)[i] in ids;
      }
    }
    forall name, x | name in s'.topics && x in s'.topics[name].remotes
      ensures RemoteOk(s', name, x, s'.topics[name].remotes[x]) && x < s'.nextSub
    {
      assert RemoteOk(s, name, x, s.topics[name].remotes[x]);
    }
  }

  lemma RemoveConnKeeps(s: State, conn: nat)
    requires Inv(s) && conn in s.lists
    ensures Inv(RemoveConn(s, conn))
  {
    var s' := RemoveConn(s, conn);
    forall name, id | name in s'.topics && id in s'.topics[name].remotes
      ensures RemoteOk(s', name, id, s'.topics[name].remotes[id]) && id < s'.nextSub
    {
      assert RemoteOk(s, name, id, s.topics[name].remotes[id]);
    }
  }

  lemma LocalsKeep(s: State, topic: string, id: nat)
    requires Inv(s)
    ensures Inv(SubscribeLocal(s, topic)) && Inv(UnsubscribeLocal(s, topic, id)) && Inv(Touch(s, topic))
  {
    forall s' | s' in {SubscribeLocal(s, topic), UnsubscribeLocal(s, topic, id), Touch(s, topic)}
      ensures Inv(s')
    {
      forall name, x | name in s'.topics && x in s'.topics[name].remotes
        ensures RemoteOk(s', name, x, s'.topics[name].remotes[x]) && x < s'.nextSub
      {
        assert RemoteOk(s, name, x, s.topics[name].remotes[x]);
      }
    }
  }

  /** After removeConn no topic refers to the connection, even if it was removed before and has subscribed since. */
  lemma RemovedConnIsGone(s: State, conn: nat, name: string, id: nat)
    requires Inv(s) && conn in s.lists
    ensures name in RemoveConn(s, conn).topics && id in RemoveConn(s, conn).topics[name].remotes ==>
      RemoveConn(s, conn).topics[name].remotes[id].conn != conn
  {
    if name in s.topics && id in s.topics[name].remotes {
      assert RemoteOk(s, name, id, s.topics[name].remotes[id]);
    }
  }

  /** Both pumps call removeConn; with nothing in between the second call changes nothing. */
  lemma RemoveConnTwice(s: State, conn: nat)
    requires conn in s.lists
    ensures RemoveConn(RemoveConn(s, conn), conn) == RemoveConn(s, conn)
  {
    var s' := RemoveConn(s, conn);
    var list := s.lists[conn];
    var again := CleanTopics(s'.topics, list, list.Keys);
    forall name | name in s'.topics
      ensures name in again && again[name] == s'.topics[name]
    {
      if name in list {
        assert Cleaned(s'.topics[name], list[name]).remotes == s'.topics[name].remotes;
      }
    }
    assert again == s'.topics;
  }

  /******* Runs against the log of events *******/

  datatype Event =
    | Joined
    | Subscribed(conn: nat, topic: string)
    | Unsubscribed(conn: nat, topic: string, id: nat)
    | Left(conn: nat)
    | LocalSubscribed(topic: string)
    | LocalUnsubscribed(topic: string, id: nat)
    | Touched(topic: string)
    | Orphaned(conn: nat, topic: string)
    | LocalOrphaned(topic: string)

  /** Frames come from connections that were accepted, and may be handled after these have left. */
  ghost predicate Possible(s: State, e: Event) {
    match e
    case Subscribed(c, _) => c in s.lists
    case Unsubscribed(c, _, _) => c in s.lists
    case Left(c) => c in s.lists
    case Orphaned(c, _) => c in s.lists
    case _ => true
  }

  function Do(s: State, e: Event): State
    requires Possible(s, e)
  {
    match e
    case Joined => Accept(s)
    case Subscribed(c, topic) => Subscribe(s, c, topic)
    case Unsubscribed(c, topic, id) => Unsubscribe(s, c, topic, id)
    case Left(c) => RemoveConn(s, c)
    case LocalSubscribed(topic) => SubscribeLocal(s, topic)
    case LocalUnsubscribed(topic, id) => UnsubscribeLocal(s, topic, id)
    case Touched(topic) => Touch(s, topic)
    case Orphaned(c, topic) => Orphan(s, c, topic)
    case LocalOrphaned(_) => s.(nextSub := s.nextSub + 1)
  }

  /** The subscriptions in force, straight from the events. */
  datatype Ledger = Ledger(subs: map<nat, Remote>, locals: map<nat, string>, nextSub: nat)

  function Record(l: Ledger, e: Event): Ledger {
    match e
    case Joined => l
    case Subscribed(c, topic) => l.(subs := l.subs[l.nextSub := Remote(c, topic)], nextSub := l.nextSub + 1)
    case Unsubscribed(_, topic, id) =>
      if id in l.subs && l.subs[id].topic == topic then l.(subs := l.subs - {id}) else l
    case Left(c) => l.(subs := map id | id in l.subs && l.subs[id].conn != c :: l.subs[id])
    case LocalSubscribed(topic) => l.(locals := l.locals[l.nextSub := topic], nextSub := l.nextSub + 1)
    case LocalUnsubscribed(topic, id) =>
      if id in l.locals && l.locals[id] == topic then l.(locals := l.locals - {id}) else l
    case Touched(_) => l
    case Orphaned(_, _) => l.(nextSub := l.nextSub + 1)
    case LocalOrphaned(_) => l.(nextSub := l.nextSub + 1)
  }

  function RemotesAt(s: State, name: string): map<nat, Remote> { GetTopic(s, name).remotes }

  function LocalsAt(s: State, name: string): set<nat> { GetTopic(s, name).locals }

  /** The topic tables hold exactly the subscriptions in force, each under its own topic. */
  ghost predicate RemotesAgree(s: State, l: Ledger) {
    && (forall id :: id in l.subs ==> Holds(s, id, l.subs[id]) && id < l.nextSub)
    && (forall name, id :: id in RemotesAt(s, name) ==> id in l.subs && l.subs[id].topic == name)
  }

  ghost predicate LocalsAgree(s: State, l: Ledger) {
    && (forall id :: id in l.locals ==> id in LocalsAt(s, l.locals[id]) && id < l.nextSub)
    && (forall name, id :: id in LocalsAt(s, name) ==> id in l.locals && l.locals[id] == name)
  }

  ghost predicate Agrees(s: State, l: Ledger) {
    s.nextSub == l.nextSub && RemotesAgree(s, l) && LocalsAgree(s, l)
  }

  ghost predicate Holds(s: State, id: nat, r: Remote) {
    id in RemotesAt(s, r.topic) && RemotesAt(s, r.topic)[id] == r
  }

  /** What each event does to the topic tables, topic by topic. */
  lemma EffectOnRemotes(s: State, e: Event, name: string)
    requires Possible(s, e)
    ensures RemotesAt(Do(s, e), name) ==
      match e
      case Subscribed(c, topic) =>
        if name == topic then RemotesAt(s, name)[s.nextSub := Remote(c, topic)] else RemotesAt(s, name)
      case Unsubscribed(_, topic, id) => if name == topic then RemotesAt(s, name) - {id} else RemotesAt(s, name)
      case Left(c) => RemotesAt(s, name) - Elements(Listed(s.lists[c], name))
      case _ => RemotesAt(s, name)
  {
  }

  lemma EffectOnLocals(s: State, e: Event, name: string)
    requires Possible(s, e)
    ensures LocalsAt(Do(s, e), name) ==
      match e
      case LocalSubscribed(topic) => if name == topic then LocalsAt(s, name) + {s.nextSub} else LocalsAt(s, name)
      case LocalUnsubscribed(topic, id) => if name == topic then LocalsAt(s, name) - {id} else LocalsAt(s, name)
      case _ => LocalsAt(s, name)
  {
  }

  lemma DoKeepsInv(s: State, e: Event)
    requires Inv(s) && Possible(s, e)
    ensures Inv(Do(s, e))
  {
    match e
    case Joined => AcceptKeeps(s);
    case Subscribed(c, topic) => SubscribeKeeps(s, c, topic);
    case Unsubscribed(c, topic, id) => UnsubscribeKeeps(s, c, topic, id);
    case Left(c) => RemoveConnKeeps(s, c);
    case LocalSubscribed(topic) => LocalsKeep(s, topic, 0);
    case LocalUnsubscribed(topic, id) => LocalsKeep(s, topic, id);
    case Touched(topic) => LocalsKeep(s, topic, 0);
    case Orphaned(c, topic) => OrphanKeeps(s, c, topic);
    case LocalOrphaned(_) => CountingKeeps(s);
  }

  lemma CountingKeeps(s: State)
    requires Inv(s)
    ensures Inv(s.(nextSub := s.nextSub + 1))
  {
    var s' := s.(nextSub := s.nextSub + 1);
    forall name, id | name in s'.topics && id in s'.topics[name].remotes
      ensures RemoteOk(s', name, id, s'.topics[name].remotes[id]) && id < s'.nextSub
    {
      assert RemoteOk(s, name, id, s.topics[name].remotes[id]);
    }
  }

  /** Cleaning up by the connection's own list removes exactly the connection's subscriptions. */
  lemma ListIsOwn(s: State, l: Ledger, conn: nat, id: nat)
    requires Inv(s) && RemotesAgree(s, l) && conn in s.lists && OwnLists(s, l) && id in l.subs
    ensures id in Elements(Listed(s.lists[conn], l.subs[id].topic)) ==> l.subs[id].conn == conn
    ensures l.subs[id].conn == conn ==> id in Elements(Listed(s.lists[conn], l.subs[id].topic))
  {
    var r := l.subs[id];
    var ids := Listed(s.lists[conn], r.topic);
    assert Holds(s, id, r);
    assert RemoteOk(s, r.topic, id, s.topics[r.topic].remotes[id]);
    if id in ids {
      var i :| 0 <= i < |ids| && ids[i] == id;
      assert OwnEntry(l, conn, s.lists[conn][r.topic][i]);
    }
  }

  lemma RecordedIsHeld(s: State, l: Ledger, e: Event, id: nat)
    requires Inv(s) && Agrees(s, l) && OwnLists(s, l) && Possible(s, e) && id in Record(l, e).subs
    ensures Holds(Do(s, e), id, Record(l, e).subs[id]) && id < Record(l, e).nextSub
  {
    if id in l.subs {
      if e.Left? {
        ListIsOwn(s, l, e.conn, id);
      }
      HeldStays(s, l, e, id);
    } else {
      NewIsHeld(s, l, e, id);
    }
  }

  lemma NewIsHeld(s: State, l: Ledger, e: Event, id: nat)
    requires s.nextSub == l.nextSub && Possible(s, e) && id !in l.subs && id in Record(l, e).subs
    ensures Holds(Do(s, e), id, Record(l, e).subs[id]) && id < Record(l, e).nextSub
  {
  }

  lemma HeldStays(s: State, l: Ledger, e: Event, id: nat)
    requires s.nextSub == l.nextSub && RemotesAgree(s, l) && Possible(s, e) && id in l.subs
    requires e.Left? ==> (id in Elements(Listed(s.lists[e.conn], l.subs[id].topic)) ==> l.subs[id].conn == e.conn)
    requires id in Record(l, e).subs
    ensures Holds(Do(s, e), id, Record(l, e).subs[id]) && id < Record(l, e).nextSub
  {
    assert Holds(s, id, l.subs[id]);
    EffectOnRemotes(s, e, l.subs[id].topic);
  }

  lemma HeldIsRecorded(s: State, l: Ledger, e: Event, name: string, id: nat)
    requires Agrees(s, l) && Possible(s, e) && id in RemotesAt(Do(s, e), name)
    requires e.Left? && id in l.subs && l.subs[id].conn == e.conn ==>
      id in Elements(Listed(s.lists[e.conn], l.subs[id].topic))
    ensures id in Record(l, e).subs && Record(l, e).subs[id].topic == name
  {
    EffectOnRemotes(s, e, name);
    assert id in RemotesAt(s, name) ==> id in l.subs && id < l.nextSub && l.subs[id].topic == name;
  }

  lemma RemotesStayAgreed(s: State, l: Ledger, e: Event)
    requires Inv(s) && Agrees(s, l) && OwnLists(s, l) && Possible(s, e)
    ensures RemotesAgree(Do(s, e), Record(l, e))
  {
    forall id | id in Record(l, e).subs
      ensures Holds(Do(s, e), id, Record(l, e).subs[id]) && id < Record(l, e).nextSub
    {
      RecordedIsHeld(s, l, e, id);
    }
    forall name, id | id in RemotesAt(Do(s, e), name)
      ensures id in Record(l, e).subs && Record(l, e).subs[id].topic == name
    {
      if e.Left? && id in l.subs {
        ListIsOwn(s, l, e.conn, id);
      }
      HeldIsRecorded(s, l, e, name, id);
    }
  }

  lemma LocalsStayAgreed(s: State, l: Ledger, e: Event)
    requires Agrees(s, l) && Possible(s, e)
    ensures LocalsAgree(Do(s, e), Record(l, e))
  {
    var s', l' := Do(s, e), Record(l, e);
    forall id | id in l'.locals
      ensures id in LocalsAt(s', l'.locals[id])
    {
      EffectOnLocals(s, e, l'.locals[id]);
    }
    forall name, id | id in LocalsAt(s', name)
      ensures id in l'.locals && l'.locals[id] == name
    {
      EffectOnLocals(s, e, name);
      assert id in LocalsAt(s, name) ==> id in l.locals && id < l.nextSub && l.locals[id] == name;
    }
  }

  /** An ID that a connection lists and that is in force belongs to that connection. */
  ghost predicate OwnEntry(l: Ledger, conn: nat, id: nat) { id in l.subs ==> l.subs[id].conn == conn }

  ghost predicate OwnLists(s: State, l: Ledger) {
    forall c, name, i :: c in s.lists && name in s.lists[c] && 0 <= i < |s.lists[c][name]| ==>
      OwnEntry(l, c, s.lists[c][name][i])
  }

  lemma DoKeepsOwnLists(s: State, l: Ledger, e: Event)
    requires Inv(s) && Agrees(s, l) && OwnLists(s, l) && Possible(s, e)
    ensures OwnLists(Do(s, e), Record(l, e))
  {
    var s', l' := Do(s, e), Record(l, e);
    forall c, name, i | c in s'.lists && name in s'.lists[c] && 0 <= i < |s'.lists[c][name]|
      ensures OwnEntry(l', c, s'.lists[c][name][i])
    {
      var id := s'.lists[c][name][i];
      ListedBefore(s, e, c, name, id);
      if GivenOut(s, e, c, id) {
        assert id !in l.subs;
      } else {
        var j :| 0 <= j < |s.lists[c][name]| && s.lists[c][name][j] == id;
        OwnEntryStays(l, e, c, id, s.lists[c][name][j]);
      }
    }
  }

  /** The event gives the connection this new ID. */
  ghost predicate GivenOut(s: State, e: Event, c: nat, id: nat) {
    (e.Subscribed? || e.Orphaned?) && c == e.conn && id == s.nextSub
  }

  /** An ID in a list was there before, unless it was given out just now. */
  lemma ListedBefore(s: State, e: Event, c: nat, name: string, id: nat)
    requires Possible(s, e) && c in Do(s, e).lists && name in Do(s, e).lists[c] && id in Do(s, e).lists[c][name]
    ensures || GivenOut(s, e, c, id)
            || (c in s.lists && name in s.lists[c] && id in s.lists[c][name])
  {
    if e.Unsubscribed? {
      WithoutFirstMembers(Listed(s.lists[e.conn], e.topic), e.id);
    }
  }

  lemma OwnEntryStays(l: Ledger, e: Event, c: nat, id: nat, listed: nat)
    requires listed == id && OwnEntry(l, c, listed) && id < l.nextSub
    ensures OwnEntry(Record(l, e), c, id)
  {
  }

  lemma DoAgrees(s: State, l: Ledger, e: Event)
    requires Inv(s) && Agrees(s, l) && OwnLists(s, l) && Possible(s, e)
    ensures Agrees(Do(s, e), Record(l, e))
  {
    RemotesStayAgreed(s, l, e);
    LocalsStayAgreed(s, l, e);
  }

  function Start(): State { State(map[], {}, map[], 0, 0) }

  ghost predicate PossibleAll(events: seq<Event>)
    decreases |events|, 0
  {
    events != [] ==>
      && PossibleAll(events[..|events| - 1])
      && Possible(DoAll(events[..|events| - 1]), events[|events| - 1])
  }

  ghost function DoAll(events: seq<Event>): State
    requires PossibleAll(events)
    decreases |events|, 1
  {
    if events == [] then Start() else Do(DoAll(events[..|events| - 1]), events[|events| - 1])
  }

  function RecordAll(events: seq<Event>): Ledger {
    if events == [] then Ledger(map[], map[], 0) else Record(RecordAll(events[..|events| - 1]), events[|events| - 1])
  }

  /** In every run the two indexes are consistent and hold exactly the subscriptions in force. */
  lemma {:induction false} RunAgrees(events: seq<Event>)
    requires PossibleAll(events)
    ensures Inv(DoAll(events)) && Agrees(DoAll(events), RecordAll(events)) && OwnLists(DoAll(events), RecordAll(events))
  {
    if events != [] {
      var init, last := events[..|events| - 1], events[|events| - 1];
      RunAgrees(init);
      DoKeepsInv(DoAll(init), last);
      DoAgrees(DoAll(init), RecordAll(init), last);
      DoKeepsOwnLists(DoAll(init), RecordAll(init), last);
    }
  }

  /** So no topic with a subscriber in force is ever missing. */
  lemma SubscribedTopicExists(events: seq<Event>, id: nat)
    requires PossibleAll(events)
    ensures id in RecordAll(events).subs ==> RecordAll(events).subs[id].topic in DoAll(events).topics
    ensures id in RecordAll(events).locals ==> RecordAll(events).locals[id] in DoAll(events).topics
  {
    RunAgrees(events);
    if id in RecordAll(events).subs {
      assert Holds(DoAll(events), id, RecordAll(events).subs[id]);
    }
  }

  /** Leaving is final unless a subscribe frame is handled afterwards. */
  ghost predicate Silent(events: seq<Event>, conn: nat) {
    forall e :: e in events && e.Subscribed? ==> e.conn != conn
  }

  lemma {:induction false} NothingRecorded(early: seq<Event>, conn: nat, later: seq<Event>, id: nat)
    requires Silent(later, conn)
    ensures id in RecordAll(early + [Left(conn)] + later).subs ==>
      RecordAll(early + [Left(conn)] + later).subs[id].conn != conn
  {
    var all := early + [Left(conn)] + later;
    if later == [] {
      assert all[..|all| - 1] == early;
    } else {
      var init := later[..|later| - 1];
      assert all[..|all| - 1] == early + [Left(conn)] + init;
      assert all[|all| - 1] == later[|later| - 1] && later[|later| - 1] in later;
      NothingRecorded(early, conn, init, id);
    }
  }

  /**
   A connection's read pump ends by removing it, after the last frame it handled. From then on
   no topic refers to the connection, whatever the write pump and the others did before.
   */
  lemma LeftConnIsGone(early: seq<Event>, conn: nat, later: seq<Event>, name: string, id: nat)
    requires PossibleAll(early + [Left(conn)] + later) && Silent(later, conn)
    ensures
      var s := DoAll(early + [Left(conn)] + later);
      name in s.topics && id in s.topics[name].remotes ==> s.topics[name].remotes[id].conn != conn
  {
    HeldAsRecorded(early + [Left(conn)] + later, name, id);
    NothingRecorded(early, conn, later, id);
  }

  lemma HeldAsRecorded(events: seq<Event>, name: string, id: nat)
    requires PossibleAll(events)
    ensures
      var s, l := DoAll(events), RecordAll(events);
      name in s.topics && id in s.topics[name].remotes ==> id in l.subs && s.topics[name].remotes[id] == l.subs[id]
  {
    RunAgrees(events);
    var s, l := DoAll(events), RecordAll(events);
    if name in s.topics && id in s.topics[name].remotes {
      assert id in RemotesAt(s, name);
      assert Holds(s, id, l.subs[id]);
    }
  }

  /** The removal is needed: a connection that has left and subscribes late stays in its topic until it is removed again. */
  lemma LateSubscribeStays(events: seq<Event>, conn: nat, topic: string, name: string, id: nat)
    requires PossibleAll(events) && conn in DoAll(events).lists && conn !in DoAll(events).live
    ensures
      var late := events + [Subscribed(conn, topic)];
      && PossibleAll(late) && !Registered(DoAll(late)) && PossibleAll(late + [Left(conn)])
      && var s := DoAll(late + [Left(conn)]);
         name in s.topics && id in s.topics[name].remotes ==> s.topics[name].remotes[id].conn != conn
  {
    var late := events + [Subscribed(conn, topic)];
    DoSnoc(events, Subscribed(conn, topic));
    var s := DoAll(events);
    assert s.nextSub in DoAll(late).topics[topic].remotes && DoAll(late).topics[topic].remotes[s.nextSub].conn == conn;
    DoSnoc(late, Left(conn));
    RunAgrees(late);
    RemovedConnIsGone(DoAll(late), conn, name, id);
  }

  lemma DoSnoc(events: seq<Event>, e: Event)
    requires PossibleAll(events) && Possible(DoAll(events), e)
    ensures PossibleAll(events + [e]) && DoAll(events + [e]) == Do(DoAll(events), e)
  {
    assert (events + [e])[..|events|] == events;
  }

  /******* The server object *******/

  class Server {
    var topics: map<string, Topic>
    var live: set<nat>
    var lists: map<nat, Listing>
    var nextSub: nat
    var nextConn: nat

    ghost function View(): State
      reads this
    {
      State(topics, live, lists, nextSub, nextConn)
    }

    constructor ()
      ensures View() == Start()
    {
      topics, live, lists, nextSub, nextConn := map[], {}, map[], 0, 0;
    }

    method AcceptConn() returns (conn: nat)
      modifies this
      ensures View() == Accept(old(View())) && conn == old(nextConn)
    {
      conn := nextConn;
      lists := lists[conn := map[]];
      live := live + {conn};
      nextConn := nextConn + 1;
    }

    method GetOrCreateTopic(name: string)
      modifies this
      ensures View() == Touch(old(View()), name)
    {
      if name !in topics {
        topics := topics[name := EMPTY_TOPIC];
      } else {
        assert topics == topics[name := topics[name]];
      }
    }

    method MaybeDeleteTopic(name: string)
      modifies this
      ensures View() == old(View()).(topics := DropIfEmpty(old(topics), name))
    {
      if name !in topics {
        return;
      }
      if topics[name].locals == {} && topics[name].remotes == map[] {
        topics := topics - {name};
      }
    }

    /** Registers the subscription in both indexes and answers with its ID. */
    method HandleSubscribeFrame(conn: nat, topic: string) returns (ack: nat)
      requires conn in lists
      modifies this
      ensures View() == Subscribe(old(View()), conn, topic) && ack == old(nextSub)
    {
      ack := nextSub;
      nextSub := nextSub + 1;
      GetOrCreateTopic(topic);
      topics := topics[topic := topics[topic].(remotes := topics[topic].remotes[ack := Remote(conn, topic)])];
      lists := lists[conn := AddSub(lists[conn], topic, ack)];
      assert topics == Subscribe(old(View()), conn, topic).topics;
    }

    method RemoveSubLoop(list: Listing, topic: string, id: nat) returns (list': Listing)
      ensures list' == RemoveSub(list, topic, id)
    {
      list' := list;
      var ids := if topic in list then list[topic] else [];
      var i := 0;
      while i < |ids| && ids[i] != id
        invariant 0 <= i <= |ids| && id !in ids[..i]
      {
        i := i + 1;
      }
      WithoutFirstAt(ids, id, i);
      if i < |ids| {
        list' := list[topic := ids[..i] + ids[i + 1..]];
      }
      if topic !in list' || list'[topic] == [] {
        list' := list' - {topic};
      }
    }

    method HandleUnsubscribeFrame(conn: nat, topic: string, id: nat)
      requires conn in lists
      modifies this
      ensures View() == Unsubscribe(old(View()), conn, topic, id)
    {
      if topic in topics {
        topics := topics[topic := topics[topic].(remotes := topics[topic].remotes - {id})];
      }
      var list := RemoveSubLoop(lists[conn], topic, id);
      lists := lists[conn := list];
    }

    method CleanTopic(name: string, ids: seq<nat>)
      requires name in topics
      modifies this
      ensures View() == old(View()).(topics := DropIfEmpty(old(topics)[name := Cleaned(old(topics)[name], ids)], name))
    {
      assert Cleaned(topics[name], []) == topics[name];
      assert topics == topics[name := topics[name]];
      for i := 0 to |ids|
        invariant name in topics
        invariant View() == old(View()).(topics := old(topics)[name := Cleaned(old(topics)[name], ids[..i])])
      {
        assert Elements(ids[..i + 1]) == Elements(ids[..i]) + {ids[i]} by {
          assert ids[..i + 1] == ids[..i] + [ids[i]];
        }
        topics := topics[name := topics[name].(remotes := topics[name].remotes - {ids[i]})];
        assert topics[name] == Cleaned(old(topics)[name], ids[..i + 1]);
        assert topics == old(topics)[name := topics[name]];
      }
      assert ids[..|ids|] == ids;
      MaybeDeleteTopic(name);
    }

    /** Unregisters the connection and cleans every topic on its list. */
    method RemoveConnection(conn: nat)
      requires conn in lists
      modifies this
      ensures View() == RemoveConn(old(View()), conn)
    {
      live := live - {conn};
      var topicSubs := lists[conn];
      var todo := topicSubs.Keys;
      ghost var seen: set<string> := {};
      assert CleanTopics(topics, topicSubs, {}) == topics;
      while todo != {}
        invariant seen + todo == topicSubs.Keys && seen !! todo
        invariant View() == old(View()).(live := old(live) - {conn}, topics := CleanTopics(old(topics), topicSubs, seen))
        decreases todo
      {
        var name :| name in todo;
        ghost var before := topics;
        if name in topics {
          assert topics[name] == old(topics)[name];
          CleanTopic(name, topicSubs[name]);
        }
        CleanOneMore(old(topics), topicSubs, seen, name);
        todo, seen := todo - {name}, seen + {name};
      }
      assert seen == topicSubs.Keys;
    }
  }

  lemma CleanOneMore(topics: map<string, Topic>, list: Listing, seen: set<string>, name: string)
    requires name in list && name !in seen
    ensures
      var before := CleanTopics(topics, list, seen);
      CleanTopics(topics, list, seen + {name}) ==
        if name in before then DropIfEmpty(before[name := Cleaned(before[name], list[name])], name) else before
  {
  }
}
