/**
 The read and write pump of every ant connection, one lock section at a time. A subscribe finds
 the topic, inserts into it and then notes the ID on the connection's list; an unsubscribe
 deletes from the topic and then from the list; a removal unregisters the connection, copies
 its list and then cleans the topics by the copy. The read pump handles one frame after another
 and ends with a removal; the write pump may remove the connection at any time. Steps of
 different pumps interleave in any order.
 */
module HubPumps {
  import opened Hub
  import opened HubLocks

  datatype Reader =
    | Idle
    | Found(handle: Handle)
    | Inserted(topic: string, id: nat)
    | Deleted(topic: string, id: nat)
    | Dropping
    | Copied(copy: Listing)
    | Ended

  datatype Writer = Running | Unregistered | Snapshot(copy: Listing) | Finished

  /** A connection with its list and its two pumps; it outlives its registration. */
  datatype Conn = Conn(list: Listing, reader: Reader, writer: Writer)

  /** `owner` is a log of which connection each ID was given to. */
  datatype Queen = Queen(
    topics: map<string, Topic>, objects: map<string, nat>, nextObject: nat, live: set<nat>,
    conns: map<nat, Conn>, nextSub: nat, owner: map<nat, nat>)

  /** The sections of a connection's pumps. */
  datatype Section =
    | Find(topic: string)
    | InsertInto
    | Note
    | Delete(topic: string, id: nat)
    | Unnote
    | Drop
    | Copy
    | Clean
    | WriterDrop
    | WriterCopy
    | WriterClean

  datatype Step =
    | Join(conn: nat)
    | Pump(conn: nat, section: Section)
    | TouchTopic(topic: string)
    | SetLocals(topic: string, locals: set<nat>, deletes: bool)

  /******* Sections *******/

  /** What a section makes of its connection; one that is not due changes nothing. */
  function ConnAfter(s: Queen, k: Conn, section: Section): Conn {
    match (section, k.reader)
    case (Find(name), Idle) =>
      k.(reader := Found(Handle(name, if name in s.objects then s.objects[name] else s.nextObject)))
    case (InsertInto, Found(handle)) => k.(reader := Inserted(handle.topic, s.nextSub))
    case (Note, Inserted(topic, id)) => k.(list := AddSub(k.list, topic, id), reader := Idle)
    case (Delete(name, id), Idle) => k.(reader := Deleted(name, id))
    case (Unnote, Deleted(topic, id)) => k.(list := RemoveSub(k.list, topic, id), reader := Idle)
    case (Drop, Idle) => k.(reader := Dropping)
    case (Copy, Dropping) => k.(reader := Copied(k.list))
    case (Clean, Copied(_)) => k.(reader := Ended)
    case (WriterDrop, _) => if k.writer == Running then k.(writer := Unregistered) else k
    case (WriterCopy, _) => if k.writer == Unregistered then k.(writer := Snapshot(k.list)) else k
    case (WriterClean, _) => if k.writer.Snapshot? then k.(writer := Finished) else k
    case (_, _) => k
  }

  /** Whether a topic object found earlier is still the one in the table. */
  predicate InTable(s: Queen, handle: Handle) {
    handle.topic in s.topics && handle.topic in s.objects && s.objects[handle.topic] == handle.number
  }

  function Touched(topics: map<string, Topic>, name: string): map<string, Topic> {
    if name in topics then topics else topics[name := EMPTY_TOPIC]
  }

  function With(topics: map<string, Topic>, name: string, id: nat, conn: nat): map<string, Topic>
    requires name in topics
  {
    topics[name := topics[name].(remotes := topics[name].remotes[id := Remote(conn, name)])]
  }

  function Without(topics: map<string, Topic>, name: string, id: nat): map<string, Topic> {
    if name in topics then topics[name := topics[name].(remotes := topics[name].remotes - {id})] else topics
  }

  function Cleansed(topics: map<string, Topic>, list: Listing): map<string, Topic> {
    CleanTopics(topics, list, list.Keys)
  }

  /** What a section makes of the topics. */
  function TopicsAfter(s: Queen, conn: nat, k: Conn, section: Section): map<string, Topic> {
    match (section, k.reader)
    case (Find(name), Idle) => Touched(s.topics, name)
    case (InsertInto, Found(handle)) => if InTable(s, handle) then With(s.topics, handle.topic, s.nextSub, conn) else s.topics
    case (Delete(name, id), Idle) => Without(s.topics, name, id)
    case (Clean, Copied(copy)) => Cleansed(s.topics, copy)
    case (WriterClean, _) => if k.writer.Snapshot? then Cleansed(s.topics, k.writer.copy) else s.topics
    case (_, _) => s.topics
  }

  predicate GivesOut(k: Conn, section: Section) { section.InsertInto? && k.reader.Found? }

  predicate Unregisters(k: Conn, section: Section) {
    (section.Drop? && k.reader == Idle) || (section.WriterDrop? && k.writer == Running)
  }

  function WithTopics(s: Queen, topics: map<string, Topic>): Queen {
    s.(topics := topics, objects := Numbered(s.objects, s.nextObject, topics), nextObject := s.nextObject + 1)
  }

  function PumpOnce(s: Queen, conn: nat, section: Section): Queen
    requires conn in s.conns
  {
    var k := s.conns[conn];
    WithTopics(s, TopicsAfter(s, conn, k, section)).(
      conns := s.conns[conn := ConnAfter(s, k, section)],
      live := if Unregisters(k, section) then s.live - {conn} else s.live,
      nextSub := if GivesOut(k, section) then s.nextSub + 1 else s.nextSub,
      owner := if GivesOut(k, section) then s.owner[s.nextSub := conn] else s.owner)
  }

  function WithLocals(topics: map<string, Topic>, name: string, locals: set<nat>, deletes: bool): map<string, Topic>
    requires name in topics
  {
    var changed := topics[name := topics[name].(locals := locals)];
    if deletes then DropIfEmpty(changed, name) else changed
  }

  /** Local subscribers come and go in any way; only an unsubscribe deletes a topic. */
  function Apply(s: Queen, step: Step): Queen {
    match step
    case Join(c) =>
      if c in s.conns then s else s.(live := s.live + {c}, conns := s.conns[c := Conn(map[], Idle, Running)])
    case Pump(c, section) => if c in s.conns then PumpOnce(s, c, section) else s
    case TouchTopic(name) => WithTopics(s, Touched(s.topics, name))
    case SetLocals(name, locals, deletes) =>
      if name in s.topics then WithTopics(s, WithLocals(s.topics, name, locals, deletes)) else s
  }

  function Exec(steps: seq<Step>): Queen {
    if steps == [] then Queen(map[], map[], 0, {}, map[], 0, map[])
    else Apply(Exec(steps[..|steps| - 1]), steps[|steps| - 1])
  }

  /******* What every section keeps *******/

  /** A subscription that its reader still knows of: on the list or about to be, and on the reader's last copy. */
  predicate Known(k: Conn, name: string, id: nat) {
    match k.reader
    case Inserted(topic, sub) => (topic == name && sub == id) || id in Listed(k.list, name)
    case Deleted(topic, sub) => !(topic == name && sub == id) && id in Listed(k.list, name)
    case Copied(copy) => id in Listed(copy, name)
    case Ended => false
    case _ => id in Listed(k.list, name)
  }

  predicate Good(s: Queen, name: string, id: nat, r: Remote) {
    && r.topic == name && r.conn in s.conns && Known(s.conns[r.conn], name, id)
    && id in s.owner && s.owner[id] == r.conn && id < s.nextSub
  }

  predicate Given(owner: map<nat, nat>, conn: nat, id: nat) { id in owner && owner[id] == conn }

  /** Everything on the list was given to the connection. */
  ghost predicate Own(owner: map<nat, nat>, conn: nat, list: Listing) {
    forall name, id :: id in Listed(list, name) ==> Given(owner, conn, id)
  }

  ghost predicate ConnOk(owner: map<nat, nat>, conn: nat, k: Conn) {
    && Own(owner, conn, k.list)
    && (k.reader.Copied? ==> Own(owner, conn, k.reader.copy))
    && (k.reader.Inserted? ==> Given(owner, conn, k.reader.id))
    && (k.writer.Snapshot? ==> Own(owner, conn, k.writer.copy))
  }

  ghost predicate Inv(s: Queen) {
    && (forall name, id :: name in s.topics && id in s.topics[name].remotes ==> Good(s, name, id, s.topics[name].remotes[id]))
    && (forall c :: c in s.conns ==> ConnOk(s.owner, c, s.conns[c]))
    && (forall id :: id in s.owner ==> id < s.nextSub)
  }

  lemma ListedRemoved(list: Listing, topic: string, id: nat, name: string, x: nat)
    ensures x in Listed(RemoveSub(list, topic, id), name) ==> x in Listed(list, name)
    ensures x in Listed(list, name) && !(name == topic && x == id) ==> x in Listed(RemoveSub(list, topic, id), name)
  {
    WithoutFirstMembers(Listed(list, topic), id);
  }

  lemma ListedAdded(list: Listing, topic: string, id: nat, name: string, x: nat)
    ensures x in Listed(AddSub(list, topic, id), name) <==> x in Listed(list, name) || (name == topic && x == id)
  {
  }

  /** The section takes the ID from the topic: an unsubscribe names it, or the copy of a removal has it. */
  predicate Takes(k: Conn, section: Section, name: string, id: nat) {
    || (section.Delete? && k.reader == Idle && section.topic == name && section.id == id)
    || (section.Clean? && k.reader.Copied? && id in Listed(k.reader.copy, name))
    || (section.WriterClean? && k.writer.Snapshot? && id in Listed(k.writer.copy, name))
  }

  predicate Held(topics: map<string, Topic>, name: string, id: nat, r: Remote) {
    name in topics && id in topics[name].remotes && topics[name].remotes[id] == r
  }

  /** Cleaning takes exactly what is on the list, and no topic that keeps a subscription. */
  lemma CleansedHolds(topics: map<string, Topic>, list: Listing, name: string, id: nat, r: Remote)
    ensures Held(Cleansed(topics, list), name, id, r) <==> Held(topics, name, id, r) && id !in Listed(list, name)
  {
    if name in topics && name in list && id in topics[name].remotes && id !in list[name] {
      assert id in Cleaned(topics[name], list[name]).remotes;
    }
  }

  lemma LocalsLeaveRemotes(topics: map<string, Topic>, topic: string, locals: set<nat>, deletes: bool, name: string, id: nat, r: Remote)
    requires topic in topics
    ensures Held(WithLocals(topics, topic, locals, deletes), name, id, r) <==> Held(topics, name, id, r)
  {
    var changed := topics[topic := topics[topic].(locals := locals)];
    assert Held(changed, name, id, r) <==> Held(topics, name, id, r);
  }

  /** The subscriptions after a section: those before that it does not take, and the one it inserts. */
  lemma HeldAfter(s: Queen, conn: nat, k: Conn, section: Section, name: string, id: nat, r: Remote)
    requires Held(s.topics, name, id, r) ==> id != s.nextSub
    ensures Held(TopicsAfter(s, conn, k, section), name, id, r) <==>
      || (Held(s.topics, name, id, r) && !Takes(k, section, name, id))
      || (GivesOut(k, section) && InTable(s, k.reader.handle) && k.reader.handle.topic == name && id == s.nextSub && r == Remote(conn, name))
  {
    if section.Clean? && k.reader.Copied? {
      CleansedHolds(s.topics, k.reader.copy, name, id, r);
    } else if section.WriterClean? && k.writer.Snapshot? {
      CleansedHolds(s.topics, k.writer.copy, name, id, r);
    }
  }

  /** What its own pump does not take stays known to the reader. */
  lemma KnownStays(s: Queen, k: Conn, section: Section, name: string, id: nat)
    requires Known(k, name, id) && !Takes(k, section, name, id)
    ensures Known(ConnAfter(s, k, section), name, id)
  {
    if section.Note? && k.reader.Inserted? {
      ListedAdded(k.list, k.reader.topic, k.reader.id, name, id);
    } else if section.Unnote? && k.reader.Deleted? {
      ListedRemoved(k.list, k.reader.topic, k.reader.id, name, id);
    }
  }

  lemma PumpKeepsGood(s: Queen, conn: nat, section: Section, name: string, id: nat, r: Remote)
    requires Inv(s) && conn in s.conns && Held(PumpOnce(s, conn, section).topics, name, id, r)
    ensures Good(PumpOnce(s, conn, section), name, id, r)
  {
    var k := s.conns[conn];
    if Held(s.topics, name, id, r) {
      assert Good(s, name, id, r);
    }
    HeldAfter(s, conn, k, section, name, id, r);
    if Held(s.topics, name, id, r) && r.conn == conn {
      KnownStays(s, k, section, name, id);
    }
  }

  /** More IDs given out leave what was given as it is. */
  lemma OwnGrows(owner: map<nat, nat>, sub: nat, to: nat, conn: nat, list: Listing)
    requires Own(owner, conn, list) && sub !in owner
    ensures Own(owner[sub := to], conn, list)
  {
    forall name, id | id in Listed(list, name)
      ensures Given(owner[sub := to], conn, id)
    {
      assert Given(owner, conn, id);
    }
  }

  lemma ConnOkGrows(owner: map<nat, nat>, sub: nat, to: nat, conn: nat, k: Conn)
    requires ConnOk(owner, conn, k) && sub !in owner
    ensures ConnOk(owner[sub := to], conn, k)
  {
    OwnGrows(owner, sub, to, conn, k.list);
    if k.reader.Copied? {
      OwnGrows(owner, sub, to, conn, k.reader.copy);
    }
    if k.writer.Snapshot? {
      OwnGrows(owner, sub, to, conn, k.writer.copy);
    }
  }

  /** A section that gives out no ID leaves its connection with its own IDs only. */
  lemma SectionKeepsOwn(s: Queen, conn: nat, k: Conn, section: Section)
    requires ConnOk(s.owner, conn, k) && !GivesOut(k, section)
    ensures ConnOk(s.owner, conn, ConnAfter(s, k, section))
  {
    var k' := ConnAfter(s, k, section);
    forall name, id | id in Listed(k'.list, name)
      ensures Given(s.owner, conn, id)
    {
      if section.Note? && k.reader.Inserted? {
        ListedAdded(k.list, k.reader.topic, k.reader.id, name, id);
      } else if section.Unnote? && k.reader.Deleted? {
        ListedRemoved(k.list, k.reader.topic, k.reader.id, name, id);
      }
    }
  }

  lemma PumpKeepsConns(s: Queen, conn: nat, section: Section, c: nat)
    requires Inv(s) && conn in s.conns && c in s.conns
    ensures ConnOk(PumpOnce(s, conn, section).owner, c, PumpOnce(s, conn, section).conns[c])
  {
    assert ConnOk(s.owner, c, s.conns[c]);
    if GivesOut(s.conns[conn], section) {
      ConnOkGrows(s.owner, s.nextSub, conn, c, s.conns[c]);
    } else if c == conn {
      SectionKeepsOwn(s, conn, s.conns[conn], section);
    }
  }

  lemma PumpKeepsInv(s: Queen, conn: nat, section: Section)
    requires Inv(s) && conn in s.conns
    ensures Inv(PumpOnce(s, conn, section))
  {
    var s' := PumpOnce(s, conn, section);
    forall name, id | name in s'.topics && id in s'.topics[name].remotes
      ensures Good(s', name, id, s'.topics[name].remotes[id])
    {
      PumpKeepsGood(s, conn, section, name, id, s'.topics[name].remotes[id]);
    }
    forall c | c in s'.conns
      ensures ConnOk(s'.owner, c, s'.conns[c])
    {
      PumpKeepsConns(s, conn, section, c);
    }
  }

  /** Steps outside the pumps change no subscription and no connection that is there. */
  lemma OtherKeepsInv(s: Queen, step: Step)
    requires Inv(s) && !step.Pump?
    ensures Inv(Apply(s, step))
  {
    var s' := Apply(s, step);
    forall name, id | name in s'.topics && id in s'.topics[name].remotes
      ensures Good(s', name, id, s'.topics[name].remotes[id])
    {
      var r := s'.topics[name].remotes[id];
      if step.SetLocals? && step.topic in s.topics {
        LocalsLeaveRemotes(s.topics, step.topic, step.locals, step.deletes, name, id, r);
      }
      assert Held(s.topics, name, id, r);
      assert Good(s, name, id, r);
    }
  }

  lemma {:induction false} RunKeepsInv(steps: seq<Step>)
    ensures Inv(Exec(steps))
  {
    if steps != [] {
      var init, last := steps[..|steps| - 1], steps[|steps| - 1];
      RunKeepsInv(init);
      if last.Pump? && last.conn in Exec(init).conns {
        PumpKeepsInv(Exec(init), last.conn, last.section);
      } else if !last.Pump? {
        OtherKeepsInv(Exec(init), last);
      }
    }
  }

  /******* What the queen promises *******/

  /** In every run: once a connection's read pump has ended, no topic refers to the connection. */
  lemma EndedIsGone(steps: seq<Step>, conn: nat, name: string, id: nat)
    requires conn in Exec(steps).conns && Exec(steps).conns[conn].reader == Ended
    ensures name in Exec(steps).topics && id in Exec(steps).topics[name].remotes ==>
      Exec(steps).topics[name].remotes[id].conn != conn
  {
    RunKeepsInv(steps);
    var s := Exec(steps);
    if name in s.topics && id in s.topics[name].remotes {
      assert Good(s, name, id, s.topics[name].remotes[id]);
    }
  }

  /** An unsubscribe names the subscription, or its own connection is removed by a copy that has it. */
  ghost predicate TakenBy(s: Queen, step: Step, name: string, id: nat, owner: nat) {
    && step.Pump? && step.conn in s.conns && Takes(s.conns[step.conn], step.section, name, id)
    && (step.section.Delete? || step.conn == owner)
  }

  /**
   In every run a subscription leaves its topic exactly when an unsubscribe frame names it or a
   removal of its own connection has it on its copy. So no topic with a subscription is deleted,
   and no removal takes another connection's subscription.
   */
  lemma LeavesExactly(steps: seq<Step>, step: Step, name: string, id: nat, r: Remote)
    requires Held(Exec(steps).topics, name, id, r)
    ensures !Held(Apply(Exec(steps), step).topics, name, id, r) <==> TakenBy(Exec(steps), step, name, id, r.conn)
  {
    RunKeepsInv(steps);
    var s := Exec(steps);
    assert Good(s, name, id, r);
    if step.Pump? && step.conn in s.conns {
      HeldAfter(s, step.conn, s.conns[step.conn], step.section, name, id, r);
      assert ConnOk(s.owner, step.conn, s.conns[step.conn]);
      if Takes(s.conns[step.conn], step.section, name, id) && !step.section.Delete? {
        CopiesAreOwn(s.owner, step.conn, s.conns[step.conn], step.section, name, id);
      }
    } else if step.SetLocals? && step.topic in s.topics {
      LocalsLeaveRemotes(s.topics, step.topic, step.locals, step.deletes, name, id, r);
    }
  }

  /** What a removal takes was given to its own connection. */
  lemma CopiesAreOwn(owner: map<nat, nat>, conn: nat, k: Conn, section: Section, name: string, id: nat)
    requires ConnOk(owner, conn, k) && Takes(k, section, name, id) && !section.Delete?
    ensures Given(owner, conn, id)
  {
  }
}
