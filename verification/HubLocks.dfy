/**
 The subscribe handlers of the hub as they lock: one section finds or creates the topic and
 another inserts into the topic object found, so the topic may be deleted in between. Topic
 objects are numbered as they are created.
 */
module HubLocks {
  import opened Hub

  datatype Handle = Handle(topic: string, number: nat)

  /** `objects` says which object stands in the table under each name, `reached` which one each handler holds. */
  datatype Locked = Locked(hub: Hub.State, objects: map<string, nat>, nextObject: nat, reached: map<nat, Handle>)

  datatype Step =
    | Reach(handler: nat, topic: string)
    | Insert(handler: nat, conn: nat)
    | InsertLocal(handler: nat)
    | Whole(event: Event)

  /** The object that the handler holds is still the one in the table. */
  predicate Current(s: Locked, handler: nat) {
    && handler in s.reached && s.reached[handler].topic in s.objects
    && s.objects[s.reached[handler].topic] == s.reached[handler].number
  }

  /** Everything but the subscribes is one step here; `HubPumps` has the sections of removals and unsubscribes too. */
  predicate OneSection(e: Event) { e.Joined? || e.Unsubscribed? || e.Left? || e.LocalUnsubscribed? || e.Touched? }

  ghost predicate Ready(s: Locked, step: Step) {
    match step
    case Reach(_, _) => true
    case Insert(h, conn) => h in s.reached && conn in s.hub.lists
    case InsertLocal(h) => h in s.reached
    case Whole(e) => OneSection(e) && Possible(s.hub, e)
  }

  /** What the step amounts to in the hub with whole handlers. */
  ghost function EventOf(s: Locked, step: Step): (e: Event)
    requires Ready(s, step)
    ensures Possible(s.hub, e)
  {
    match step
    case Reach(_, topic) => Touched(topic)
    case Insert(h, conn) =>
      if Current(s, h) then Subscribed(conn, s.reached[h].topic) else Orphaned(conn, s.reached[h].topic)
    case InsertLocal(h) =>
      if Current(s, h) then LocalSubscribed(s.reached[h].topic) else LocalOrphaned(s.reached[h].topic)
    case Whole(e) => e
  }

  /** A topic that is new in the table is a new object. */
  function Numbered(objects: map<string, nat>, next: nat, topics: map<string, Topic>): map<string, nat> {
    map name | name in topics :: if name in objects then objects[name] else next
  }

  ghost function Apply(s: Locked, step: Step): Locked {
    if !Ready(s, step) then s
    else
      var hub := Do(s.hub, EventOf(s, step));
      var s' := s.(hub := hub, objects := Numbered(s.objects, s.nextObject, hub.topics), nextObject := s.nextObject + 1);
      match step
      case Reach(h, topic) => s'.(reached := s.reached[h := Handle(topic, s'.objects[topic])])
      case Insert(h, _) => s'.(reached := s.reached - {h})
      case InsertLocal(h) => s'.(reached := s.reached - {h})
      case Whole(_) => s'
  }

  ghost function Exec(s: Locked, steps: seq<Step>): Locked {
    if steps == [] then s else Apply(Exec(s, steps[..|steps| - 1]), steps[|steps| - 1])
  }

  ghost function Events(s: Locked, steps: seq<Step>): seq<Event> {
    if steps == [] then []
    else
      var before, last := Exec(s, steps[..|steps| - 1]), steps[|steps| - 1];
      Events(s, steps[..|steps| - 1]) + (if Ready(before, last) then [EventOf(before, last)] else [])
  }

  function Fresh(): Locked { Locked(Hub.Start(), map[], 0, map[]) }

  /**
   Every run of lock sections is a run of whole handlers, in which a subscribe that inserts into
   a deleted topic is an orphan. So what holds in all runs of the hub holds here.
   */
  lemma {:induction false} RefinesHub(steps: seq<Step>)
    ensures PossibleAll(Events(Fresh(), steps)) && DoAll(Events(Fresh(), steps)) == Exec(Fresh(), steps).hub
  {
    if steps != [] {
      var init, last := steps[..|steps| - 1], steps[|steps| - 1];
      RefinesHub(init);
      var before := Exec(Fresh(), init);
      if Ready(before, last) {
        DoSnoc(Events(Fresh(), init), EventOf(before, last));
      } else {
        assert Events(Fresh(), steps) == Events(Fresh(), init);
      }
    }
  }

  /** In every run of lock sections the tables hold exactly the subscriptions in force, orphans not among them. */
  lemma RunAgreesLocked(steps: seq<Step>)
    ensures Inv(Exec(Fresh(), steps).hub) && Agrees(Exec(Fresh(), steps).hub, RecordAll(Events(Fresh(), steps)))
  {
    RefinesHub(steps);
    RunAgrees(Events(Fresh(), steps));
  }

  /******* When a subscription is orphaned *******/

  /** Objects in the table are numbered, and so are those that handlers hold. */
  ghost predicate Ok(s: Locked) {
    && s.objects.Keys == s.hub.topics.Keys
    && (forall name :: name in s.objects ==> s.objects[name] < s.nextObject)
    && (forall h :: h in s.reached ==> s.reached[h].number < s.nextObject)
  }

  lemma StepKeepsOk(s: Locked, step: Step)
    requires Ok(s)
    ensures Ok(Apply(s, step))
  {
  }

  lemma {:induction false} RunKeepsOk(s: Locked, steps: seq<Step>)
    requires Ok(s)
    ensures Ok(Exec(s, steps))
  {
    if steps != [] {
      RunKeepsOk(s, steps[..|steps| - 1]);
      StepKeepsOk(Exec(s, steps[..|steps| - 1]), steps[|steps| - 1]);
    }
  }

  /** The step is another handler's. */
  ghost predicate Spares(step: Step, handler: nat) { step.Whole? || step.handler != handler }

  /** The topic is in the table throughout the run. */
  ghost predicate Stays(s: Locked, steps: seq<Step>, topic: string) {
    topic in Exec(s, steps).hub.topics && (steps != [] ==> Stays(s, steps[..|steps| - 1], topic))
  }

  lemma StepOnCurrent(s: Locked, step: Step, h: nat)
    requires Ok(s) && h in s.reached && Spares(step, h)
    ensures h in Apply(s, step).reached && Apply(s, step).reached[h] == s.reached[h]
    ensures Current(Apply(s, step), h) <==> Current(s, h) && s.reached[h].topic in Apply(s, step).hub.topics
  {
  }

  /**
   Between the two sections of a handler: the object it found is still the one in the table, and
   the insert a subscription in force, if and only if the topic was there throughout. A topic
   created again under the same name does not help.
   */
  lemma {:induction false} CurrentExactly(s: Locked, h: nat, topic: string, mid: seq<Step>)
    requires Ok(s) && forall step :: step in mid ==> Spares(step, h)
    ensures
      var found := Apply(s, Reach(h, topic));
      var end := Exec(found, mid);
      && h in end.reached && end.reached[h].topic == topic
      && (Current(end, h) <==> Stays(found, mid, topic))
  {
    var found := Apply(s, Reach(h, topic));
    StepKeepsOk(s, Reach(h, topic));
    if mid != [] {
      var init, last := mid[..|mid| - 1], mid[|mid| - 1];
      assert last in mid && forall step :: step in init ==> step in mid;
      CurrentExactly(s, h, topic, init);
      RunKeepsOk(found, init);
      StepOnCurrent(Exec(found, init), last, h);
    }
  }

  /** Which events delete a topic: the last subscriber goes with its connection, or unsubscribes locally. */
  lemma DeletedExactly(s: Hub.State, e: Event, name: string)
    requires Possible(s, e) && name in s.topics
    ensures name !in Do(s, e).topics <==>
      || (e.Left? && name in s.lists[e.conn] && Cleaned(s.topics[name], s.lists[e.conn][name]) == EMPTY_TOPIC)
      || (e.LocalUnsubscribed? && e.topic == name && s.topics[name] == Topic({e.id}, map[]))
  {
  }

  /**
   It happens: the last subscriber leaves between the two sections of another connection's
   subscribe. That subscribe is answered with an ID which no topic holds.
   */
  lemma LastSubscriberLeaves(s: Locked, h: nat, topic: string, gone: nat, conn: nat)
    requires Ok(s) && Inv(s.hub) && topic in s.hub.topics && gone in s.hub.lists && conn in s.hub.lists
    requires topic in s.hub.lists[gone] && Cleaned(s.hub.topics[topic], s.hub.lists[gone][topic]) == EMPTY_TOPIC
    ensures
      var end := Apply(Apply(Apply(s, Reach(h, topic)), Whole(Left(gone))), Insert(h, conn)).hub;
      && s.hub.nextSub in Listed(end.lists[conn], topic)
      && forall name :: name in end.topics ==> s.hub.nextSub !in end.topics[name].remotes
  {
    var found := Apply(s, Reach(h, topic));
    assert found.hub == s.hub;
    var left := Apply(found, Whole(Left(gone)));
    DeletedExactly(s.hub, Left(gone), topic);
    assert !Current(left, h);
    RemoveConnKeeps(s.hub, gone);
    var end := Apply(left, Insert(h, conn)).hub;
    assert end == Orphan(left.hub, conn, topic);
    var ids := Listed(s.hub.lists[conn], topic);
    assert end.lists[conn][topic] == ids + [s.hub.nextSub] && (ids + [s.hub.nextSub])[|ids|] == s.hub.nextSub;
    forall name | name in end.topics
      ensures s.hub.nextSub !in end.topics[name].remotes
    {
      assert s.hub.nextSub in end.topics[name].remotes ==> s.hub.nextSub < left.hub.nextSub;
    }
  }
}
