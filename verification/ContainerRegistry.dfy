/**
 The ants' registry of running containers: what it holds after any interleaving of container
 events and ant registrations, and when a request is refused because of it.
 */
module ContainerRegistry {
  import opened Options

  datatype State = Started | Completed | Failed | Cancelled | OtherState(name: string) {
    predicate IsTerminal() { Completed? || Failed? || Cancelled? }
  }

  /** Times are Unix seconds, as the comparison uses them. */
  datatype Event = Event(method': string, container: string, ant: string, state: State, createdAt: int)

  datatype Registration = Registration(ant: string, startedAt: int)

  function Key(method': string, container: string): string { method' + ":" + container }

  function KeyOf(e: Event): string { Key(e.method', e.container) }

  datatype ContainerStatus = NonExistent | ExistsWithGoodAnt | Orphan

  /** What reaches the registry, in the order its lock lets it in. */
  datatype Input = Container(event: Event) | Ant(registration: Registration)

  /******* What the log says *******/

  /** The last event for the key that says it started or ended. */
  function LastWord(log: seq<Input>, key: string): Option<Event> {
    if log == [] then None
    else
      var last := log[|log| - 1];
      if last.Container? && KeyOf(last.event) == key && (last.event.state.Started? || last.event.state.IsTerminal())
      then Some(last.event) else LastWord(log[..|log| - 1], key)
  }

  function LastRegistration(log: seq<Input>, ant: string): Option<Registration> {
    if log == [] then None
    else
      var last := log[|log| - 1];
      if last.Ant? && last.registration.ant == ant then Some(last.registration)
      else LastRegistration(log[..|log| - 1], ant)
  }

  /** By the log the container runs under an ant that started before it and has not restarted. */
  ghost predicate RunsUnderGoodAnt(log: seq<Input>, key: string) {
    var word := LastWord(log, key);
    && word.Some? && word.value.state.Started?
    && var reg := LastRegistration(log, word.value.ant);
       reg.Some? && reg.value.startedAt < word.value.createdAt
  }

  /******* The registry *******/

  class Registry {
    var containers: map<string, Event>
    var registrations: map<string, Registration>
    ghost var log: seq<Input>

    /** A key is present exactly when the log's last word on it is that it started. */
    ghost predicate Valid()
      reads this
    {
      && (forall key {:trigger LastWord(log, key)} ::
            var word := LastWord(log, key);
            (if key in containers then Some(containers[key]) else None) ==
            (if word.Some? && word.value.state.Started? then word else None))
      && (forall ant {:trigger LastRegistration(log, ant)} ::
            LastRegistration(log, ant) == if ant in registrations then Some(registrations[ant]) else None)
    }

    constructor ()
      ensures Valid() && log == []
    {
      containers, registrations, log := map[], map[], [];
    }

    method UpdateContainer(e: Event) returns (ok: bool)
      requires Valid()
      modifies this
      ensures Valid() && log == old(log) + [Container(e)]
      ensures ok <==> e.state.Started? || e.state.IsTerminal()
    {
      ghost var before := log;
      log := log + [Container(e)];
      assert log[..|before|] == before;
      if e.state.Started? {
        containers := containers[KeyOf(e) := e];
      } else if e.state.IsTerminal() {
        containers := containers - {KeyOf(e)};
      } else {
        assert forall key :: LastWord(log, key) == LastWord(before, key);
        return false;
      }
      assert forall key {:trigger LastWord(log, key)} ::
        LastWord(log, key) == if key == KeyOf(e) then Some(e) else LastWord(before, key);
      assert forall ant {:trigger LastRegistration(log, ant)} :: LastRegistration(log, ant) == LastRegistration(before, ant);
      ok := true;
    }

    method RegisterAnt(r: Registration)
      requires Valid()
      modifies this
      ensures Valid() && log == old(log) + [Ant(r)]
    {
      ghost var before := log;
      log := log + [Ant(r)];
      assert log[..|before|] == before;
      registrations := registrations[r.ant := r];
      assert forall key {:trigger LastWord(log, key)} :: LastWord(log, key) == LastWord(before, key);
      assert forall ant {:trigger LastRegistration(log, ant)} ::
        LastRegistration(log, ant) == if ant == r.ant then Some(r) else LastRegistration(before, ant);
    }

    method CheckIfAlreadyRunning(method': string, container: string) returns (status: ContainerStatus)
      requires Valid()
      ensures
        var key := Key(method', container);
        var word := LastWord(log, key);
        && (status == NonExistent <==> word.None? || !word.value.state.Started?)
        && (status == ExistsWithGoodAnt <==> RunsUnderGoodAnt(log, key))
    {
      var key := Key(method', container);
      ghost var word := LastWord(log, key);
      if key !in containers {
        return NonExistent;
      }
      var e := containers[key];
      ghost var reg := LastRegistration(log, e.ant);
      if e.ant !in registrations {
        return Orphan;
      }
      status := if registrations[e.ant].startedAt < e.createdAt then ExistsWithGoodAnt else Orphan;
    }

    /**
     A request is refused exactly when the container runs under a good ant; a container that
     is there without one is stopped first.
     */
    method PreExecute(method': string, container: string) returns (proceed: bool, stopped: bool)
      requires Valid()
      ensures
        var key := Key(method', container);
        var word := LastWord(log, key);
        && (!proceed <==> RunsUnderGoodAnt(log, key))
        && (stopped <==> word.Some? && word.value.state.Started? && !RunsUnderGoodAnt(log, key))
    {
      var status := CheckIfAlreadyRunning(method', container);
      stopped := false;
      if status != NonExistent {
        if status == ExistsWithGoodAnt {
          return false, false;
        }
        stopped := true;
      }
      proceed := true;
    }
  }

  /** Keys of a task method, which has no ':' in its name, never collide. */
  lemma KeyInjective(m1: string, c1: string, m2: string, c2: string)
    requires ':' !in m1 && ':' !in m2 && Key(m1, c1) == Key(m2, c2)
    ensures m1 == m2 && c1 == c2
  {
    var k := Key(m1, c1);
    assert k[|m1|] == ':' && Key(m2, c2)[|m2|] == ':';
    assert |m1| == |m2|;
    assert m1 == k[..|m1|] == m2;
    assert c1 == k[|m1| + 1..] == c2;
  }
}
