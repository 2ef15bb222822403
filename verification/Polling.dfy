/**
 Polling a background task until it is done: the result channel has one slot, and the poller
 must send on it at most once, before closing it, and never afterwards.
 */
module Polling {
  import opened Options

  /** What one poll sees: a cancelled context, or what the handler returned. */
  datatype Poll = Cancelled(reason: string) | Returned(completed: bool, result: string, err: Option<string>)

  datatype Response = Response(result: Option<string>, err: Option<string>, completed: bool)

  /** A poll that is finished one way or the other. */
  predicate Decides(p: Poll) { p.Cancelled? || p.completed || p.err.Some? }

  predicate Completes(p: Poll) { p.Cancelled? || p.completed }

  function ResponseOf(p: Poll): Response {
    match p
    case Cancelled(reason) => Response(None, Some(reason), true)
    case Returned(completed, result, err) => Response(Some(result), err, completed)
  }

  /** The response of the first poll that decides. */
  function FirstDecision(polls: seq<Poll>): seq<Response> {
    if polls == [] then []
    else
      var earlier := FirstDecision(polls[..|polls| - 1]);
      if earlier != [] then earlier
      else if Decides(polls[|polls| - 1]) then [ResponseOf(polls[|polls| - 1])]
      else []
  }

  lemma {:induction false} FirstDecisionAt(polls: seq<Poll>, k: nat)
    requires k < |polls| && Decides(polls[k]) && forall i :: 0 <= i < k ==> !Decides(polls[i])
    ensures FirstDecision(polls) == [ResponseOf(polls[k])]
  {
    if k < |polls| - 1 {
      FirstDecisionAt(polls[..|polls| - 1], k);
    } else {
      NoDecision(polls[..k]);
    }
  }

  lemma {:induction false} NoDecision(polls: seq<Poll>)
    requires forall i :: 0 <= i < |polls| ==> !Decides(polls[i])
    ensures FirstDecision(polls) == []
  {
    if polls != [] {
      NoDecision(polls[..|polls| - 1]);
    }
  }

  /** What ends the wait after a poll. */
  datatype Wake = Timer | Signal | Done(reason: string)

  datatype Turn = Turn(poll: Poll, wake: Wake)

  /** The polls of one turn: when the context is done there is one more, which sees that. */
  function MadeBy(turn: Turn, running: bool): seq<Poll> {
    if turn.wake.Done? && !(running && Completes(turn.poll)) then [turn.poll, Cancelled(turn.wake.reason)]
    else [turn.poll]
  }

  /** The loop ends when a poll completes that also delivers, or the context is done. */
  predicate Stops(turn: Turn, running: bool) { (running && Completes(turn.poll)) || turn.wake.Done? }

  /** Where a loop stands after some turns: the polls made, whether it may still deliver, and if it ended. */
  datatype Progress = Progress(made: seq<Poll>, running: bool, stopped: bool)

  function After(turns: seq<Turn>): Progress {
    if turns == [] then Progress([], true, false)
    else
      var p, turn := After(turns[..|turns| - 1]), turns[|turns| - 1];
      if p.stopped then p
      else Progress(p.made + MadeBy(turn, p.running), p.running && !Decides(turn.poll), Stops(turn, p.running))
  }

  lemma AfterNext(turns: seq<Turn>, i: nat)
    requires i < |turns| && !After(turns[..i]).stopped
    ensures
      var p, turn := After(turns[..i]), turns[i];
      After(turns[..i + 1]) ==
        Progress(p.made + MadeBy(turn, p.running), p.running && !Decides(turn.poll), Stops(turn, p.running))
  {
    assert turns[..i + 1][..i] == turns[..i];
  }

  lemma {:induction false} AfterStopped(turns: seq<Turn>, i: nat)
    requires i <= |turns| && After(turns[..i]).stopped
    ensures After(turns) == After(turns[..i])
  {
    if i == |turns| {
      assert turns[..i] == turns;
    } else {
      assert turns[..|turns| - 1][..i] == turns[..i];
      AfterStopped(turns[..|turns| - 1], i);
    }
  }

  /**
   The loop ends with the turn whose poll delivers if and only if that poll completes or sees a
   cancelled context, or the context is done right after it. A poll that fails without
   completing delivers its error, and the loop goes on.
   */
  lemma StopsAtDeliveryExactly(turns: seq<Turn>, k: nat)
    requires k < |turns| && Delivers(turns, k)
    ensures After(turns[..k + 1]).stopped <==> Completes(turns[k].poll) || turns[k].wake.Done?
  {
    assert turns[..k + 1][..k] == turns[..k];
  }

  /** The loop is still running at this turn, and the turn's poll decides. */
  ghost predicate Delivers(turns: seq<Turn>, k: nat)
    requires k < |turns|
  {
    !After(turns[..k]).stopped && After(turns[..k]).running && Decides(turns[k].poll)
  }

  /** After such a failure no poll ends the loop, complete or not: it polls until the context is done. */
  lemma {:induction false} FailedLoopPollsOn(turns: seq<Turn>, k: nat, n: nat)
    requires k < n <= |turns| && Delivers(turns, k) && !After(turns[..k + 1]).stopped
    ensures !After(turns[..n]).running
    ensures After(turns[..n]).stopped <==> exists i :: k < i < n && turns[i].wake.Done?
    ensures !After(turns[..n]).stopped ==> |After(turns[..n]).made| == |After(turns[..k + 1]).made| + n - k - 1
  {
    assert turns[..n][..n - 1] == turns[..n - 1];
    if n > k + 1 {
      FailedLoopPollsOn(turns, k, n - 1);
    }
  }

  lemma {:induction false} ProductGrows(j: nat, k: nat, x: int)
    requires j <= k && x >= 0
    ensures j * x <= k * x
  {
    if j < k {
      ProductGrows(j, k - 1, x);
      assert k * x == (k - 1) * x + x;
    }
  }

  class Task {
    const pollInterval: int
    const maxPollInterval: int
    var running: bool
    /** The channel: what is in its one slot, and whether it is closed. */
    var slot: Option<Response>
    var closed: bool
    var polls: int
    ghost var sent: seq<Response>
    ghost var made: seq<Poll>

    /** Everything sent is the first decision, and the channel is closed exactly when it is sent. */
    ghost predicate Valid()
      reads this
    {
      && sent == FirstDecision(made) && |sent| <= 1
      && (running <==> sent == []) && (closed <==> sent != [])
      && (slot.Some? ==> sent == [slot.value])
    }

    constructor (pollInterval: int, maxPollInterval: int)
      ensures Valid() && running && made == [] && polls == 0
      ensures this.pollInterval == pollInterval && this.maxPollInterval == maxPollInterval
    {
      this.pollInterval, this.maxPollInterval := pollInterval, maxPollInterval;
      running, slot, closed, polls, sent, made := true, None, false, 0, [], [];
    }

    /** Would block on a full slot and panic on a closed channel. */
    method Send(r: Response)
      requires !closed && slot.None?
      modifies this`slot, this`sent
      ensures slot == Some(r) && sent == old(sent) + [r]
    {
      slot := Some(r);
      sent := sent + [r];
    }

    /** Would panic if the channel were closed already. */
    method Close()
      requires !closed
      modifies this`closed
      ensures closed
    {
      closed := true;
    }

    /** The awaiter takes the response; nothing else empties the slot. */
    method Receive() returns (r: Option<Response>)
      requires Valid()
      modifies this`slot
      ensures Valid() && r == old(slot) && slot == None
      ensures r.Some? ==> FirstDecision(made) == [r.value]
    {
      r := slot;
      slot := None;
    }

    method InvokeHandlerAndCheckCompletion(p: Poll) returns (done: bool)
      requires Valid()
      modifies this`running, this`slot, this`closed, this`sent, this`made
      ensures Valid() && made == old(made) + [p]
      ensures done <==> old(running) && Completes(p)
      ensures running <==> old(running) && !Decides(p)
    {
      made := made + [p];
      assert made[..|made| - 1] == old(made);
      if running && Decides(p) {
        Send(ResponseOf(p));
        running := false;
        Close();
        return Completes(p);
      }
      done := false;
    }

    /** One turn of either loop: poll, wait, and poll once more if the context is done. */
    method TakeTurn(turn: Turn) returns (waited: bool, stop: bool)
      requires Valid()
      modifies this`running, this`slot, this`closed, this`sent, this`made
      ensures Valid() && made == old(made) + MadeBy(turn, old(running))
      ensures stop <==> Stops(turn, old(running))
      ensures !stop ==> waited && (running <==> old(running) && !Decides(turn.poll))
    {
      var done := InvokeHandlerAndCheckCompletion(turn.poll);
      if done {
        return false, true;
      }
      if turn.wake.Done? {
        var last := InvokeHandlerAndCheckCompletion(Cancelled(turn.wake.reason));
        return true, true;
      }
      return true, false;
    }

    /** The polling loop, with a fixed wait between polls. */
    method Run(turns: seq<Turn>)
      requires Valid() && running && made == []
      modifies this
      ensures Valid() && made == After(turns).made
    {
      var i := 0;
      while i < |turns|
        invariant 0 <= i <= |turns| && Valid()
        invariant After(turns[..i]) == Progress(made, running, false)
        decreases |turns| - i
      {
        assert turns[..i + 1][..i] == turns[..i];
        var waited, stop := TakeTurn(turns[i]);
        if stop {
          AfterStopped(turns, i + 1);
          return;
        }
        i := i + 1;
      }
      assert turns[..|turns|] == turns;
    }

    /** One turn of that loop, which counts the poll and waits for longer each time. */
    method SignalTurn(turn: Turn, waits: seq<int>) returns (waits': seq<int>, stop: bool)
      requires Valid() && polls == |waits| && waits == Waits(|waits|)
      modifies this
      ensures Valid() && polls == old(polls) + 1 && waits' == Waits(|waits'|) && |waits'| <= polls <= |waits'| + 1
      ensures made == old(made) + MadeBy(turn, old(running)) && (stop <==> Stops(turn, old(running)))
      ensures !stop ==> |waits'| == polls && (running <==> old(running) && !Decides(turn.poll))
    {
      polls := polls + 1;
      var wait := NextWait(|waits|);
      var waited;
      waited, stop := TakeTurn(turn);
      waits' := if waited then waits + [wait] else waits;
    }

    /** The loop that also wakes on a signal, and whose waits grow with the number of polls. */
    method RunWithSignal(turns: seq<Turn>) returns (waits: seq<int>)
      requires Valid() && running && made == [] && polls == 0
      modifies this
      ensures Valid() && made == After(turns).made
      ensures waits == Waits(|waits|) && |waits| <= polls <= |waits| + 1
    {
      waits := [];
      var i := 0;
      while i < |turns|
        invariant 0 <= i <= |turns| && Valid() && polls == i == |waits| && waits == Waits(i)
        invariant After(turns[..i]) == Progress(made, running, false)
        decreases |turns| - i
      {
        AfterNext(turns, i);
        var stop;
        waits, stop := SignalTurn(turns[i], waits);
        if stop {
          AfterStopped(turns, i + 1);
          return;
        }
        i := i + 1;
      }
      assert turns[..|turns|] == turns;
    }

    /** MinDuration(maxPollInterval, polls * pollInterval) */
    function Wait(n: int): int {
      if maxPollInterval <= n * pollInterval then maxPollInterval else n * pollInterval
    }

    function Waits(n: nat): (w: seq<int>)
      ensures |w| == n
    {
      seq(n, k => Wait(k + 1))
    }

    method NextWait(n: nat) returns (w: int)
      ensures Waits(n + 1) == Waits(n) + [w]
    {
      w := Wait(n + 1);
    }

    /** Waits never get shorter and never exceed the maximum. */
    lemma WaitsGrow(n: nat, j: nat, k: nat)
      requires j <= k < n && pollInterval >= 0
      ensures Waits(n)[j] <= Waits(n)[k] <= maxPollInterval
    {
      ProductGrows(j + 1, k + 1, pollInterval);
    }
  }
}
