/** The gate that holds back delivery until a bound node is ready. */
module Gate {
  import opened Text

  datatype GateState = GateState(timeout: nat, boundAt: Option<nat>, ready: bool)

  function NewGate(timeout: nat): GateState {
    GateState(timeout, None, false)
  }

  /** The first bind starts the wait; a later one does not restart it. */
  function Bind(g: GateState, now: nat): GateState {
    if g.ready || g.boundAt.Some? then g else g.(boundAt := Some(now))
  }

  predicate OpensByAck(g: GateState, acked: int, center: int) {
    !g.ready && acked >= center
  }

  predicate OpensByTimeout(g: GateState, now: nat) {
    !g.ready && g.boundAt.Some? && now >= g.boundAt.value + g.timeout
  }

  class ReadyGate {
    const timeout: nat
    var boundAt: Option<nat>
    var ready: bool

    function View(): GateState
      reads this
    {
      GateState(timeout, boundAt, ready)
    }

    constructor (timeout: nat)
      ensures View() == NewGate(timeout)
    {
      this.timeout := timeout;
      boundAt := None;
      ready := false;
    }

    method OnBound(now: nat)
      modifies this
      ensures View() == Bind(old(View()), now)
      ensures ready == old(ready) && boundAt == if old(ready) || old(boundAt).Some? then old(boundAt) else Some(now)
    {
      if ready || boundAt.Some? {
        return;
      }
      boundAt := Some(now);
    }

    /** True only on the transition to ready. */
    method OnNodeReady(ackedGen: int, centerGen: int) returns (flush: bool)
      modifies this
      ensures flush <==> OpensByAck(old(View()), ackedGen, centerGen)
      ensures flush <==> !old(ready) && ackedGen >= centerGen
      ensures View() == old(View()).(ready := old(ready) || flush)
    {
      if ready || ackedGen < centerGen {
        return false;
      }
      ready := true;
      return true;
    }

    method Deadline() returns (due: Option<nat>)
      ensures due == if ready || boundAt.None? then None else Some(boundAt.value + timeout)
    {
      if ready {
        due := None;
      } else {
        due := match boundAt case Some(t) => Some(t + timeout) case None => None;
      }
    }

    /** True only on the transition to ready, at or after the deadline. */
    method OnTimeout(now: nat) returns (flush: bool)
      modifies this
      ensures flush <==> OpensByTimeout(old(View()), now)
      ensures flush <==> !old(ready) && old(boundAt).Some? && now >= old(boundAt).value + timeout
      ensures View() == old(View()).(ready := old(ready) || flush)
    {
      if ready {
        return false;
      }
      var deadline := Deadline();
      if deadline.Some? && now >= deadline.value {
        ready := true;
        return true;
      }
      return false;
    }
  }

  datatype GateCall = Bound(now: nat) | NodeReady(acked: int, center: int) | Timeout(now: nat)

  predicate Opens(g: GateState, c: GateCall) {
    match c
    case Bound(_) => false
    case NodeReady(acked, center) => OpensByAck(g, acked, center)
    case Timeout(now) => OpensByTimeout(g, now)
  }

  function After(g: GateState, c: GateCall): GateState {
    match c
    case Bound(now) => Bind(g, now)
    case _ => g.(ready := g.ready || Opens(g, c))
  }

  function GateRun(g: GateState, calls: seq<GateCall>): GateState {
    if calls == [] then g else After(GateRun(g, calls[..|calls| - 1]), calls[|calls| - 1])
  }

  /** The call that opened a gate is the only one that ever reports opening it. */
  lemma {:induction false} OpensAtMostOnce(g: GateState, calls: seq<GateCall>, i: nat, j: nat)
    requires i < j <= |calls| && Opens(GateRun(g, calls[..i]), calls[i])
    ensures GateRun(g, calls[..j]).ready
    ensures j < |calls| ==> !Opens(GateRun(g, calls[..j]), calls[j])
  {
    assert calls[..j][..j - 1] == calls[..j - 1];
    if i < j - 1 {
      OpensAtMostOnce(g, calls, i, j - 1);
    }
  }
}
