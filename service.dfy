/**
  The life cycle of a trace service.  A service starts out unused, is
  initialised and started by its implementation, is stopped on request, and
  falls into the error state when one of its implementation hooks fails.
  Every change of state is reported, as an (old, new) pair, to the
  state-change hook before it takes effect; the field `stateChanges` is the
  sequence of reports made so far.
*/
module Services {

  datatype State = Unused | Initialized | Running | Stopping | Stopped | Errored

  /** One report to the state-change hook. */
  datatype StateChange = StateChange(from: State, to: State)

  /** A callback handle; `Null` is an unset callback. */
  datatype ServiceCallback = Null | Callback(handle: nat)

  /** The states from which the service can never run again. */
  predicate Winding(s: State)
  {
    s == Stopping || s == Stopped || s == Errored
  }

  /**
    The changes the service's own operations make: initialisation, start-up,
    entering and completing a stop, and a failure from any state but the
    error state itself.
  */
  predicate Allowed(from: State, to: State)
  {
    || (from == Unused && to == Initialized)
    || (from == Initialized && to == Running)
    || (!Winding(from) && to == Stopping)
    || (from == Stopping && to == Stopped)
    || (from != Errored && to == Errored)
  }

  /** `cs` is a run of allowed changes leading from `from` to `to`. */
  predicate Chain(cs: seq<StateChange>, from: State, to: State)
    decreases |cs|
  {
    if cs == [] then from == to
    else cs[0].from == from && Allowed(cs[0].from, cs[0].to) && Chain(cs[1..], cs[0].to, to)
  }

  /** An allowed change extends a run. */
  lemma {:induction false} ChainExtend(cs: seq<StateChange>, from: State, mid: State, to: State)
    requires Chain(cs, from, mid) && Allowed(mid, to)
    ensures Chain(cs + [StateChange(mid, to)], from, to)
    decreases |cs|
  {
    if cs != [] {
      ChainExtend(cs[1..], cs[0].to, mid, to);
      assert (cs + [StateChange(mid, to)])[1..] == cs[1..] + [StateChange(mid, to)];
    }
  }

  /** Once winding down, a service stays wound down: it is never initialised, started or run again. */
  lemma {:induction false} WindingIsFinal(cs: seq<StateChange>, from: State, to: State)
    requires Chain(cs, from, to) && Winding(from)
    ensures Winding(to)
    ensures forall i :: 0 <= i < |cs| ==> Winding(cs[i].to)
    decreases |cs|
  {
    if cs != [] {
      WindingIsFinal(cs[1..], cs[0].to, to);
      assert forall i :: 1 <= i < |cs| ==> cs[i] == cs[1..][i - 1];
    }
  }

  /** Nothing follows the error state: a change into it is the last one reported. */
  lemma {:induction false} ErroredIsFinal(cs: seq<StateChange>, from: State, to: State)
    requires Chain(cs, from, to)
    ensures forall i :: 0 <= i < |cs| && cs[i].to == Errored ==> i == |cs| - 1 && to == Errored
    ensures from == Errored ==> cs == [] && to == Errored
    decreases |cs|
  {
    if cs != [] {
      ErroredIsFinal(cs[1..], cs[0].to, to);
      assert forall i :: 1 <= i < |cs| ==> cs[i] == cs[1..][i - 1];
    }
  }

  /** A service that runs was initialised first: every run from unused to running passes through initialisation. */
  lemma {:induction false} RunningWasInitialized(cs: seq<StateChange>, to: State)
    requires Chain(cs, Unused, to) && to == Running
    ensures StateChange(Unused, Initialized) in cs
  {
    assert cs != [];
    if cs[0].to == Initialized {
      assert cs[0] == StateChange(Unused, Initialized);
    } else {
      assert Winding(cs[0].to);
      WindingIsFinal(cs[1..], cs[0].to, to);
    }
  }

  class Service {
    const name: seq<char>
    var instanceId: seq<char>
    var startedCallback: ServiceCallback
    var interruptedCallback: ServiceCallback
    var stoppedCallback: ServiceCallback
    var state: State
    /** What the state-change hook has been told, oldest first. */
    var stateChanges: seq<StateChange>

    /** The reported changes lead from the initial state to the current one. */
    ghost predicate Valid()
      reads this
    {
      Chain(stateChanges, Unused, state)
    }

    constructor(name: seq<char>)
      requires name != []
      ensures Valid() && this.name == name
      ensures state == Unused && stateChanges == [] && instanceId == []
      ensures startedCallback == Null && interruptedCallback == Null && stoppedCallback == Null
    {
      this.name := name;
      instanceId := [];
      startedCallback, interruptedCallback, stoppedCallback := Null, Null, Null;
      state := Unused;
      stateChanges := [];
    }

    method SetInstanceId(id: seq<char>)
      requires state == Unused
      modifies this
      ensures instanceId == id
      ensures state == old(state) && stateChanges == old(stateChanges)
      ensures startedCallback == old(startedCallback) && interruptedCallback == old(interruptedCallback)
      ensures stoppedCallback == old(stoppedCallback)
    {
      instanceId := id;
    }

    method SetStartedCallback(callback: ServiceCallback)
      requires state == Unused
      modifies this
      ensures startedCallback == callback
      ensures state == old(state) && stateChanges == old(stateChanges) && instanceId == old(instanceId)
      ensures interruptedCallback == old(interruptedCallback) && stoppedCallback == old(stoppedCallback)
    {
      startedCallback := callback;
    }

    method SetInterruptedCallback(callback: ServiceCallback)
      requires state == Unused
      modifies this
      ensures interruptedCallback == callback
      ensures state == old(state) && stateChanges == old(stateChanges) && instanceId == old(instanceId)
      ensures startedCallback == old(startedCallback) && stoppedCallback == old(stoppedCallback)
    {
      interruptedCallback := callback;
    }

    method SetStoppedCallback(callback: ServiceCallback)
      requires state == Unused
      modifies this
      ensures stoppedCallback == callback
      ensures state == old(state) && stateChanges == old(stateChanges) && instanceId == old(instanceId)
      ensures startedCallback == old(startedCallback) && interruptedCallback == old(interruptedCallback)
    {
      stoppedCallback := callback;
    }

    /** Reports the change to the state-change hook, then makes it. */
    method SetState(s: State)
      modifies this
      ensures state == s && stateChanges == old(stateChanges) + [StateChange(old(state), s)]
      ensures instanceId == old(instanceId) && startedCallback == old(startedCallback)
      ensures interruptedCallback == old(interruptedCallback) && stoppedCallback == old(stoppedCallback)
    {
      stateChanges := stateChanges + [StateChange(state, s)];
      state := s;
    }

    /**
      Starts an unused service; `startImplOk` is what the implementation's
      start hook returns.  A failing hook puts the service in error.
    */
    method Start(startImplOk: bool) returns (ok: bool)
      requires Valid() && state == Unused
      modifies this
      ensures Valid() && ok == startImplOk
      ensures ok ==> state == Unused && stateChanges == old(stateChanges)
      ensures !ok ==> state == Errored && stateChanges == old(stateChanges) + [StateChange(Unused, Errored)]
      ensures instanceId == old(instanceId) && startedCallback == old(startedCallback)
      ensures interruptedCallback == old(interruptedCallback) && stoppedCallback == old(stoppedCallback)
    {
      if !startImplOk {
        ChainExtend(stateChanges, Unused, state, Errored);
        SetState(Errored);
        return false;
      }
      return true;
    }

    /**
      Stops the service; `stopImplOk` is what the implementation's stop hook
      returns.  Stopping a service that is stopping or stopped does nothing.
    */
    method Stop(stopImplOk: bool) returns (ok: bool)
      requires Valid() && state != Errored
      modifies this
      ensures Valid()
      ensures old(state) == Stopping || old(state) == Stopped ==>
        ok && state == old(state) && stateChanges == old(stateChanges)
      ensures old(state) != Stopping && old(state) != Stopped ==>
        && ok == stopImplOk
        && state == (if ok then Stopping else Errored)
        && stateChanges == old(stateChanges) + [StateChange(old(state), Stopping)]
                           + (if ok then [] else [StateChange(Stopping, Errored)])
      ensures instanceId == old(instanceId) && startedCallback == old(startedCallback)
      ensures interruptedCallback == old(interruptedCallback) && stoppedCallback == old(stoppedCallback)
    {
      if state == Stopping || state == Stopped {
        return true;
      }
      ChainExtend(stateChanges, Unused, state, Stopping);
      SetState(Stopping);
      if !stopImplOk {
        ChainExtend(stateChanges, Unused, state, Errored);
        SetState(Errored);
        return false;
      }
      return true;
    }

    /**
      Waits for the service to finish; `joinImplOk` is what the
      implementation's join hook returns.  A successful join finds the
      service stopped.
    */
    method Join(joinImplOk: bool) returns (ok: bool)
      requires Valid() && state != Errored
      requires joinImplOk ==> state == Stopped
      modifies this
      ensures Valid() && ok == joinImplOk
      ensures ok ==> state == Stopped && stateChanges == old(stateChanges)
      ensures !ok ==> state == Errored && stateChanges == old(stateChanges) + [StateChange(old(state), Errored)]
      ensures instanceId == old(instanceId) && startedCallback == old(startedCallback)
      ensures interruptedCallback == old(interruptedCallback) && stoppedCallback == old(stoppedCallback)
    {
      if !joinImplOk {
        ChainExtend(stateChanges, Unused, state, Errored);
        SetState(Errored);
        return false;
      }
      return true;
    }

    /** The implementation reports that it is initialised. */
    method OnInitialized() returns (ok: bool)
      requires Valid() && state == Unused
      modifies this
      ensures Valid() && ok && state == Initialized
      ensures stateChanges == old(stateChanges) + [StateChange(Unused, Initialized)]
      ensures instanceId == old(instanceId) && startedCallback == old(startedCallback)
      ensures interruptedCallback == old(interruptedCallback) && stoppedCallback == old(stoppedCallback)
    {
      ChainExtend(stateChanges, Unused, state, Initialized);
      SetState(Initialized);
      return true;
    }

    /**
      The implementation reports that it has started; `verdict` is what the
      started callback returns, and is ignored when no callback is set.
    */
    method OnStarted(verdict: bool) returns (ok: bool)
      requires Valid() && state == Initialized
      modifies this
      ensures Valid() && (ok <==> startedCallback.Null? || verdict)
      ensures ok ==> state == Running && stateChanges == old(stateChanges) + [StateChange(Initialized, Running)]
      ensures !ok ==> state == Initialized && stateChanges == old(stateChanges)
      ensures instanceId == old(instanceId) && startedCallback == old(startedCallback)
      ensures interruptedCallback == old(interruptedCallback) && stoppedCallback == old(stoppedCallback)
    {
      if !startedCallback.Null? && !verdict {
        return false;
      }
      ChainExtend(stateChanges, Unused, state, Running);
      SetState(Running);
      return true;
    }

    /**
      The service is interrupted; `verdict` is what the interrupted callback
      returns, and is ignored when no callback is set.  The state is not
      touched.
    */
    method OnInterrupted(verdict: bool) returns (ok: bool)
      requires Valid() && state != Stopped && state != Errored
      ensures ok <==> interruptedCallback.Null? || verdict
    {
      ok := interruptedCallback.Null? || verdict;
    }

    /**
      The implementation reports that it has stopped; `verdict` is what the
      stopped callback returns, and is ignored when no callback is set.
    */
    method OnStopped(verdict: bool) returns (ok: bool)
      requires Valid() && state == Stopping
      modifies this
      ensures Valid() && (ok <==> stoppedCallback.Null? || verdict)
      ensures ok ==> state == Stopped && stateChanges == old(stateChanges) + [StateChange(Stopping, Stopped)]
      ensures !ok ==> state == Stopping && stateChanges == old(stateChanges)
      ensures instanceId == old(instanceId) && startedCallback == old(startedCallback)
      ensures interruptedCallback == old(interruptedCallback) && stoppedCallback == old(stoppedCallback)
    {
      if !stoppedCallback.Null? && !verdict {
        return false;
      }
      ChainExtend(stateChanges, Unused, state, Stopped);
      SetState(Stopped);
      return true;
    }
  }
}
