/** The critical sections of the stream client as code on its fields. What a method does between two
    points where another thread can interleave is one step of the concurrent system; the dispatch
    loop, which runs under the mutex, is a run of such steps. */
module StreamObject {
  import opened Messages
  import opened StreamClient

  class MlmStreamClient {
    var callbacks: map<nat, nat>
    var counter: nat
    var stopRequested: bool
    var exPtr: bool
    var listenerThread: Option<nat>
    // the position of the parties and what lies between them
    var caller: Caller
    var mutex: Mutex
    var threads: seq<Thread>
    var bus: seq<StreamMsg>
    // what has happened so far
    var hist: History
    var faults: Faults

    function State(): State
      reads this
    {
      StreamClient.State(caller, mutex, listenerThread, threads, callbacks, counter, stopRequested, exPtr,
                         bus, hist, faults)
    }

    constructor ()
      ensures State() == Init()
    {
      callbacks, counter, stopRequested, exPtr, listenerThread := map[], 0, false, false, None;
      caller, mutex, threads, bus := Idle, Free, [], [];
      hist, faults := History([], [], []), NO_FAULTS;
    }

    /** `subscribe` up to the lock. */
    method SubscribeEnter()
      requires CallerEnabled(State(), SubscribeCall)
      modifies this
      ensures State() == CallerApply(old(State()), SubscribeCall)
    {
      stopRequested := false;
      counter := (counter + 1) % UINT32_VALUES;
      caller := SubEntered;
    }

    /** `subscribe` under the lock, up to the wait or, when there is a listener, to the end, where it
        gives the id. */
    method SubscribeLocked() returns (id: Option<nat>)
      requires CallerEnabled(State(), SubscribeLock)
      modifies this
      ensures State() == CallerApply(old(State()), SubscribeLock)
      ensures id == if old(listenerThread).Some? then Some(old(counter)) else None
    {
      var subs := CloseId(State(), counter);
      callbacks := callbacks[counter := |hist.subs|];
      hist := hist.(subs := subs + [Subscription(counter, |hist.log|, None)]);
      if listenerThread.None? {
        mutex := HeldByCaller;
        exPtr := false;
        listenerThread := Some(|threads|);
        threads := threads + [Thread(Starting, false, [], false)];
        caller := SubSpawned;
        id := None;
      } else {
        caller := Idle;
        id := Some(counter);
      }
    }

    /** The end of `subscribe` after the wait: gives the id, or fails as the listener has failed. */
    method SubscribeCheckStart() returns (id: Option<nat>)
      requires CallerEnabled(State(), SubscribeCheck)
      modifies this`caller
      ensures State() == CallerApply(old(State()), SubscribeCheck)
      ensures id == if exPtr then None else Some(counter)
    {
      caller := Idle;
      id := if exPtr then None else Some(counter);
    }

    method UnsubscribeFind(subId: nat)
      requires CallerEnabled(State(), UnsubscribeCall(subId))
      modifies this`caller
      ensures State() == CallerApply(old(State()), UnsubscribeCall(subId))
    {
      if subId in callbacks {
        caller := UnsubErasing(subId);
      }
    }

    method UnsubscribeLocked(subId: nat)
      requires CallerEnabled(State(), UnsubscribeErase) && caller == UnsubErasing(subId)
      modifies this
      ensures State() == CallerApply(old(State()), UnsubscribeErase)
    {
      hist := hist.(subs := CloseId(State(), subId));
      callbacks := callbacks - {subId};
      caller := UnsubErased;
    }

    method UnsubscribeStop()
      requires CallerEnabled(State(), UnsubscribeTest)
      modifies this
      ensures State() == CallerApply(old(State()), UnsubscribeTest)
    {
      if NoCallbacks(callbacks) {
        stopRequested := true;
        caller := StopSet(false);
      } else {
        caller := Idle;
      }
    }

    method DestructorStop()
      requires CallerEnabled(State(), DestructorCall)
      modifies this
      ensures State() == CallerApply(old(State()), DestructorCall)
    {
      if !NoCallbacks(callbacks) {
        stopRequested := true;
        caller := StopSet(true);
      } else if listenerThread.Some? {
        caller := Terminated;
      } else {
        caller := Destroyed;
      }
    }

    /** The listener between receiving a message and locking: it leaves, or collects the frames. */
    method ListenerChecks(t: nat)
      requires ListenerEnabled(State(), t, Check)
      modifies this`threads, this`faults
      ensures State() == ListenerApply(old(State()), t, Check)
    {
      var th := threads[t];
      if stopRequested {
        threads := threads[t := Finish(th)];
        faults := faults.(stopSeen := true);
      } else {
        var msg := new Zmsg(th.pc.msg.frames);
        var payload := msg.PopPayload();
        threads := threads[t := th.(pc := Checked(th.pc.msg.subject, payload))];
      }
    }

    /** The position of the iteration over m_callbacks: the least id not below `from`. */
    method NextId(from: nat) returns (id: Option<nat>)
      ensures id.Some? ==> IsNext(callbacks, from, id.value)
      ensures id.None? ==> forall j :: j in callbacks ==> j < from
    {
      id := None;
      var left := callbacks.Keys;
      while left != {}
        invariant left <= callbacks.Keys
        invariant id.Some? ==> id.value in callbacks && from <= id.value
        invariant forall j :: j in callbacks && j !in left && from <= j ==> id.Some? && id.value <= j
        decreases left
      {
        var j :| j in left;
        left := left - {j};
        if from <= j && (id.None? || j < id.value) {
          id := Some(j);
        }
      }
    }

    method LockForDispatch(t: nat)
      requires ListenerEnabled(State(), t, Lock)
      modifies this
      ensures State() == ListenerApply(old(State()), t, Lock)
    {
      var payload := threads[t].pc.payload;
      mutex := HeldBy(t);
      hist := hist.(log := hist.log + [payload]);
      threads := threads[t := threads[t].(pc := Dispatching(payload, 0))];
    }

    /** One callback; `threw` says whether it throws, which is caught and ignored. */
    method InvokeCallback(t: nat, id: nat, threw: bool)
      requires ListenerEnabled(State(), t, Invoke(id, threw))
      modifies this
      ensures State() == ListenerApply(old(State()), t, Invoke(id, threw))
    {
      var payload := threads[t].pc.payload;
      hist := hist.(calls := hist.calls + [Call(|hist.log| - 1, id, callbacks[id], payload, threw)]);
      threads := threads[t := threads[t].(pc := Dispatching(payload, id + 1))];
    }

    method UnlockAfterDispatch(t: nat)
      requires ListenerEnabled(State(), t, Unlock)
      modifies this
      ensures State() == ListenerApply(old(State()), t, Unlock)
    {
      threads := threads[t := threads[t].(pc := Polling)];
      mutex := Free;
    }

    /** One pass of that loop. */
    method ServeNext(t: nat, id: nat, threw: bool, ghost s0: State, ghost run0: seq<Step>,
                     ghost payload: Payload, ghost from: nat, ghost served0: seq<Call>)
      returns (ghost run: seq<Step>, ghost served: seq<Call>)
      requires Legal(s0, run0) && State() == After(s0, run0) && Serving(s0, State(), t, payload, from, served0)
      requires IsNext(callbacks, from, id)
      modifies this
      ensures Legal(s0, run) && State() == After(s0, run) && Serving(s0, State(), t, payload, id + 1, served)
      ensures callbacks == old(callbacks) && From(callbacks, id + 1) < From(callbacks, from)
    {
      NextStep(s0, State(), t, payload, from, served0, id, threw);
      run := Snoc(s0, run0, ByListener(t, Invoke(id, threw)));
      InvokeCallback(t, id, threw);
      served := served0 + [Call(|s0.hist.log|, id, s0.callbacks[id], payload, threw)];
    }

    /** The loop over the callbacks; `run` has led from `s0` to where the mutex is held. */
    method DispatchLoop(t: nat, throws: nat -> bool, ghost s0: State, ghost run0: seq<Step>, ghost payload: Payload)
      returns (ghost run: seq<Step>, ghost served: seq<Call>, ghost from: nat)
      requires Legal(s0, run0) && State() == After(s0, run0) && Serving(s0, State(), t, payload, 0, [])
      modifies this
      ensures Legal(s0, run) && State() == After(s0, run)
      ensures Serving(s0, State(), t, payload, from, served) && ListenerEnabled(State(), t, Unlock)
    {
      run, served, from := run0, [], 0;
      var id := NextId(0);
      while id.Some?
        invariant Legal(s0, run) && State() == After(s0, run)
        invariant Serving(s0, State(), t, payload, from, served)
        invariant if id.Some? then IsNext(callbacks, from, id.value) else forall j :: j in callbacks ==> j < from
        decreases From(callbacks, from)
      {
        var i := id.value;
        run, served := ServeNext(t, i, throws(i), s0, run, payload, from, served);
        from := i + 1;
        id := NextId(i + 1);
      }
    }

    /** The dispatch of one message: under the mutex, every callback is called once with the payload,
        in ascending order of id; what a callback throws is dropped. The whole is a run of the
        listener's steps. */
    method Dispatch(t: nat, throws: nat -> bool) returns (ghost run: seq<Step>)
      requires ListenerEnabled(State(), t, Lock)
      modifies this
      ensures Legal(old(State()), run) && State() == After(old(State()), run)
      ensures mutex == Free && callbacks == old(callbacks) && hist.subs == old(hist.subs)
      ensures hist.log == old(hist.log) + [old(threads[t].pc.payload)]
      ensures old(hist.calls) <= hist.calls
      ensures ServedOnce(hist.calls[|old(hist.calls)|..], callbacks, |old(hist.log)|, old(threads[t].pc.payload))
    {
      ghost var s0, payload, served, from := State(), threads[t].pc.payload, [], 0;
      run := Snoc(s0, [], ByListener(t, Lock));
      LockForDispatch(t);
      run, served, from := DispatchLoop(t, throws, s0, run, payload);
      run := Snoc(s0, run, ByListener(t, Unlock));
      UnlockAfterDispatch(t);
      assert hist.calls[|s0.hist.calls|..] == served;
    }
  }

  /** In the middle of a dispatch that started in `s0`: the calls made so far are `served`. */
  predicate Serving(s0: StreamClient.State, s: StreamClient.State, t: nat, payload: Payload, from: nat,
                    served: seq<Call>) {
    && t < |s.threads| && s.threads[t].pc == Dispatching(payload, from) && s.mutex == HeldBy(t)
    && s.callbacks == s0.callbacks && s.hist.subs == s0.hist.subs && s.hist.log == s0.hist.log + [payload]
    && s.hist.calls == s0.hist.calls + served
    && ServedBelow(served, s0.callbacks, |s0.hist.log|, payload, from)
  }

  lemma NextStep(s0: StreamClient.State, s: StreamClient.State, t: nat, payload: Payload, from: nat,
                 served: seq<Call>, id: nat, threw: bool)
    requires Serving(s0, s, t, payload, from, served) && IsNext(s.callbacks, from, id)
    ensures ListenerEnabled(s, t, Invoke(id, threw))
    ensures Serving(s0, ListenerApply(s, t, Invoke(id, threw)), t, payload, id + 1,
                    served + [Call(|s0.hist.log|, id, s0.callbacks[id], payload, threw)])
    ensures From(s.callbacks, id + 1) < From(s.callbacks, from)
  {
    ServedNext(served, s0.callbacks, |s0.hist.log|, payload, from, id, threw);
    assert id in From(s.callbacks, from) && id !in From(s.callbacks, id + 1);
  }

  /** `calls` serve the callbacks with an id below `from`: each of them once, in ascending order. */
  predicate ServedBelow(calls: seq<Call>, callbacks: map<nat, nat>, index: nat, payload: Payload, from: nat) {
    && (forall i :: 0 <= i < |calls| ==>
          && calls[i].index == index && calls[i].payload == payload
          && calls[i].id in callbacks && calls[i].id < from && calls[i].sub == callbacks[calls[i].id])
    && (forall i, j :: 0 <= i < j < |calls| ==> calls[i].id < calls[j].id)
    && (forall id :: id in callbacks && id < from ==> exists i :: 0 <= i < |calls| && calls[i].id == id)
  }

  predicate ServedOnce(calls: seq<Call>, callbacks: map<nat, nat>, index: nat, payload: Payload) {
    && (forall i :: 0 <= i < |calls| ==>
          && calls[i].index == index && calls[i].payload == payload
          && calls[i].id in callbacks && calls[i].sub == callbacks[calls[i].id])
    && (forall i, j :: 0 <= i < j < |calls| ==> calls[i].id < calls[j].id)
    && (forall id :: id in callbacks ==> exists i :: 0 <= i < |calls| && calls[i].id == id)
  }

  lemma ServedNext(calls: seq<Call>, callbacks: map<nat, nat>, index: nat, payload: Payload, from: nat,
                   id: nat, threw: bool)
    requires ServedBelow(calls, callbacks, index, payload, from) && IsNext(callbacks, from, id)
    ensures ServedBelow(calls + [Call(index, id, callbacks[id], payload, threw)], callbacks, index, payload, id + 1)
  {
    var calls' := calls + [Call(index, id, callbacks[id], payload, threw)];
    forall j | j in callbacks && j < id + 1
      ensures exists i :: 0 <= i < |calls'| && calls'[i].id == j
    {
      if j < from {
        var i :| 0 <= i < |calls| && calls[i].id == j;
        assert calls'[i].id == j;
      } else {
        assert calls'[|calls|].id == j;
      }
    }
  }
}
