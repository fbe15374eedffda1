/** Whole calls of `subscribe` and `unsubscribe`, whatever the listener and the broker do meanwhile: which
    callback a call is about. */
module StreamCalls {
  import opened Messages
  import opened StreamClient
  import opened StreamInvariants
  import opened StreamDelivery
  import opened StreamTheorems

  /** The caller is between two of its own steps. */
  predicate NoCallerStep(run: seq<Step>) {
    forall i :: 0 <= i < |run| ==> !run[i].ByCaller?
  }

  /** What only the caller changes. */
  predicate SameForCaller(s: State, s': State) {
    && s'.callbacks == s.callbacks && s'.hist.subs == s.hist.subs && s'.counter == s.counter
    && s'.handle == s.handle && s'.stop == s.stop && |s'.threads| == |s.threads|
    && (s'.caller == s.caller || (s.caller.SubWaiting? && s'.caller.SubWoken?))
  }

  lemma OtherStep(s: State, step: Step)
    requires Enabled(s, step) && !step.ByCaller?
    ensures SameForCaller(s, Apply(s, step))
  {
  }

  lemma {:induction false} OtherSteps(s: State, run: seq<Step>)
    requires Legal(s, run) && NoCallerStep(run)
    ensures SameForCaller(s, After(s, run))
    decreases run
  {
    if run != [] {
      OtherStep(s, run[0]);
      OtherSteps(Apply(s, run[0]), run[1..]);
    }
  }

  /** `unsubscribe(id)` of a registered id: it comes to erase exactly that callback, closing exactly its
      subscription; all the others stay registered and open. */
  lemma UnsubscribeErases(before: seq<Step>, id: nat, meanwhile: seq<Step>)
    requires Legal(Init(), before) && After(Init(), before).caller.Idle?
    requires id in After(Init(), before).callbacks
    requires Legal(CallerApply(After(Init(), before), UnsubscribeCall(id)), meanwhile) && NoCallerStep(meanwhile)
    requires After(CallerApply(After(Init(), before), UnsubscribeCall(id)), meanwhile).mutex.Free?
    ensures var s := After(Init(), before);
      var s2 := After(CallerApply(s, UnsubscribeCall(id)), meanwhile);
      CallerEnabled(s2, UnsubscribeErase) && Erased(s, CallerApply(s2, UnsubscribeErase), id)
  {
    var s := Recorded(before);
    var s1 := CallerApply(s, UnsubscribeCall(id));
    OtherSteps(s1, meanwhile);
    var s2 := After(s1, meanwhile);
    assert s2.caller == UnsubErasing(id);
  }

  /** From `s` to `s'` the callback under `id` has gone, and nothing else of what is registered. */
  predicate Erased(s: State, s': State, id: nat)
    requires id in s.callbacks
  {
    var n := s.callbacks[id];
    && s'.callbacks.Keys == s.callbacks.Keys - {id}
    && (forall j :: j in s'.callbacks ==> s'.callbacks[j] == s.callbacks[j])
    && |s'.hist.subs| == |s.hist.subs| && n < |s.hist.subs|
    && s.hist.subs[n].id == id && s.hist.subs[n].end.None?
    && s'.hist.subs[n] == Subscription(id, s.hist.subs[n].first, Some(|s'.hist.log|))
    && (forall m :: 0 <= m < |s.hist.subs| && m != n ==> s'.hist.subs[m] == s.hist.subs[m])
    && (forall j :: j in s'.callbacks ==>
          && s'.callbacks[j] < |s'.hist.subs|
          && s'.hist.subs[s'.callbacks[j]].id == j && s'.hist.subs[s'.callbacks[j]].end.None?)
  }

  /** `unsubscribe(id)` of any other id does nothing. */
  lemma UnsubscribeUnknown(before: seq<Step>, id: nat, meanwhile: seq<Step>)
    requires Legal(Init(), before) && After(Init(), before).caller.Idle?
    requires id !in After(Init(), before).callbacks
    requires Legal(CallerApply(After(Init(), before), UnsubscribeCall(id)), meanwhile) && NoCallerStep(meanwhile)
    ensures var s := After(Init(), before);
      var s2 := After(CallerApply(s, UnsubscribeCall(id)), meanwhile);
      s2.caller.Idle? && s2.callbacks == s.callbacks && s2.hist.subs == s.hist.subs && s2.stop == s.stop
  {
    OtherSteps(CallerApply(After(Init(), before), UnsubscribeCall(id)), meanwhile);
  }

  /** `subscribe` registers its callback under the next number modulo 2^32, for what is dispatched from
      then on; what is registered under other ids stays, and a thread is started exactly if there is none
      to join. */
  lemma SubscribeRegisters(before: seq<Step>, meanwhile: seq<Step>)
    requires Legal(Init(), before) && After(Init(), before).caller.Idle?
    requires Legal(CallerApply(After(Init(), before), SubscribeCall), meanwhile) && NoCallerStep(meanwhile)
    requires After(CallerApply(After(Init(), before), SubscribeCall), meanwhile).mutex.Free?
    ensures var s := After(Init(), before);
      var s2 := After(CallerApply(s, SubscribeCall), meanwhile);
      CallerEnabled(s2, SubscribeLock) && !s2.stop && Registered(s, CallerApply(s2, SubscribeLock))
  {
    var s := Recorded(before);
    var s1 := CallerApply(s, SubscribeCall);
    CallerKeepsHistory(s, SubscribeCall);
    OtherSteps(s1, meanwhile);
    LockRegisters(s, After(s1, meanwhile));
  }

  lemma LockRegisters(s: State, s2: State)
    requires Registry(s.hist.subs, s.callbacks) && s2.counter == (|s.hist.subs| + 1) % UINT32_VALUES
    requires s2.callbacks == s.callbacks && s2.hist.subs == s.hist.subs
    requires s2.handle == s.handle && |s2.threads| == |s.threads|
    requires CallerEnabled(s2, SubscribeLock)
    ensures Registered(s, CallerApply(s2, SubscribeLock))
  {
  }

  predicate Registered(s: State, s': State) {
    var n := |s.hist.subs|;
    var id := (n + 1) % UINT32_VALUES;
    && s'.counter == id
    && s'.callbacks.Keys == s.callbacks.Keys + {id}
    && (forall j :: j in s'.callbacks ==> s'.callbacks[j] == if j == id then n else s.callbacks[j])
    && |s'.hist.subs| == n + 1 && s'.hist.subs[n] == Subscription(id, |s'.hist.log|, None)
    && (forall m :: 0 <= m < n && s.hist.subs[m].id != id ==> s'.hist.subs[m] == s.hist.subs[m])
    && (if s.handle.Some? then s'.handle == s.handle && |s'.threads| == |s.threads| && s'.caller.Idle?
        else s'.handle == Some(|s.threads|) && |s'.threads| == |s.threads| + 1 && s'.caller.SubSpawned?)
  }

  /** The id a `subscribe` under way or just done gives out, the current counter, is that of the newest
      subscription, and its callback is registered under it. */
  predicate GivesItsId(s: State) {
    && s.hist.subs != []
    && s.counter in s.callbacks && s.callbacks[s.counter] == |s.hist.subs| - 1
    && s.hist.subs[|s.hist.subs| - 1].id == s.counter && s.hist.subs[|s.hist.subs| - 1].end.None?
  }

  lemma StepGivesItsId(s: State, step: Step)
    requires InSubscribe(s.caller) && GivesItsId(s) && Enabled(s, step)
    ensures var s' := Apply(s, step); InSubscribe(s'.caller) || step == ByCaller(SubscribeCheck)
    ensures GivesItsId(Apply(s, step))
  {
    if !step.ByCaller? { OtherStep(s, step); }
  }

  lemma LockGivesItsId(s: State)
    requires HistoryInv(s) && CallerEnabled(s, SubscribeLock)
    ensures GivesItsId(CallerApply(s, SubscribeLock))
  {
  }

  lemma StepEntersSubscribe(s: State, step: Step)
    requires Enabled(s, step) && !InSubscribe(s.caller) && InSubscribe(Apply(s, step).caller)
    ensures step == ByCaller(SubscribeLock)
  {
    if !step.ByCaller? { OtherStep(s, step); }
  }

  lemma {:induction false} RunGivesItsId(s: State, run: seq<Step>)
    requires ProtocolInv(s) && HistoryInv(s) && Legal(s, run)
    requires InSubscribe(s.caller) ==> GivesItsId(s)
    ensures InSubscribe(After(s, run).caller) ==> GivesItsId(After(s, run))
    decreases run
  {
    if run != [] {
      var s1 := Apply(s, run[0]);
      StepKeepsProtocol(s, run[0]);
      StepKeepsHistory(s, run[0]);
      if InSubscribe(s.caller) {
        StepGivesItsId(s, run[0]);
      } else if InSubscribe(s1.caller) {
        StepEntersSubscribe(s, run[0]);
        LockGivesItsId(s);
      }
      RunGivesItsId(s1, run[1..]);
    }
  }

  /** Where `subscribe` returns m_counter, at once when there is a listener and after its wait otherwise,
      that is the id of the subscription it has made. */
  lemma SubscribeReturnsItsId(before: seq<Step>)
    requires Legal(Init(), before)
    ensures var s := After(Init(), before);
      && (CallerEnabled(s, SubscribeLock) ==> GivesItsId(CallerApply(s, SubscribeLock)))
      && (CallerEnabled(s, SubscribeCheck) ==> GivesItsId(CallerApply(s, SubscribeCheck)))
  {
    var s := Recorded(before);
    RunGivesItsId(Init(), before);
    if CallerEnabled(s, SubscribeLock) {
      LockGivesItsId(s);
    } else if CallerEnabled(s, SubscribeCheck) {
      StepGivesItsId(s, ByCaller(SubscribeCheck));
    }
  }
}
