/** Runs of the stream client that show where its guarantees end. */
module StreamWitnesses {
  import opened Messages
  import opened StreamClient
  import opened StreamInvariants
  import opened StreamProtocol
  import opened StreamSync

  /** One more step of a run, with the state it has led to. */
  lemma Do(run: seq<Step>, s: State, step: Step) returns (run': seq<Step>, s': State)
    requires Legal(Init(), run) && s == After(Init(), run) && Enabled(s, step)
    ensures Legal(Init(), run') && s' == After(Init(), run') && s' == Apply(s, step)
    ensures NoForeignSync(run) && !ForeignSync(step) ==> NoForeignSync(run')
  {
    run' := Snoc(Init(), run, step);
    s' := Apply(s, step);
  }

  /** First `subscribe` up to and including the insertion and the start of the thread. */
  lemma Spawned() returns (run: seq<Step>, s: State)
    ensures Legal(Init(), run) && s == After(Init(), run)
    ensures s == Init().(caller := SubSpawned, mutex := HeldByCaller, handle := Some(0), counter := 1,
                         threads := [Thread(Starting, false, [], false)], callbacks := map[1 := 0],
                         hist := History([Subscription(1, 0, None)], [], []))
    ensures NoForeignSync(run)
  {
    run, s := Do([], Init(), ByCaller(SubscribeCall));
    run, s := Do(run, s, ByCaller(SubscribeLock));
  }

  /** A successful first `subscribe`. */
  lemma Subscribed() returns (run: seq<Step>, s: State)
    ensures Legal(Init(), run) && s == After(Init(), run)
    ensures s == Init().(handle := Some(0), counter := 1,
                         threads := [Thread(Polling, true, [], false)], callbacks := map[1 := 0],
                         hist := History([Subscription(1, 0, None)], [], []))
    ensures NoForeignSync(run)
  {
    run, s := Spawned();
    run, s := Do(run, s, ByCaller(SubscribeWait));
    run, s := Do(run, s, ByListener(0, Connect));
    run, s := Do(run, s, ByListener(0, Announce));
    run, s := Do(run, s, ByCaller(SubscribeCheck));
    assert s.threads == [Thread(Polling, true, [], false)];
  }

  /** A message makes its way from a publisher to the listener. */
  lemma Arrives(run: seq<Step>, s: State, msg: StreamMsg) returns (run': seq<Step>, s': State)
    requires Legal(Init(), run) && s == After(Init(), run)
    requires s.bus == [] && s.threads == [Thread(Polling, true, [], false)]
    ensures Legal(Init(), run') && s' == After(Init(), run')
    ensures s' == s.(threads := [Thread(Received(msg), true, [], false)])
    ensures NoForeignSync(run) && !msg.subject.Sync? ==> NoForeignSync(run')
  {
    run', s' := Do(run, s, OnBus(Publish(msg)));
    run', s' := Do(run', s', OnBus(Route));
    run', s' := Do(run', s', ByListener(0, Receive));
    assert s'.bus == [] && s'.threads == [Thread(Received(msg), true, [], false)];
  }

  /** The lost wake-up: with nothing going wrong, the listener can be in its loop while the caller
      sits in the wait of `subscribe`, from which StreamProtocol.LostWakeUpIsForEver never lets it go. */
  lemma LostWakeUpHappens() returns (run: seq<Step>, s: State)
    ensures Legal(Init(), run) && s == After(Init(), run)
    ensures s.faults == NO_FAULTS
    ensures s.caller.SubWaiting? && s.handle == Some(0) && |s.threads| == 1 && s.threads[0].pc.Polling?
  {
    run, s := Spawned();
    run, s := Do(run, s, ByListener(0, Connect));
    run, s := Do(run, s, ByListener(0, Announce));
    run, s := Do(run, s, ByCaller(SubscribeWait));
  }

  /** After a start-up that failed, and was reported, the next `subscribe` reports nothing and leaves
      two callbacks that no thread will ever call. */
  lemma DeafAfterFailedStart() returns (run: seq<Step>, s: State)
    ensures Legal(Init(), run) && s == After(Init(), run)
    ensures s.faults == NO_FAULTS.(startFailed := true)
    ensures s.caller.Idle? && 1 in s.callbacks && 2 in s.callbacks
    ensures |s.threads| == 1 && s.threads[0].pc.Done?
  {
    run, s := Spawned();
    run, s := Do(run, s, ByCaller(SubscribeWait));
    run, s := Do(run, s, ByListener(0, Fail));
    run, s := Do(run, s, ByListener(0, ReportFail));
    assert s.exPtr;
    run, s := Do(run, s, ByCaller(SubscribeCheck));
    run, s := Do(run, s, ByCaller(SubscribeCall));
    run, s := Do(run, s, ByCaller(SubscribeLock));
  }

  /** After an `unsubscribe` whose SYNC threw, a message can still end the listener, and the next
      `subscribe` succeeds without one. */
  lemma DeafAfterSyncThrew() returns (run: seq<Step>, s: State)
    ensures Legal(Init(), run) && s == After(Init(), run)
    ensures s.faults == NO_FAULTS.(syncThrew := true, stopSeen := true)
    ensures s.caller.Idle? && 2 in s.callbacks && |s.threads| == 1 && s.threads[0].pc.Done?
  {
    run, s := StopFailed();
    run, s := Arrives(run, s, StreamMsg(Message, []));
    run, s := Do(run, s, ByListener(0, Check));
    assert s.threads == [Thread(Done, false, [], false)];
    run, s := Do(run, s, ByCaller(SubscribeCall));
    run, s := Do(run, s, ByCaller(SubscribeLock));
  }

  /** A listener that is interrupted leaves its callbacks without one, and later ones too. */
  lemma DeafAfterInterrupt() returns (run: seq<Step>, s: State)
    ensures Legal(Init(), run) && s == After(Init(), run)
    ensures s.faults == NO_FAULTS.(interrupted := true)
    ensures s.caller.Idle? && 1 in s.callbacks && 2 in s.callbacks && |s.threads| == 1 && s.threads[0].pc.Done?
  {
    run, s := Subscribed();
    run, s := Do(run, s, ByListener(0, Interrupt));
    run, s := Do(run, s, ByCaller(SubscribeCall));
    run, s := Do(run, s, ByCaller(SubscribeLock));
  }

  lemma StopFailed() returns (run: seq<Step>, s: State)
    ensures Legal(Init(), run) && s == After(Init(), run)
    ensures s.caller.Idle? && s.stop && s.counter == 1 && s.handle == Some(0) && s.mutex.Free? && s.bus == []
    ensures NoCallbacks(s.callbacks) && s.threads == [Thread(Polling, true, [], false)]
    ensures s.faults == NO_FAULTS.(syncThrew := true)
  {
    run, s := Subscribed();
    run, s := Do(run, s, ByCaller(UnsubscribeCall(1)));
    run, s := Do(run, s, ByCaller(UnsubscribeErase));
    assert NoCallbacks(s.callbacks);
    run, s := Do(run, s, ByCaller(UnsubscribeTest));
    run, s := Do(run, s, ByCaller(SyncThrow));
  }

  /** ... and destroying the client instead takes the process down: the thread is still joinable but
      the destructor, finding no callback, does not join it. */
  lemma TerminateAfterSyncThrew() returns (run: seq<Step>, s: State)
    ensures Legal(Init(), run) && s == After(Init(), run)
    ensures s.caller.Terminated?
  {
    run, s := StopFailed();
    run, s := Do(run, s, ByCaller(DestructorCall));
  }

  /** The listener never looks at the subject: the SYNC by which another client of the stream stops
      its own listener reaches the callbacks as a payload without frames. */
  lemma ForeignSyncReachesCallbacks() returns (run: seq<Step>, s: State)
    ensures Legal(Init(), run) && s == After(Init(), run)
    ensures s.faults == NO_FAULTS
    ensures s.hist.calls == [Call(0, 1, 0, [], false)] && s.callbacks == map[1 := 0]
  {
    run, s := ForeignSyncLocked();
    run, s := Do(run, s, ByListener(0, Invoke(1, false)));
  }

  lemma ForeignSyncLocked() returns (run: seq<Step>, s: State)
    ensures Legal(Init(), run) && s == After(Init(), run)
    ensures s.faults == NO_FAULTS && s.callbacks == map[1 := 0]
    ensures s.threads == [Thread(Dispatching([], 0), true, [], false)]
    ensures |s.hist.log| == 1 && s.hist.calls == []
  {
    run, s := ForeignSyncChecked();
    run, s := Do(run, s, ByListener(0, Lock));
  }

  lemma ForeignSyncChecked() returns (run: seq<Step>, s: State)
    ensures Legal(Init(), run) && s == After(Init(), run)
    ensures s.faults == NO_FAULTS && s.callbacks == map[1 := 0]
    ensures s.mutex.Free? && s.threads == [Thread(Checked(Sync, []), true, [], false)]
    ensures s.hist.log == [] && s.hist.calls == []
  {
    run, s := Subscribed();
    run, s := Arrives(run, s, StreamMsg(Sync, []));
    run, s := Do(run, s, ByListener(0, Check));
  }

  /** So can the client's own SYNC, when nothing has gone wrong and nobody else publishes any: a message
      of another publisher ends the listener before the SYNC is routed, and the next `subscribe` starts
      a listener that is a consumer when it is. */
  lemma OwnSyncReachesCallbacks() returns (run: seq<Step>, s: State)
    ensures Legal(Init(), run) && s == After(Init(), run)
    ensures s.faults == NO_FAULTS && NoForeignSync(run)
    ensures s.hist.calls == [Call(0, 2, 1, [], false)] && s.callbacks == map[2 := 1]
  {
    run, s := OwnSyncLocked();
    run, s := Do(run, s, ByListener(1, Invoke(2, false)));
  }

  lemma OwnSyncLocked() returns (run: seq<Step>, s: State)
    ensures Legal(Init(), run) && s == After(Init(), run)
    ensures s.faults == NO_FAULTS && NoForeignSync(run) && s.callbacks == map[2 := 1]
    ensures |s.threads| == 2 && s.threads[1] == Thread(Dispatching([], 0), true, [], false)
    ensures |s.hist.log| == 1 && s.hist.calls == []
  {
    run, s := OwnSyncChecked();
    run, s := Do(run, s, ByListener(1, Lock));
  }

  lemma OwnSyncChecked() returns (run: seq<Step>, s: State)
    ensures Legal(Init(), run) && s == After(Init(), run)
    ensures s.faults == NO_FAULTS && NoForeignSync(run) && s.mutex.Free? && s.callbacks == map[2 := 1]
    ensures |s.threads| == 2 && s.threads[1] == Thread(Checked(Sync, []), true, [], false)
    ensures s.hist.log == [] && s.hist.calls == []
  {
    run, s := OwnSyncLeft();
    run, s := Do(run, s, ByListener(1, Connect));
    run, s := Do(run, s, ByListener(1, Announce));
    run, s := Do(run, s, OnBus(Route));
    run, s := Do(run, s, ByListener(1, Receive));
    run, s := Do(run, s, ByListener(1, Check));
  }

  /** The second `subscribe` waits for its listener, and the SYNC for the first is still with the broker. */
  lemma OwnSyncLeft() returns (run: seq<Step>, s: State)
    ensures Legal(Init(), run) && s == After(Init(), run)
    ensures s.faults == NO_FAULTS && NoForeignSync(run) && !s.stop && s.caller.SubWaiting? && s.mutex.Free?
    ensures s.callbacks == map[2 := 1] && s.handle == Some(1) && s.bus == [StreamMsg(Sync, [])]
    ensures |s.threads| == 2 && s.threads[0].pc.Done? && s.threads[1] == Thread(Starting, false, [], false)
    ensures s.hist.log == [] && s.hist.calls == []
  {
    run, s := OwnSyncPublished();
    run, s := Do(run, s, ByCaller(Join));
    run, s := Do(run, s, ByCaller(SubscribeCall));
    run, s := Do(run, s, ByCaller(SubscribeLock));
    run, s := Do(run, s, ByCaller(SubscribeWait));
  }

  lemma OwnSyncPublished() returns (run: seq<Step>, s: State)
    ensures Legal(Init(), run) && s == After(Init(), run)
    ensures s.faults.stopSeen && NoForeignSync(run) && s.caller == Joining(false) && s.mutex.Free?
    ensures s.callbacks == map[] && s.handle == Some(0) && s.counter == 1 && s.bus == [StreamMsg(Sync, [])]
    ensures s.threads == [Thread(Done, false, [], false)]
    ensures s.hist == History([Subscription(1, 0, Some(0))], [], [])
  {
    run, s := Subscribed();
    run, s := Arrives(run, s, StreamMsg(Message, []));
    run, s := Do(run, s, ByCaller(UnsubscribeCall(1)));
    run, s := Do(run, s, ByCaller(UnsubscribeErase));
    assert NoCallbacks(s.callbacks);
    run, s := Do(run, s, ByCaller(UnsubscribeTest));
    run, s := Do(run, s, ByListener(0, Check));
    run, s := Do(run, s, ByCaller(SyncPublish));
  }

  /** A spurious wake-up can let `subscribe` return before the listener is a consumer. An
      `unsubscribe` at once then loses its SYNC, and the join waits for a message that nobody in the
      process will send: only another publisher or an interrupt can end it. */
  lemma StuckJoinAfterSpuriousWake() returns (run: seq<Step>, s: State)
    ensures Legal(Init(), run) && s == After(Init(), run)
    ensures s.faults == NO_FAULTS.(spurious := true) && s.caller.Joining?
    ensures OnlyOthers(s)
  {
    run, s := JoiningTooEarly();
    run, s := Do(run, s, OnBus(Route));
    run, s := Do(run, s, ByListener(0, Connect));
    run, s := Do(run, s, ByListener(0, Announce));
    OnlyOthersCanMove(s);
  }

  lemma OnlyOthersCanMove(s: State)
    requires s.caller.Joining? && s.handle == Some(0) && s.bus == []
    requires s.threads == [Thread(Polling, true, [], false)]
    ensures OnlyOthers(s)
  {
  }

  lemma JoiningTooEarly() returns (run: seq<Step>, s: State)
    ensures Legal(Init(), run) && s == After(Init(), run)
    ensures s.faults == NO_FAULTS.(spurious := true) && s.caller == Joining(false)
    ensures s.handle == Some(0) && s.mutex.Free? && s.bus == [StreamMsg(Sync, [])]
    ensures s.threads == [Thread(Starting, false, [], false)]
  {
    run, s := Spawned();
    run, s := Do(run, s, ByCaller(SubscribeWait));
    run, s := Do(run, s, ByCaller(SpuriousWake));
    run, s := Do(run, s, ByCaller(SubscribeCheck));
    run, s := Do(run, s, ByCaller(UnsubscribeCall(1)));
    run, s := Do(run, s, ByCaller(UnsubscribeErase));
    assert NoCallbacks(s.callbacks);
    run, s := Do(run, s, ByCaller(UnsubscribeTest));
    run, s := Do(run, s, ByCaller(SyncPublish));
  }
}
