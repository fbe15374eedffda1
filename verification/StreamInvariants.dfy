/** What every step of the stream client keeps. */
module StreamInvariants {
  import opened Messages
  import opened StreamClient

  /** Only the newest thread can still be running, and m_listenerThread owns it whenever one runs. */
  predicate ThreadsInv(s: State) {
    && (forall i :: 0 <= i < |s.threads| && i != |s.threads| - 1 ==> s.threads[i].pc.Done?)
    && (s.handle.Some? ==> s.handle.value == |s.threads| - 1)
    && (s.handle.None? ==> forall i :: 0 <= i < |s.threads| ==> s.threads[i].pc.Done?)
    && (forall i :: 0 <= i < |s.threads| ==> ThreadInv(s.threads[i]))
  }

  predicate ThreadInv(th: Thread) {
    && (th.consumer <==> !th.pc.Starting? && !th.pc.Failing? && !th.pc.Done?)
    && (!th.consumer ==> th.inbox == [])
    && (th.failed ==> th.pc.Failing? || th.pc.Done?)
    && (th.pc.Failing? ==> th.failed)
  }

  /** The mutex is held by exactly the party whose position says so. */
  predicate MutexInv(s: State) {
    && (s.mutex.HeldByCaller? <==> s.caller.SubSpawned?)
    && (forall i :: 0 <= i < |s.threads| && s.threads[i].pc.Dispatching? ==> s.mutex == HeldBy(i))
    && (s.mutex.HeldBy? ==>
          s.mutex.thread < |s.threads| && s.threads[s.mutex.thread].pc.Dispatching? && s.hist.log != [])
  }

  predicate InSubscribe(c: Caller) {
    c.SubSpawned? || c.SubWaiting? || c.SubWoken?
  }

  predicate Stopping(c: Caller) {
    c.StopSet? || c.Joining?
  }

  predicate CallerInv(s: State) {
    && (!NoCallbacks(s.callbacks) ==> s.handle.Some? || s.caller.Destroyed?)
    && (InSubscribe(s.caller) || Stopping(s.caller) || s.caller.UnsubErased? ==> s.handle.Some?)
    && (InSubscribe(s.caller) ==> !NoCallbacks(s.callbacks))
    && (s.caller.UnsubErasing? ==> s.caller.id in s.callbacks)
    && (Stopping(s.caller) ==> s.stop && (s.caller.dtor <==> !NoCallbacks(s.callbacks)))
    && (s.stop ==> s.caller.Idle? || Stopping(s.caller) || s.caller.Destroyed? || s.caller.Terminated?)
    && (s.caller.Idle? ==> (s.stop <==> NoCallbacks(s.callbacks) && s.threads != []))
    && (s.handle.Some? && NoCallbacks(s.callbacks) ==>
          s.caller.UnsubErased? || Stopping(s.caller) || s.faults.syncThrew)
    && (s.caller.Terminated? ==> s.faults.syncThrew)
    && (s.caller.Destroyed? ==> s.handle.None?)
  }

  /** The thread m_listenerThread owns. */
  function Current(s: State): Thread
    requires s.handle.Some? && s.handle.value < |s.threads|
  {
    s.threads[s.handle.value]
  }

  predicate PreNotify(pc: ListenerPc) {
    pc.Starting? || pc.Announcing? || pc.Failing?
  }

  /** The joinable thread is dead, or about to die, for one of three reasons; what has happened to it
      is known as long as it is joinable and no longer. */
  predicate LiveInv(s: State)
    requires ThreadsInv(s)
  {
    && (s.handle.Some? ==> (Current(s).failed <==> s.faults.startFailed))
    && (s.handle.Some? && Current(s).pc.Done? ==>
          s.faults.startFailed || s.faults.interrupted || s.faults.stopSeen)
    && (s.handle.Some? && (s.faults.interrupted || s.faults.stopSeen) ==> Current(s).pc.Done?)
    && (s.faults.stopSeen ==> s.faults.syncThrew || Stopping(s.caller))
    && (s.handle.None? ==> s.faults == NO_FAULTS)
  }

  /** Unless the condition variable woke by itself, `subscribe` goes on only after the notification. */
  predicate StartInv(s: State)
    requires ThreadsInv(s)
  {
    && (!s.faults.spurious && s.handle.Some? && PreNotify(Current(s).pc) ==>
          s.caller.SubSpawned? || s.caller.SubWaiting?)
    && (s.handle.Some? && !Current(s).pc.Starting? ==> s.exPtr == Current(s).failed)
    && (s.handle.Some? && Current(s).pc.Starting? ==> !s.exPtr)
  }

  predicate ProtocolInv(s: State) {
    ThreadsInv(s) && MutexInv(s) && CallerInv(s) && LiveInv(s) && StartInv(s)
  }

  lemma CallerKeepsThreads(s: State, c: CallerStep)
    requires ThreadsInv(s) && CallerInv(s) && CallerEnabled(s, c)
    ensures ThreadsInv(CallerApply(s, c))
  {
  }

  lemma CallerKeepsMutex(s: State, c: CallerStep)
    requires ThreadsInv(s) && MutexInv(s) && CallerEnabled(s, c)
    ensures MutexInv(CallerApply(s, c))
  {
  }

  lemma CallerKeepsCaller(s: State, c: CallerStep)
    requires ThreadsInv(s) && CallerInv(s) && CallerEnabled(s, c)
    ensures CallerInv(CallerApply(s, c))
  {
    if c.SubscribeLock? {
      assert s.counter in CallerApply(s, c).callbacks;
    }
  }

  lemma CallerKeepsLive(s: State, c: CallerStep)
    requires ThreadsInv(s) && CallerInv(s) && LiveInv(s) && CallerEnabled(s, c)
    requires ThreadsInv(CallerApply(s, c))
    ensures LiveInv(CallerApply(s, c))
  {
  }

  lemma CallerKeepsStart(s: State, c: CallerStep)
    requires ThreadsInv(s) && CallerInv(s) && StartInv(s) && CallerEnabled(s, c)
    requires ThreadsInv(CallerApply(s, c))
    ensures StartInv(CallerApply(s, c))
  {
  }

  lemma BusKeepsThreads(s: State, b: BusStep)
    requires ThreadsInv(s) && CallerInv(s) && BusEnabled(s, b)
    ensures ThreadsInv(BusApply(s, b))
  {
  }

  lemma BusKeepsMutex(s: State, b: BusStep)
    requires ThreadsInv(s) && MutexInv(s) && BusEnabled(s, b)
    ensures MutexInv(BusApply(s, b))
  {
  }

  lemma BusKeepsCaller(s: State, b: BusStep)
    requires ThreadsInv(s) && CallerInv(s) && BusEnabled(s, b)
    ensures CallerInv(BusApply(s, b))
  {
  }

  lemma BusKeepsLive(s: State, b: BusStep)
    requires ThreadsInv(s) && CallerInv(s) && LiveInv(s) && BusEnabled(s, b)
    requires ThreadsInv(BusApply(s, b))
    ensures LiveInv(BusApply(s, b))
  {
  }

  lemma BusKeepsStart(s: State, b: BusStep)
    requires ThreadsInv(s) && CallerInv(s) && StartInv(s) && BusEnabled(s, b)
    requires ThreadsInv(BusApply(s, b))
    ensures StartInv(BusApply(s, b))
  {
  }

  lemma ListenerKeepsThreads(s: State, t: nat, l: ListenerStep)
    requires ThreadsInv(s) && CallerInv(s) && ListenerEnabled(s, t, l)
    ensures ThreadsInv(ListenerApply(s, t, l))
  {
  }

  lemma ListenerKeepsMutex(s: State, t: nat, l: ListenerStep)
    requires ThreadsInv(s) && MutexInv(s) && ListenerEnabled(s, t, l)
    ensures MutexInv(ListenerApply(s, t, l))
  {
  }

  lemma ListenerKeepsCaller(s: State, t: nat, l: ListenerStep)
    requires ThreadsInv(s) && CallerInv(s) && ListenerEnabled(s, t, l)
    ensures CallerInv(ListenerApply(s, t, l))
  {
  }

  lemma ListenerKeepsLive(s: State, t: nat, l: ListenerStep)
    requires ThreadsInv(s) && CallerInv(s) && LiveInv(s) && ListenerEnabled(s, t, l)
    requires ThreadsInv(ListenerApply(s, t, l))
    ensures LiveInv(ListenerApply(s, t, l))
  {
  }

  lemma ListenerKeepsStart(s: State, t: nat, l: ListenerStep)
    requires ThreadsInv(s) && CallerInv(s) && StartInv(s) && ListenerEnabled(s, t, l)
    requires ThreadsInv(ListenerApply(s, t, l))
    ensures StartInv(ListenerApply(s, t, l))
  {
  }

  lemma StepKeepsProtocol(s: State, step: Step)
    requires ProtocolInv(s) && Enabled(s, step)
    ensures ProtocolInv(Apply(s, step))
  {
    match step
    case ByCaller(c) =>
      CallerKeepsThreads(s, c);
      CallerKeepsMutex(s, c);
      CallerKeepsCaller(s, c);
      CallerKeepsLive(s, c);
      CallerKeepsStart(s, c);
    case OnBus(b) =>
      BusKeepsThreads(s, b);
      BusKeepsMutex(s, b);
      BusKeepsCaller(s, b);
      BusKeepsLive(s, b);
      BusKeepsStart(s, b);
    case ByListener(t, l) =>
      ListenerKeepsThreads(s, t, l);
      ListenerKeepsMutex(s, t, l);
      ListenerKeepsCaller(s, t, l);
      ListenerKeepsLive(s, t, l);
      ListenerKeepsStart(s, t, l);
  }

  lemma {:induction false} RunKeepsProtocol(s: State, run: seq<Step>)
    requires ProtocolInv(s) && Legal(s, run)
    ensures ProtocolInv(After(s, run))
    decreases run
  {
    if run != [] {
      StepKeepsProtocol(s, run[0]);
      RunKeepsProtocol(Apply(s, run[0]), run[1..]);
    }
  }
}
