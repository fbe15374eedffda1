/** The stream client as a concurrent system: one API caller, the listener threads it has
    started, the mutex and the condition variable between them, and the stream of the broker.
    A step is what one party does between two points where the other can interleave. */
module StreamClient {
  import opened Messages

  const UINT32_VALUES: nat := 0x1_0000_0000

  datatype Subject = Sync | Message

  datatype StreamMsg = StreamMsg(subject: Subject, frames: seq<string>)

  /** Where the API caller stands inside `subscribe`, `unsubscribe` or the destructor. */
  datatype Caller =
    | Idle
    | SubEntered               // stop flag cleared, counter advanced, about to lock
    | SubSpawned               // thread started, mutex still held, about to wait
    | SubWaiting               // in the condition variable, mutex released
    | SubWoken                 // woken, about to lock again and look at m_exPtr
    | UnsubErasing(id: nat)    // the id was found, about to lock and erase it
    | UnsubErased              // erased, about to test whether any callback is left
    | StopSet(dtor: bool)      // stop flag set, about to publish SYNC
    | Joining(dtor: bool)
    | Destroyed
    | Terminated               // std::terminate

  /** Where a listener thread stands. */
  datatype ListenerPc =
    | Starting
    | Announcing                                   // consumer of the stream, about to notify
    | Failing                                      // m_exPtr stored, about to notify
    | Polling
    | Received(msg: StreamMsg)                     // popped, stop flag not yet looked at
    | Checked(subject: Subject, payload: Payload)  // stop flag was clear, about to lock; the code
                                                   // does not look at the subject
    | Dispatching(payload: Payload, from: nat)     // holds the mutex; ids below `from` are done
    | Done

  datatype Thread = Thread(pc: ListenerPc, consumer: bool, inbox: seq<StreamMsg>, failed: bool)

  datatype Mutex = Free | HeldByCaller | HeldBy(thread: nat)

  /** One `subscribe` call: the id it gave out and the part of the dispatch log it is owed. */
  datatype Subscription = Subscription(id: nat, first: nat, end: Option<nat>)

  /** One invocation of a callback, for entry `index` of the dispatch log. */
  datatype Call = Call(index: nat, id: nat, sub: nat, payload: Payload, threw: bool)

  /** What has happened so far, as far as deliveries go. */
  datatype History = History(
    subs: seq<Subscription>,
    log: seq<Payload>,            // payloads for which a listener took the mutex
    calls: seq<Call>)

  /** What has happened to the thread m_listenerThread owns; forgotten when that thread is joined. */
  datatype Faults = Faults(
    spurious: bool,               // the wait for its start-up ended without a notification
    startFailed: bool,            // it could not connect or become a consumer
    interrupted: bool,            // it left its loop on zsys_interrupted
    syncThrew: bool,              // publishing the SYNC that was to stop it threw
    stopSeen: bool)               // it left its loop because a message came while the stop flag was set

  const NO_FAULTS := Faults(false, false, false, false, false)

  datatype State = State(
    caller: Caller,
    mutex: Mutex,
    handle: Option<nat>,          // the thread m_listenerThread owns, when joinable
    threads: seq<Thread>,         // every thread ever started
    callbacks: map<nat, nat>,     // m_callbacks: id to the subscription whose callback it holds
    counter: nat,                 // m_counter, 32 bits
    stop: bool,                   // m_stopRequested
    exPtr: bool,                  // m_exPtr is set
    bus: seq<StreamMsg>,          // published, not yet routed by the broker
    hist: History,
    faults: Faults)

  function Init(): State {
    State(Idle, Free, None, [], map[], 0, false, false, [], History([], [], []), NO_FAULTS)
  }

  datatype CallerStep =
    | SubscribeCall
    | SubscribeLock
    | SubscribeWait
    | SpuriousWake
    | SubscribeCheck
    | UnsubscribeCall(id: nat)
    | UnsubscribeErase
    | UnsubscribeTest
    | DestructorCall
    | SyncPublish
    | SyncThrow
    | Join

  datatype BusStep = Publish(msg: StreamMsg) | Route

  datatype ListenerStep =
    | Connect
    | Fail
    | Announce
    | ReportFail
    | Receive
    | Check
    | Lock
    | Invoke(id: nat, threw: bool)
    | Unlock
    | Interrupt

  datatype Step = ByCaller(c: CallerStep) | OnBus(b: BusStep) | ByListener(t: nat, l: ListenerStep)

  predicate NoCallbacks(callbacks: map<nat, nat>) {
    !exists id :: id in callbacks
  }

  /** `id` is where the iteration over m_callbacks goes after everything below `from` is done. */
  predicate IsNext(callbacks: map<nat, nat>, from: nat, id: nat) {
    id in callbacks && from <= id && forall j :: j in callbacks && from <= j ==> id <= j
  }

  predicate CallerEnabled(s: State, c: CallerStep) {
    match c
    case SubscribeCall => s.caller.Idle?
    case SubscribeLock => s.caller.SubEntered? && s.mutex.Free?
    case SubscribeWait => s.caller.SubSpawned?
    case SpuriousWake => s.caller.SubWaiting?
    case SubscribeCheck => s.caller.SubWoken? && s.mutex.Free?
    case UnsubscribeCall(_) => s.caller.Idle?
    case UnsubscribeErase => s.caller.UnsubErasing? && s.mutex.Free?
    case UnsubscribeTest => s.caller.UnsubErased?
    case DestructorCall => s.caller.Idle?
    case SyncPublish => s.caller.StopSet?
    case SyncThrow => s.caller.StopSet?
    case Join =>
      s.caller.Joining? && s.handle.Some? && s.handle.value < |s.threads| &&
      s.threads[s.handle.value].pc.Done?
  }

  predicate BusEnabled(s: State, b: BusStep) {
    b.Route? ==> s.bus != []
  }

  predicate ListenerEnabled(s: State, t: nat, l: ListenerStep) {
    t < |s.threads| &&
    var th := s.threads[t];
    match l
    case Connect => th.pc.Starting?
    case Fail => th.pc.Starting?
    case Announce => th.pc.Announcing?
    case ReportFail => th.pc.Failing?
    case Receive => th.pc.Polling? && th.inbox != []
    case Check => th.pc.Received?
    case Lock => th.pc.Checked? && s.mutex.Free?
    case Invoke(id, _) => th.pc.Dispatching? && |s.hist.log| > 0 && IsNext(s.callbacks, th.pc.from, id)
    case Unlock => th.pc.Dispatching? && forall id :: id in s.callbacks ==> id < th.pc.from
    case Interrupt => th.pc.Polling?
  }

  predicate Enabled(s: State, step: Step) {
    match step
    case ByCaller(c) => CallerEnabled(s, c)
    case OnBus(b) => BusEnabled(s, b)
    case ByListener(t, l) => ListenerEnabled(s, t, l)
  }

  function Close(subs: seq<Subscription>, n: nat, at: nat): (r: seq<Subscription>)
    ensures |r| == |subs|
  {
    if n < |subs| then subs[n := subs[n].(end := Some(at))] else subs
  }

  /** The subscriptions after the callback under `id`, if there is one, is dropped. */
  function CloseId(s: State, id: nat): (r: seq<Subscription>)
    ensures |r| == |s.hist.subs|
  {
    if id in s.callbacks then Close(s.hist.subs, s.callbacks[id], |s.hist.log|) else s.hist.subs
  }

  /** Assigning the new callback; one it overwrites, after the counter has wrapped, is dropped. */
  function Insert(s: State): State {
    s.(callbacks := s.callbacks[s.counter := |s.hist.subs|],
       hist := s.hist.(subs := CloseId(s, s.counter) + [Subscription(s.counter, |s.hist.log|, None)]))
  }

  function CallerApply(s: State, c: CallerStep): State
    requires CallerEnabled(s, c)
  {
    match c
    case SubscribeCall =>
      s.(caller := SubEntered, stop := false, counter := (s.counter + 1) % UINT32_VALUES)
    case SubscribeLock =>
      if s.handle.None? then
        Insert(s).(caller := SubSpawned, mutex := HeldByCaller, exPtr := false,
                   handle := Some(|s.threads|),
                   threads := s.threads + [Thread(Starting, false, [], false)])
      else Insert(s).(caller := Idle)
    case SubscribeWait => s.(caller := SubWaiting, mutex := Free)
    case SpuriousWake => s.(caller := SubWoken, faults := s.faults.(spurious := true))
    case SubscribeCheck => s.(caller := Idle)      // returns the id, or rethrows when exPtr is set
    case UnsubscribeCall(id) => if id in s.callbacks then s.(caller := UnsubErasing(id)) else s
    case UnsubscribeErase =>
      s.(caller := UnsubErased, callbacks := s.callbacks - {s.caller.id},
         hist := s.hist.(subs := CloseId(s, s.caller.id)))
    case UnsubscribeTest =>
      if NoCallbacks(s.callbacks) then s.(caller := StopSet(false), stop := true) else s.(caller := Idle)
    case DestructorCall =>
      if !NoCallbacks(s.callbacks) then s.(caller := StopSet(true), stop := true)
      else if s.handle.Some? then s.(caller := Terminated)       // destroying a joinable std::thread
      else s.(caller := Destroyed)
    case SyncPublish => s.(caller := Joining(s.caller.dtor), bus := s.bus + [StreamMsg(Sync, [])])
    case SyncThrow =>
      s.(caller := if s.caller.dtor then Terminated else Idle, faults := s.faults.(syncThrew := true))
    case Join =>
      s.(caller := if s.caller.dtor then Destroyed else Idle, handle := None, faults := NO_FAULTS)
  }

  function Deliver(th: Thread, msg: StreamMsg): Thread {
    if th.consumer then th.(inbox := th.inbox + [msg]) else th
  }

  /** The broker hands a message to every thread that is a consumer of the stream. */
  function DeliverAll(threads: seq<Thread>, msg: StreamMsg): (r: seq<Thread>)
    ensures |r| == |threads|
    ensures forall i :: 0 <= i < |r| ==> r[i] == Deliver(threads[i], msg)
  {
    seq(|threads|, i requires 0 <= i < |threads| => Deliver(threads[i], msg))
  }

  function BusApply(s: State, b: BusStep): State
    requires BusEnabled(s, b)
  {
    match b
    case Publish(msg) => s.(bus := s.bus + [msg])
    case Route => s.(bus := s.bus[1..], threads := DeliverAll(s.threads, s.bus[0]))
  }

  function Wake(c: Caller): Caller {
    if c.SubWaiting? then SubWoken else c
  }

  /** What a listener step makes of its own thread. */
  function ThreadApply(s: State, t: nat, l: ListenerStep): Thread
    requires ListenerEnabled(s, t, l)
  {
    var th := s.threads[t];
    match l
    case Connect => th.(pc := Announcing, consumer := true)
    case Fail => th.(pc := Failing, failed := true)
    case Announce => th.(pc := Polling)
    case ReportFail => Finish(th)
    case Receive => th.(pc := Received(th.inbox[0]), inbox := th.inbox[1..])
    case Check => if s.stop then Finish(th) else th.(pc := Checked(th.pc.msg.subject, CStrs(th.pc.msg.frames)))
    case Lock => th.(pc := Dispatching(th.pc.payload, 0))
    case Invoke(id, _) => th.(pc := Dispatching(th.pc.payload, id + 1))
    case Unlock => th.(pc := Polling)
    case Interrupt => Finish(th)
  }

  /** The thread leaves `listener`: its malamute client goes with what was queued in it. */
  function Finish(th: Thread): Thread {
    Thread(Done, false, [], th.failed)
  }

  function ListenerApply(s: State, t: nat, l: ListenerStep): State
    requires ListenerEnabled(s, t, l)
  {
    var th := s.threads[t];
    var s' := s.(threads := s.threads[t := ThreadApply(s, t, l)]);
    match l
    case Fail => s'.(exPtr := true, faults := s.faults.(startFailed := true))
    case Announce => s'.(caller := Wake(s.caller))
    case ReportFail => s'.(caller := Wake(s.caller))
    case Check => s'.(faults := s.faults.(stopSeen := s.faults.stopSeen || s.stop))
    case Lock => s'.(mutex := HeldBy(t), hist := s.hist.(log := s.hist.log + [th.pc.payload]))
    case Invoke(id, threw) =>
      var call := Call(|s.hist.log| - 1, id, s.callbacks[id], th.pc.payload, threw);
      s'.(hist := s.hist.(calls := s.hist.calls + [call]))
    case Unlock => s'.(mutex := Free)
    case Interrupt => s'.(faults := s.faults.(interrupted := true))
    case _ => s'
  }

  function Apply(s: State, step: Step): State
    requires Enabled(s, step)
  {
    match step
    case ByCaller(c) => CallerApply(s, c)
    case OnBus(b) => BusApply(s, b)
    case ByListener(t, l) => ListenerApply(s, t, l)
  }

  /** Runs: any interleaving of enabled steps. */
  predicate Legal(s: State, run: seq<Step>)
    decreases run
  {
    run == [] || (Enabled(s, run[0]) && Legal(Apply(s, run[0]), run[1..]))
  }

  function After(s: State, run: seq<Step>): State
    requires Legal(s, run)
    decreases run
  {
    if run == [] then s else After(Apply(s, run[0]), run[1..])
  }

  /** Runs compose. */
  lemma {:induction false} RunsCompose(s: State, first: seq<Step>, second: seq<Step>)
    requires Legal(s, first) && Legal(After(s, first), second)
    ensures Legal(s, first + second) && After(s, first + second) == After(After(s, first), second)
    decreases first
  {
    if first == [] {
      assert first + second == second;
    } else {
      var run := first + second;
      assert run[0] == first[0] && run[1..] == first[1..] + second;
      var s1 := Apply(s, first[0]);
      assert Legal(s1, first[1..]) && After(s, first) == After(s1, first[1..]);
      RunsCompose(s1, first[1..], second);
    }
  }

  /** One more step at the end of a run. */
  lemma Snoc(s: State, run: seq<Step>, step: Step) returns (run': seq<Step>)
    requires Legal(s, run) && Enabled(After(s, run), step)
    ensures run' == run + [step] && Legal(s, run') && After(s, run') == Apply(After(s, run), step)
  {
    run' := run + [step];
    assert [step][1..] == [];
    assert Legal(Apply(After(s, run), step), []);
    RunsCompose(s, run, [step]);
  }

  /** The ids the iteration over m_callbacks still has before it. */
  function From(callbacks: map<nat, nat>, from: nat): set<nat> {
    set id | id in callbacks && from <= id
  }
}
