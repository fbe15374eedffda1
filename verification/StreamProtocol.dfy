/** What holds of the listener thread over whole runs of the stream client. */
module StreamProtocol {
  import opened Messages
  import opened StreamClient
  import opened StreamInvariants

  lemma Reached(run: seq<Step>) returns (s: State)
    requires Legal(Init(), run)
    ensures s == After(Init(), run) && ProtocolInv(s)
  {
    s := After(Init(), run);
    RunKeepsProtocol(Init(), run);
  }

  /** Of all the threads ever started, at most one has not yet left `listener`; whenever there is
      one, it is the thread that m_listenerThread owns. */
  lemma AtMostOneListener(run: seq<Step>, i: nat, j: nat)
    requires Legal(Init(), run)
    requires i < |After(Init(), run).threads| && !After(Init(), run).threads[i].pc.Done?
    requires j < |After(Init(), run).threads| && !After(Init(), run).threads[j].pc.Done?
    ensures i == j && After(Init(), run).handle == Some(i)
  {
    var s := Reached(run);
  }

  predicate Struck(f: Faults) {
    f.startFailed || f.interrupted || f.stopSeen
  }

  /** Between two API calls. With callbacks there is a joinable thread and the stop flag is clear;
      without, the flag is set once there has been a thread, and one is joinable exactly if publishing
      the SYNC that was to stop it threw. The joinable thread is dead or dying exactly if its start-up
      failed, it was interrupted, or a message reached it while the stop flag was set, which takes a SYNC
      that threw; no other thread is alive. What these flags say is told by the steps taken in
      FaultsAreTheThreadsOwn. */
  lemma AtApiBoundary(run: seq<Step>)
    requires Legal(Init(), run) && After(Init(), run).caller.Idle?
    ensures var s := After(Init(), run);
      && (!NoCallbacks(s.callbacks) ==> s.handle.Some? && !s.stop)
      && (NoCallbacks(s.callbacks) ==> (s.stop <==> s.threads != []))
      && (NoCallbacks(s.callbacks) ==> (s.handle.Some? <==> s.faults.syncThrew))
      && (s.handle.Some? ==> HasThread(s) && (Leaving(Current(s).pc) <==> Struck(s.faults)))
      && (s.faults.stopSeen ==> s.faults.syncThrew)
      && (forall i :: 0 <= i < |s.threads| && s.handle != Some(i) ==> s.threads[i].pc.Done?)
  {
    var s := Reached(run);
  }

  predicate Leaving(pc: ListenerPc) {
    pc.Done? || pc.Failing?
  }

  predicate HasThread(s: State) {
    s.handle.Some? && s.handle.value < |s.threads|
  }

  /** What a step does to the listener thread `v`, in terms of the flags. */
  function Strikes(s: State, step: Step, v: nat): Faults {
    var isTheThread := s.handle == Some(v);
    Faults(step == ByCaller(SpuriousWake) && isTheThread,
           step == ByListener(v, Fail),
           step == ByListener(v, Interrupt),
           step == ByCaller(SyncThrow) && isTheThread,
           step == ByListener(v, Check) && s.stop)
  }

  function Both(f: Faults, g: Faults): Faults {
    Faults(f.spurious || g.spurious, f.startFailed || g.startFailed, f.interrupted || g.interrupted,
           f.syncThrew || g.syncThrew, f.stopSeen || g.stopSeen)
  }

  /** What a run does to it: a spurious wake-up during its start-up, a failure, an interrupt, a SYNC
      that threw while it was the joinable thread, a message taken while the stop flag was set. */
  function Story(s: State, run: seq<Step>, v: nat): Faults
    requires Legal(s, run)
    decreases run
  {
    if run == [] then NO_FAULTS else Both(Strikes(s, run[0], v), Story(Apply(s, run[0]), run[1..], v))
  }

  function FaultsOf(s: State, v: nat): Faults {
    if s.handle == Some(v) then s.faults else NO_FAULTS
  }

  predicate Past(s: State, v: nat) {
    v < |s.threads| && s.handle != Some(v)
  }

  lemma CallerStrikes(s: State, c: CallerStep, v: nat)
    requires ThreadsInv(s) && LiveInv(s) && CallerEnabled(s, c) && !Past(s, v)
    ensures var s' := CallerApply(s, c);
      Past(s', v) || FaultsOf(s', v) == Both(FaultsOf(s, v), Strikes(s, ByCaller(c), v))
  {
    if c.Join? {
      assert s.handle == Some(v) ==> Past(CallerApply(s, c), v);
    } else if c.SpuriousWake? || c.SyncThrow? {
    } else {
      assert CallerApply(s, c).faults == s.faults && Strikes(s, ByCaller(c), v) == NO_FAULTS;
    }
  }

  lemma ListenerStrikes(s: State, t: nat, l: ListenerStep, v: nat)
    requires ThreadsInv(s) && ListenerEnabled(s, t, l)
    ensures FaultsOf(ListenerApply(s, t, l), v) == Both(FaultsOf(s, v), Strikes(s, ByListener(t, l), v))
  {
    assert s.handle == Some(t);
  }

  lemma StepStrikes(s: State, step: Step, v: nat)
    requires ThreadsInv(s) && LiveInv(s) && Enabled(s, step) && !Past(s, v)
    ensures var s' := Apply(s, step);
      Past(s', v) || FaultsOf(s', v) == Both(FaultsOf(s, v), Strikes(s, step, v))
  {
    match step
    case ByCaller(c) => CallerStrikes(s, c, v);
    case OnBus(_) =>
    case ByListener(t, l) => ListenerStrikes(s, t, l, v);
  }

  lemma {:induction false} PastForGood(s: State, run: seq<Step>, v: nat)
    requires Legal(s, run) && Past(s, v)
    ensures Past(After(s, run), v)
    decreases run
  {
    if run != [] {
      PastForGood(Apply(s, run[0]), run[1..], v);
    }
  }

  lemma BothIsAssociative(f: Faults, g: Faults, h: Faults)
    ensures Both(Both(f, g), h) == Both(f, Both(g, h))
  {
  }

  lemma {:induction false} RunStrikes(s: State, run: seq<Step>, v: nat)
    requires ProtocolInv(s) && Legal(s, run) && !Past(After(s, run), v)
    ensures FaultsOf(After(s, run), v) == Both(FaultsOf(s, v), Story(s, run, v))
    decreases run
  {
    if Past(s, v) {
      PastForGood(s, run, v);
    } else if run != [] {
      var s1 := Apply(s, run[0]);
      StepKeepsProtocol(s, run[0]);
      RunStrikes(s1, run[1..], v);
      if Past(s1, v) {
        PastForGood(s1, run[1..], v);
      }
      StepStrikes(s, run[0], v);
      BothIsAssociative(FaultsOf(s, v), Strikes(s, run[0], v), Story(s1, run[1..], v));
    }
  }

  /** Over every run the flags are about the joinable thread alone: they are set exactly by what the
      run did to that thread, whatever befell the threads before it. And whenever there is a joinable
      thread, it is dead or dying exactly if the run made its start-up fail, interrupted it, or made it
      take a message while the stop flag was set. */
  lemma FaultsAreTheThreadsOwn(run: seq<Step>)
    requires Legal(Init(), run) && After(Init(), run).handle.Some?
    ensures var s := After(Init(), run); var story := Story(Init(), run, s.handle.value);
      HasThread(s) && s.faults == story && (Leaving(Current(s).pc) <==> Struck(story))
  {
    var s := Reached(run);
    RunStrikes(Init(), run, s.handle.value);
  }

  /** `join` is only ever called on a joinable thread, with the stop flag set and the mutex not held
      by the caller, and the destructor ends with no thread left. */
  lemma JoinIsSafe(run: seq<Step>)
    requires Legal(Init(), run)
    ensures var s := After(Init(), run);
      && (Stopping(s.caller) ==> s.handle.Some? && s.stop && !s.mutex.HeldByCaller?)
      && (s.caller.Destroyed? ==> forall i :: 0 <= i < |s.threads| ==> s.threads[i].pc.Done?)
  {
    var s := Reached(run);
  }

  predicate InDestructor(c: Caller) {
    c == StopSet(true) || c == Joining(true) || c.Destroyed? || c.Terminated?
  }

  lemma {:induction false} DestructorRun(s: State, run: seq<Step>)
    requires Legal(s, run) && InDestructor(s.caller)
    ensures InDestructor(After(s, run).caller)
    ensures After(s, run).caller.Terminated? <==> s.caller.Terminated? || ByCaller(SyncThrow) in run
    decreases run
  {
    if run != [] {
      DestructorRun(Apply(s, run[0]), run[1..]);
      assert run == [run[0]] + run[1..];
    }
  }

  /** The destructor takes the process down exactly if it finds no callback but a thread whose SYNC
      threw, or finds callbacks and its own SYNC throws. */
  lemma DestructorTerminatesIff(before: seq<Step>, run: seq<Step>)
    requires Legal(Init(), before) && After(Init(), before).caller.Idle?
    requires Legal(CallerApply(After(Init(), before), DestructorCall), run)
    ensures var s := After(Init(), before); var s1 := CallerApply(s, DestructorCall);
      After(s1, run).caller.Terminated? <==>
        if NoCallbacks(s.callbacks) then s.faults.syncThrew else ByCaller(SyncThrow) in run
  {
    var s := Reached(before);
    DestructorRun(CallerApply(s, DestructorCall), run);
    if NoCallbacks(s.callbacks) {
      NoThrowAtTheEnd(CallerApply(s, DestructorCall), run);
    }
  }

  lemma {:induction false} NoThrowAtTheEnd(s: State, run: seq<Step>)
    requires Legal(s, run) && (s.caller.Destroyed? || s.caller.Terminated?)
    ensures ByCaller(SyncThrow) !in run
    decreases run
  {
    if run != [] {
      NoThrowAtTheEnd(Apply(s, run[0]), run[1..]);
    }
  }

  /** `subscribe` rethrows exactly when its listener has failed by then. Only a spurious wake-up lets
      it look before the listener's notification, and its verdict can still turn out wrong exactly
      when that listener has not got as far as being a consumer. */
  lemma SubscribeReportsStartUp(before: seq<Step>)
    requires Legal(Init(), before) && After(Init(), before).caller.SubWoken?
    ensures var s := After(Init(), before);
      && HasThread(s)
      && (s.exPtr <==> Current(s).failed)
      && (PreNotify(Current(s).pc) ==> s.faults.spurious)
      && (Current(s).pc.Starting? <==>
            exists run :: Legal(s, run) && FailedAfter(s, run, s.handle.value) != s.exPtr)
  {
    var s := Reached(before);
    var v := s.handle.value;
    if Current(s).pc.Starting? {
      var s' := Apply(s, ByListener(v, Fail));
      assert Legal(s', []);
      var run := [ByListener(v, Fail)];
      assert run[1..] == [];
      assert After(s, run) == s';
      assert FailedAfter(s, run, v);
    } else {
      forall run | Legal(s, run)
        ensures FailedAfter(s, run, v) == s.exPtr
      {
        FailedIsFinal(s, run, v);
      }
    }
  }

  predicate FailedAfter(s: State, run: seq<Step>, v: nat)
    requires Legal(s, run)
  {
    v < |After(s, run).threads| && After(s, run).threads[v].failed
  }

  lemma FailedStays(s: State, step: Step, v: nat)
    requires Enabled(s, step) && v < |s.threads| && !s.threads[v].pc.Starting?
    ensures var s' := Apply(s, step);
      v < |s'.threads| && !s'.threads[v].pc.Starting? && s'.threads[v].failed == s.threads[v].failed
  {
    match step
    case ByCaller(c) => assert s.threads <= CallerApply(s, c).threads;
    case OnBus(b) =>
    case ByListener(t, l) =>
      var th := ThreadApply(s, t, l);
      assert !th.pc.Starting? && (s.threads[t].pc.Starting? || th.failed == s.threads[t].failed);
      assert ListenerApply(s, t, l).threads == s.threads[t := th];
  }

  lemma {:induction false} FailedIsFinal(s: State, run: seq<Step>, v: nat)
    requires Legal(s, run) && v < |s.threads| && !s.threads[v].pc.Starting?
    ensures FailedAfter(s, run, v) == s.threads[v].failed
    decreases run
  {
    if run != [] {
      FailedStays(s, run[0], v);
      FailedIsFinal(Apply(s, run[0]), run[1..], v);
    }
  }

  // ------------------------------------------------------------------ starting

  predicate NoSpuriousWake(run: seq<Step>) {
    forall i :: 0 <= i < |run| ==> run[i] != ByCaller(SpuriousWake)
  }

  /** The joinable thread is the only one a step can move; steps of the others leave its position. */
  lemma OnlyCurrentMoves(s: State, step: Step)
    requires ThreadsInv(s) && s.handle.Some? && Enabled(s, step)
    ensures var v := s.handle.value;
      && (step.ByListener? ==> step.t == v)
      && |Apply(s, step).threads| == |s.threads|
      && Apply(s, step).threads[v] ==
         match step
         case ByCaller(_) => s.threads[v]
         case OnBus(Publish(_)) => s.threads[v]
         case OnBus(Route) => Deliver(s.threads[v], s.bus[0])
         case ByListener(_, l) => ThreadApply(s, v, l)
  {
  }

  /** Once the notification is behind, nothing but a spurious wake-up gets the caller out. */
  lemma WaitingStays(s: State, step: Step)
    requires ThreadsInv(s) && s.handle.Some? && s.caller.SubWaiting? && !PreNotify(Current(s).pc)
    requires Enabled(s, step) && step != ByCaller(SpuriousWake)
    ensures var s' := Apply(s, step);
      && s'.caller.SubWaiting? && s'.handle == s.handle && |s'.threads| == |s.threads|
      && !PreNotify(Current(s').pc)
  {
    OnlyCurrentMoves(s, step);
  }

  lemma {:induction false} LostWakeUpIsForEver(s: State, run: seq<Step>)
    requires ProtocolInv(s) && s.caller.SubWaiting? && !PreNotify(Current(s).pc)
    requires Legal(s, run) && NoSpuriousWake(run)
    ensures After(s, run).caller.SubWaiting?
    decreases run
  {
    if run != [] {
      WaitingStays(s, run[0]);
      StepKeepsProtocol(s, run[0]);
      LostWakeUpIsForEver(Apply(s, run[0]), run[1..]);
    }
  }

  function StartRank(s: State): nat
    requires s.handle.Some? && s.handle.value < |s.threads|
  {
    match Current(s).pc
    case Starting => 2
    case Announcing => 1
    case Failing => 1
    case _ => 0
  }

  /** While the notification is still to come, the listener can always move, and whoever moves, the
      caller is either woken or no further from being woken; a move of the listener brings it nearer. */
  lemma StartUpProgress(s: State)
    requires ThreadsInv(s) && s.handle.Some? && s.caller.SubWaiting? && PreNotify(Current(s).pc)
    ensures exists l :: ListenerEnabled(s, s.handle.value, l)
    ensures forall step :: Enabled(s, step) ==>
      var s' := Apply(s, step);
      && s'.handle == s.handle && |s'.threads| == |s.threads|
      && (s'.caller.SubWoken? || (s'.caller.SubWaiting? && StartRank(s') <= StartRank(s)))
      && (step.ByListener? ==> s'.caller.SubWoken? || StartRank(s') < StartRank(s))
  {
    assert ListenerEnabled(s, s.handle.value, NextStartUpStep(s));
    forall step | Enabled(s, step)
      ensures var s' := Apply(s, step);
        && s'.handle == s.handle && |s'.threads| == |s.threads|
        && (s'.caller.SubWoken? || (s'.caller.SubWaiting? && StartRank(s') <= StartRank(s)))
        && (step.ByListener? ==> s'.caller.SubWoken? || StartRank(s') < StartRank(s))
    {
      OnlyCurrentMoves(s, step);
    }
  }

  function NextStartUpStep(s: State): ListenerStep
    requires s.handle.Some? && s.handle.value < |s.threads|
  {
    match Current(s).pc
    case Starting => Connect
    case Announcing => Announce
    case _ => ReportFail
  }

  lemma WakeUpComes(s: State) returns (run: seq<Step>)
    requires ProtocolInv(s) && s.caller.SubWaiting? && PreNotify(Current(s).pc)
    ensures Legal(s, run) && NoSpuriousWake(run) && After(s, run).caller.SubWoken?
    decreases StartRank(s)
  {
    var step := ByListener(s.handle.value, NextStartUpStep(s));
    var s' := Apply(s, step);
    StepKeepsProtocol(s, step);
    if s'.caller.SubWoken? {
      assert Legal(s', []);
      run := [step];
      assert run[1..] == [];
    } else {
      var rest := WakeUpComes(s');
      run := [step] + rest;
      assert run[1..] == rest;
    }
  }

  /** The wait at start-up has no predicate and the notification does not take the mutex. At the
      moment the caller enters the wait, `subscribe` can still return without a spurious wake-up if
      and only if the listener has not yet notified. */
  lemma StartUpIff(before: seq<Step>)
    requires Legal(Init(), before) && After(Init(), before).caller.SubSpawned?
    ensures var s := After(Init(), before);
      && s.handle.Some? && s.handle.value < |s.threads|
      && (PreNotify(Current(s).pc) <==>
            exists run ::
              && Legal(CallerApply(s, SubscribeWait), run) && NoSpuriousWake(run)
              && !After(CallerApply(s, SubscribeWait), run).caller.SubWaiting?)
  {
    var s := Reached(before);
    var w := CallerApply(s, SubscribeWait);
    StepKeepsProtocol(s, ByCaller(SubscribeWait));
    if PreNotify(Current(s).pc) {
      var run := WakeUpComes(w);
    } else {
      forall run | Legal(w, run) && NoSpuriousWake(run)
        ensures After(w, run).caller.SubWaiting?
      {
        LostWakeUpIsForEver(w, run);
      }
    }
  }

  // ------------------------------------------------------------------ stopping

  function Remaining(callbacks: map<nat, nat>, from: nat): nat {
    |From(callbacks, from)|
  }

  lemma InvokeShrinks(callbacks: map<nat, nat>, from: nat, id: nat)
    requires IsNext(callbacks, from, id)
    ensures Remaining(callbacks, id + 1) < Remaining(callbacks, from)
  {
    var all := From(callbacks, from);
    assert id in all;
    SubsetSize(From(callbacks, id + 1), all - {id});
  }

  lemma {:induction false} SubsetSize(a: set<nat>, b: set<nat>)
    requires a <= b
    ensures |a| <= |b|
  {
    if a != {} {
      var x :| x in a;
      SubsetSize(a - {x}, b - {x});
    }
  }

  /** How far the listener still is from leaving its loop, once the stop flag is set. */
  function StopRank(s: State): nat
    requires HasThread(s)
  {
    match Current(s).pc
    case Done => 0
    case Failing => 1
    case Received(_) => 1
    case Polling => if Current(s).inbox != [] then 2 else 3
    case Announcing => 4
    case Starting => 5
    case Dispatching(_, from) => 4 + Remaining(s.callbacks, from)
    case Checked(_, _) => 5 + Remaining(s.callbacks, 0)
  }

  /** A step that brings the listener nearer to its exit: any step of its own, or the delivery of
      the message it is waiting for. */
  predicate Helpful(s: State, step: Step) {
    step.ByListener? ||
    (step == OnBus(Route) && HasThread(s) && Current(s).pc.Polling? && Current(s).inbox == [])
  }

  /** A message that will make the listener look at the stop flag is on its way to it, or it leaves
      without one. */
  predicate Caught(s: State)
    requires HasThread(s)
  {
    var th := Current(s);
    Leaving(th.pc) || th.pc.Received? || th.inbox != [] || (th.consumer && s.bus != [])
  }

  predicate JoinPending(s: State) {
    ProtocolInv(s) && s.caller.Joining? && Caught(s)
  }

  /** Nobody but other publishers and an interrupt can move anything. */
  ghost predicate OnlyOthers(s: State) {
    forall step :: Enabled(s, step) ==>
      (step.OnBus? && step.b.Publish?) || (step.ByListener? && step.l.Interrupt?)
  }

  /** While the caller is in `join` and the listener is caught, the join can be completed or a helpful
      step is enabled. */
  lemma StopNeverStuck(s: State)
    requires JoinPending(s)
    ensures !s.mutex.HeldByCaller? && !OnlyOthers(s)
    ensures Enabled(s, ByCaller(Join)) || exists step :: Enabled(s, step) && Helpful(s, step)
  {
    if Current(s).pc.Done? {
      assert Enabled(s, ByCaller(Join));
    } else {
      var step := NextStopStep(s);
      assert Enabled(s, step) && Helpful(s, step);
    }
  }

  lemma NextStopStep(s: State) returns (step: Step)
    requires JoinPending(s) && !Current(s).pc.Done?
    ensures Enabled(s, step) && Helpful(s, step)
    ensures !(step.OnBus? && step.b.Publish?) && !(step.ByListener? && step.l.Interrupt?)
  {
    var t := s.handle.value;
    var th := Current(s);
    match th.pc
    case Received(_) => step := ByListener(t, Check);
    case Polling => step := if th.inbox != [] then ByListener(t, Receive) else OnBus(Route);
    case Checked(_, _) => step := ByListener(t, Lock);
    case Announcing => step := ByListener(t, Announce);
    case Failing => step := ByListener(t, ReportFail);
    case Dispatching(_, from) =>
      var l := DispatchCanMove(s, t);
      step := ByListener(t, l);
  }

  /** A listener that holds the mutex can always go on to its next callback or release it. */
  lemma DispatchCanMove(s: State, t: nat) returns (l: ListenerStep)
    requires MutexInv(s) && t < |s.threads| && s.threads[t].pc.Dispatching?
    ensures ListenerEnabled(s, t, l) && (l.Invoke? || l.Unlock?)
  {
    var from := s.threads[t].pc.from;
    if i :| i in s.callbacks && from <= i {
      var id := Least(s.callbacks, from, i);
      l := Invoke(id, false);
    } else {
      l := Unlock;
    }
  }

  lemma Least(callbacks: map<nat, nat>, from: nat, i: nat) returns (id: nat)
    requires i in callbacks && from <= i
    ensures IsNext(callbacks, from, id)
    decreases i
  {
    if j :| j in callbacks && from <= j < i {
      id := Least(callbacks, from, j);
    } else {
      id := i;
    }
  }

  lemma StopListenerStep(s: State, l: ListenerStep)
    requires JoinPending(s) && ListenerEnabled(s, s.handle.value, l)
    ensures var s' := ListenerApply(s, s.handle.value, l);
      HasThread(s') && Caught(s') && s'.caller == s.caller && StopRank(s') < StopRank(s)
  {
    if l.Invoke? {
      InvokeShrinks(s.callbacks, Current(s).pc.from, l.id);
    }
  }

  lemma StopBusStep(s: State, b: BusStep)
    requires JoinPending(s) && BusEnabled(s, b)
    ensures var s' := BusApply(s, b);
      && HasThread(s') && Caught(s') && s'.caller == s.caller && StopRank(s') <= StopRank(s)
      && (Helpful(s, OnBus(b)) ==> StopRank(s') < StopRank(s))
  {
  }

  /** Whatever interleaves, the join stays pending until it is completed, and the listener never gets
      further from its exit; a helpful step brings it nearer. */
  lemma StopStep(s: State, step: Step)
    requires JoinPending(s) && Enabled(s, step) && step != ByCaller(Join)
    ensures var s' := Apply(s, step);
      && JoinPending(s') && s'.caller == s.caller
      && StopRank(s') <= StopRank(s)
      && (Helpful(s, step) ==> StopRank(s') < StopRank(s))
  {
    StepKeepsProtocol(s, step);
    match step
    case OnBus(b) => StopBusStep(s, b);
    case ByListener(_, l) => StopListenerStep(s, l);
  }

  function HelpfulSteps(s: State, run: seq<Step>): nat
    requires Legal(s, run)
    decreases run
  {
    if run == [] then 0
    else (if Helpful(s, run[0]) then 1 else 0) + HelpfulSteps(Apply(s, run[0]), run[1..])
  }

  lemma {:induction false} HelpfulStepsAreBounded(s: State, run: seq<Step>)
    requires JoinPending(s) && Legal(s, run) && ByCaller(Join) !in run
    ensures JoinPending(After(s, run))
    ensures HelpfulSteps(s, run) + StopRank(After(s, run)) <= StopRank(s)
    decreases run
  {
    if run != [] {
      StopStep(s, run[0]);
      HelpfulStepsAreBounded(Apply(s, run[0]), run[1..]);
    }
  }

  /** Stopping works. Once the caller is in `join` and the listener is caught: in every run from there,
      the helpful steps taken so far plus what is left of the rank never exceed the rank at the start;
      as long as rank is left a helpful step is enabled, and when none is left the join can be
      completed. JoinStuckIff shows that being caught is exactly what it takes. */
  lemma StoppingTerminates(before: seq<Step>, run: seq<Step>)
    requires Legal(Init(), before) && Legal(After(Init(), before), run) && ByCaller(Join) !in run
    requires var s := After(Init(), before); s.caller.Joining? && HasThread(s) && Caught(s)
    ensures var s, s' := After(Init(), before), After(After(Init(), before), run);
      && HasThread(s') && s'.caller.Joining? && !s'.mutex.HeldByCaller?
      && HelpfulSteps(s, run) + StopRank(s') <= StopRank(s)
      && (if StopRank(s') == 0 then Enabled(s', ByCaller(Join))
          else exists step :: Enabled(s', step) && Helpful(s', step))
  {
    var s := Reached(before);
    HelpfulStepsAreBounded(s, run);
    StopNeverStuck(After(s, run));
  }

  /** The caller is left in a join that the process itself can do nothing about. */
  ghost predicate Stuck(s: State, run: seq<Step>) {
    && Legal(s, run) && ByCaller(Join) !in run
    && After(s, run).caller.Joining? && OnlyOthers(After(s, run))
  }

  /** The step by which a listener that is not caught gets on to waiting for a message. */
  lemma NextStuckStep(s: State) returns (step: Step)
    requires ProtocolInv(s) && s.caller.Joining? && !Caught(s) && !Current(s).pc.Polling?
    ensures Enabled(s, step) && !step.ByCaller?
    ensures var s' := Apply(s, step);
      && ProtocolInv(s') && s'.caller == s.caller && !Caught(s')
      && (|s'.bus| < |s.bus| || (s'.bus == s.bus && StopRank(s') < StopRank(s)))
  {
    var t := s.handle.value;
    match Current(s).pc {
      case Starting => step := if s.bus != [] then OnBus(Route) else ByListener(t, Connect);
      case Announcing => step := ByListener(t, Announce);
      case Checked(_, _) => step := ByListener(t, Lock);
      case Dispatching(_, from) =>
        var l := DispatchCanMove(s, t);
        step := ByListener(t, l);
        if l.Invoke? {
          InvokeShrinks(s.callbacks, from, l.id);
        }
    }
    StepKeepsProtocol(s, step);
    OnlyCurrentMoves(s, step);
  }

  lemma {:induction false} ToStuck(s: State) returns (run: seq<Step>)
    requires ProtocolInv(s) && s.caller.Joining? && !Caught(s)
    ensures Stuck(s, run)
    decreases |s.bus|, StopRank(s)
  {
    if Current(s).pc.Polling? {
      run := [];
    } else {
      var step := NextStuckStep(s);
      var rest := ToStuck(Apply(s, step));
      run := [step] + rest;
      assert run[1..] == rest;
    }
  }

  lemma CaughtIsNeverStuck(s: State, run: seq<Step>)
    requires JoinPending(s)
    ensures !Stuck(s, run)
  {
    if Legal(s, run) && ByCaller(Join) !in run {
      HelpfulStepsAreBounded(s, run);
      StopNeverStuck(After(s, run));
    }
  }

  /** A join can be left to outsiders exactly if the listener is not caught when it begins. */
  lemma JoinStuckIff(before: seq<Step>)
    requires Legal(Init(), before) && After(Init(), before).caller.Joining?
    ensures var s := After(Init(), before);
      HasThread(s) && (!Caught(s) <==> exists run :: Stuck(s, run))
  {
    var s := Reached(before);
    if Caught(s) {
      forall run
        ensures !Stuck(s, run)
      {
        CaughtIsNeverStuck(s, run);
      }
    } else {
      var run := ToStuck(s);
    }
  }

  /** Stopping can fail exactly if the listener has not yet become a consumer when SYNC is published,
      which takes a spurious wake-up in the start-up of that very thread. */
  lemma StopIff(before: seq<Step>)
    requires Legal(Init(), before) && After(Init(), before).caller.StopSet?
    ensures var s := After(Init(), before);
      && HasThread(s)
      && (Current(s).pc.Starting? <==> exists run :: Stuck(CallerApply(s, SyncPublish), run))
      && (Current(s).pc.Starting? ==> s.faults.spurious)
  {
    var s := Reached(before);
    var s1 := CallerApply(s, SyncPublish);
    StepKeepsProtocol(s, ByCaller(SyncPublish));
    if Current(s).pc.Starting? {
      var run := ToStuck(s1);
    } else {
      forall run
        ensures !Stuck(s1, run)
      {
        CaughtIsNeverStuck(s1, run);
      }
    }
  }

  /** One if the listener has already looked at the stop flag and not yet dispatched. */
  function AlreadyChecked(s: State): nat
    requires HasThread(s)
  {
    if Current(s).pc.Checked? then 1 else 0
  }

  lemma StoppingStepDispatches(s: State, step: Step)
    requires ThreadsInv(s) && CallerInv(s) && Stopping(s.caller)
    requires Enabled(s, step) && step != ByCaller(Join) && step != ByCaller(SyncThrow)
    ensures var s' := Apply(s, step);
      && Stopping(s'.caller) && s'.caller.dtor == s.caller.dtor
      && s'.handle == s.handle && |s'.threads| == |s.threads|
      && |s'.hist.log| + (if Current(s').pc.Checked? then 1 else 0) <= |s.hist.log| + AlreadyChecked(s)
      && (!s.caller.dtor ==> s'.hist.calls == s.hist.calls)
  {
    OnlyCurrentMoves(s, step);
  }

  lemma {:induction false} StoppingRunDispatches(s: State, run: seq<Step>)
    requires ProtocolInv(s) && Stopping(s.caller)
    requires Legal(s, run) && ByCaller(Join) !in run && ByCaller(SyncThrow) !in run
    ensures var s' := After(s, run);
      && |s'.hist.log| <= |s.hist.log| + AlreadyChecked(s)
      && (!s.caller.dtor ==> s'.hist.calls == s.hist.calls)
    decreases run
  {
    if run != [] {
      StoppingStepDispatches(s, run[0]);
      StepKeepsProtocol(s, run[0]);
      StoppingRunDispatches(Apply(s, run[0]), run[1..]);
    }
  }

  /** From the moment the stop flag is set, at most the one message the listener had already checked
      is still dispatched; on the `unsubscribe` path not even that one reaches a callback. */
  lemma StoppingDispatchesAtMostOne(before: seq<Step>, run: seq<Step>)
    requires Legal(Init(), before) && Stopping(After(Init(), before).caller)
    requires Legal(After(Init(), before), run) && ByCaller(Join) !in run && ByCaller(SyncThrow) !in run
    ensures var s, s' := After(Init(), before), After(After(Init(), before), run);
      && HasThread(s)
      && |s'.hist.log| <= |s.hist.log| + AlreadyChecked(s)
      && (!s.caller.dtor ==> s'.hist.calls == s.hist.calls)
  {
    var s := Reached(before);
    StoppingRunDispatches(s, run);
  }
}
