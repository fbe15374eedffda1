/** When a SYNC, which is only there to make a listener look at its stop flag, is dispatched as if it were
    a message: a listener never looks at the subject. */
module StreamSync {
  import opened Messages
  import opened StreamClient
  import opened StreamInvariants
  import opened StreamProtocol
  import opened StreamFlow

  predicate ForeignSync(step: Step) {
    step.OnBus? && step.b.Publish? && step.b.msg.subject.Sync?
  }

  /** No other client of the stream publishes a SYNC. */
  predicate NoForeignSync(run: seq<Step>) {
    forall i :: 0 <= i < |run| ==> !ForeignSync(run[i])
  }

  predicate SyncIn(msgs: seq<StreamMsg>) {
    exists i :: 0 <= i < |msgs| && msgs[i].subject.Sync?
  }

  /** The listener is past the stop flag with a SYNC in hand, */
  predicate CheckedSync(th: Thread) {
    th.pc.Checked? && th.pc.subject.Sync?
  }

  /** ... and next, it locks and dispatches it. */
  predicate AboutToDispatchSync(s: State, v: nat) {
    ListenerEnabled(s, v, Lock) && CheckedSync(s.threads[v])
  }

  /** The stop flag is clear, or the caller can still clear it before the listener is joined. */
  predicate MayGoOn(s: State) {
    !s.stop || s.caller.Idle? || s.caller == StopSet(false)
  }

  /** A SYNC is on its way to the listener, or will be when the listener is a consumer. */
  predicate SyncComing(s: State, th: Thread) {
    || (th.pc.Received? && th.pc.msg.subject.Sync?)
    || SyncIn(th.inbox)
    || (SyncIn(s.bus) && !Leaving(th.pc))
  }

  predicate SyncAhead(s: State, v: nat)
    requires v < |s.threads|
  {
    CheckedSync(s.threads[v]) || (MayGoOn(s) && SyncComing(s, s.threads[v]))
  }

  // ------------------------------------------------------------------ only then

  lemma CallerBringsNoSync(s: State, c: CallerStep, v: nat)
    requires ProtocolInv(s) && CallerEnabled(s, c) && Alive(s, v) && !SyncAhead(s, v)
    ensures var s' := CallerApply(s, c); Alive(s', v) && !SyncAhead(s', v)
  {
    CallerFlows(s, c, v);
  }

  lemma BusBringsNoSync(s: State, b: BusStep, v: nat)
    requires ProtocolInv(s) && BusEnabled(s, b) && !ForeignSync(OnBus(b)) && Alive(s, v) && !SyncAhead(s, v)
    ensures var s' := BusApply(s, b); Alive(s', v) && !SyncAhead(s', v)
  {
  }

  lemma ListenerBringsNoSync(s: State, v: nat, l: ListenerStep)
    requires ProtocolInv(s) && ListenerEnabled(s, v, l) && Alive(s, v) && !SyncAhead(s, v)
    ensures var s' := ListenerApply(s, v, l); Alive(s', v) ==> !SyncAhead(s', v)
  {
  }

  lemma StepBringsNoSync(s: State, step: Step, v: nat)
    requires ProtocolInv(s) && Enabled(s, step) && !ForeignSync(step) && Alive(s, v) && !SyncAhead(s, v)
    ensures var s' := Apply(s, step); v < |s'.threads| && (Alive(s', v) ==> !SyncAhead(s', v))
  {
    match step
    case ByCaller(c) => CallerBringsNoSync(s, c, v);
    case OnBus(b) => BusBringsNoSync(s, b, v);
    case ByListener(t, l) => ListenerBringsNoSync(s, v, l);
  }

  lemma DeadForGood(s: State, step: Step, v: nat)
    requires Enabled(s, step) && v < |s.threads| && !Alive(s, v)
    ensures v < |Apply(s, step).threads| && !Alive(Apply(s, step), v)
  {
    if step.ByCaller? { CallerFlows(s, step.c, v); }
  }

  lemma {:induction false} RunBringsNoSync(s: State, run: seq<Step>, v: nat)
    requires ProtocolInv(s) && Legal(s, run) && NoForeignSync(run)
    requires v < |s.threads| && (Alive(s, v) ==> !SyncAhead(s, v))
    ensures !AboutToDispatchSync(After(s, run), v)
    decreases run
  {
    if run != [] {
      if Alive(s, v) {
        StepBringsNoSync(s, run[0], v);
      } else {
        DeadForGood(s, run[0], v);
      }
      StepKeepsProtocol(s, run[0]);
      RunBringsNoSync(Apply(s, run[0]), run[1..], v);
    }
  }

  // ------------------------------------------------------------------ and then it can be

  /** What the caller still has to do so that the listener goes on: let go of the mutex, clear the flag. */
  function CallerRank(s: State): nat {
    match s.caller
    case StopSet(_) => if s.stop then 3 else 0
    case Idle => if s.stop then 2 else 0
    case SubSpawned => 1
    case _ => 0
  }

  /** How far the listener is from its next message. */
  function NextRank(s: State, v: nat): nat
    requires v < |s.threads|
  {
    match s.threads[v].pc
    case Announcing => 1
    case Starting => 2
    case Dispatching(_, from) => 1 + Remaining(s.callbacks, from)
    case Checked(_, _) => 2 + Remaining(s.callbacks, 0)
    case Received(_) => 3 + Remaining(s.callbacks, 0)
    case _ => 0
  }

  function NextCallerStep(s: State): CallerStep {
    match s.caller
    case StopSet(_) => SyncThrow
    case Idle => SubscribeCall
    case _ => SubscribeWait
  }

  predicate Nearer(s: State, s': State, v: nat)
    requires v < |s.threads| && v < |s'.threads|
  {
    || CallerRank(s') < CallerRank(s)
    || (CallerRank(s') == CallerRank(s) &&
        (|s'.bus| < |s.bus| ||
         (|s'.bus| == |s.bus| &&
          (|s'.threads[v].inbox| < |s.threads[v].inbox| ||
           (|s'.threads[v].inbox| == |s.threads[v].inbox| && NextRank(s', v) < NextRank(s, v))))))
  }

  lemma CallerMakesWay(s: State, v: nat)
    requires ProtocolInv(s) && Alive(s, v) && SyncAhead(s, v) && CallerRank(s) > 0
    requires CheckedSync(s.threads[v]) ==> CallerRank(s) == 1
    ensures CallerEnabled(s, NextCallerStep(s))
    ensures var s' := CallerApply(s, NextCallerStep(s));
      Alive(s', v) && SyncAhead(s', v) && CallerRank(s') < CallerRank(s)
  {
    CallerFlows(s, NextCallerStep(s), v);
  }

  /** The next step towards the dispatch of the SYNC when the caller is out of the way. */
  lemma NextToSync(s: State, v: nat) returns (step: Step)
    requires ProtocolInv(s) && Alive(s, v) && SyncAhead(s, v) && CallerRank(s) == 0
    requires !CheckedSync(s.threads[v])
    ensures Enabled(s, step) && (step.ByListener? || step == OnBus(Route))
    ensures step.ByListener? ==> step.t == v && !step.l.Fail? && !step.l.Interrupt?
    ensures step == OnBus(Route) ==> s.threads[v].pc.Polling? && s.threads[v].inbox == []
  {
    match s.threads[v].pc
    case Starting => step := ByListener(v, Connect);
    case Announcing => step := ByListener(v, Announce);
    case Received(_) => step := ByListener(v, Check);
    case Checked(_, _) => step := ByListener(v, Lock);
    case Dispatching(_, _) =>
      var l := DispatchCanMove(s, v);
      step := ByListener(v, l);
    case Polling => step := if s.threads[v].inbox != [] then ByListener(v, Receive) else OnBus(Route);
  }

  lemma TakingKeepsSync(msgs: seq<StreamMsg>)
    requires SyncIn(msgs)
    ensures msgs[0].subject.Sync? || SyncIn(msgs[1..])
  {
    var i :| 0 <= i < |msgs| && msgs[i].subject.Sync?;
    if i > 0 { assert msgs[1..][i - 1] == msgs[i]; }
  }

  lemma ListenerComesNearer(s: State, v: nat, l: ListenerStep)
    requires ProtocolInv(s) && ListenerEnabled(s, v, l) && !l.Fail? && !l.Interrupt?
    requires SyncAhead(s, v) && CallerRank(s) == 0 && !CheckedSync(s.threads[v])
    ensures var s' := ListenerApply(s, v, l);
      Alive(s', v) && SyncAhead(s', v) && Nearer(s, s', v)
  {
    if l.Receive? && SyncIn(s.threads[v].inbox) {
      TakingKeepsSync(s.threads[v].inbox);
    } else if l.Invoke? {
      InvokeShrinks(s.callbacks, s.threads[v].pc.from, l.id);
    }
  }

  lemma RouteComesNearer(s: State, v: nat)
    requires ProtocolInv(s) && s.bus != [] && Alive(s, v) && s.threads[v].pc.Polling?
    requires SyncAhead(s, v) && s.threads[v].inbox == []
    ensures var s' := BusApply(s, Route);
      Alive(s', v) && SyncAhead(s', v) && Nearer(s, s', v)
  {
    TakingKeepsSync(s.bus);
    var s' := BusApply(s, Route);
    if s.bus[0].subject.Sync? {
      assert s'.threads[v].inbox[0] == s.bus[0];
    }
  }

  /** One step on the way, whoever takes it. */
  lemma StepToSync(s: State, v: nat) returns (step: Step)
    requires ProtocolInv(s) && Alive(s, v) && SyncAhead(s, v) && !AboutToDispatchSync(s, v)
    ensures Enabled(s, step) && !ForeignSync(step)
    ensures var s' := Apply(s, step);
      ProtocolInv(s') && Alive(s', v) && SyncAhead(s', v) && Nearer(s, s', v)
  {
    if s.caller.SubSpawned? || (CallerRank(s) > 0 && !CheckedSync(s.threads[v])) {
      step := ByCaller(NextCallerStep(s));
      CallerMakesWay(s, v);
    } else {
      step := NextToSync(s, v);
      if step.ByListener? { ListenerComesNearer(s, v, step.l); } else { RouteComesNearer(s, v); }
    }
    StepKeepsProtocol(s, step);
  }

  /** A run without a SYNC of anybody else, after which thread `v` is about to dispatch one. */
  ghost predicate DispatchesSync(s: State, run: seq<Step>, v: nat) {
    Legal(s, run) && NoForeignSync(run) && AboutToDispatchSync(After(s, run), v)
  }

  lemma {:induction false} ToSync(s: State, v: nat) returns (run: seq<Step>)
    requires ProtocolInv(s) && Alive(s, v) && SyncAhead(s, v)
    ensures DispatchesSync(s, run, v)
    decreases CallerRank(s), |s.bus|, |s.threads[v].inbox|, NextRank(s, v)
  {
    if AboutToDispatchSync(s, v) {
      run := [];
    } else {
      var step := StepToSync(s, v);
      var rest := ToSync(Apply(s, step), v);
      run := [step] + rest;
      assert run[1..] == rest;
    }
  }

  /** In every reachable state: unless other clients of the stream publish a SYNC, a live listener can
      come to dispatch one exactly if it has one in hand past the stop flag, or one is on its way to it
      (in its hand, in its inbox, or with the broker) and the stop flag is clear or can still be cleared
      before the listener is joined. Its own SYNC is then always one that an earlier listener has left. */
  lemma SyncDispatchIff(before: seq<Step>, v: nat)
    requires Legal(Init(), before) && Alive(After(Init(), before), v)
    ensures SyncAhead(After(Init(), before), v) <==> exists run :: DispatchesSync(After(Init(), before), run, v)
  {
    var s := Reached(before);
    if SyncAhead(s, v) {
      var run := ToSync(s, v);
    } else {
      forall run
        ensures !DispatchesSync(s, run, v)
      {
        if Legal(s, run) && NoForeignSync(run) { RunBringsNoSync(s, run, v); }
      }
    }
  }

  /** When a listener becomes a consumer: exactly if a SYNC is with the broker then, which nobody need
      have published but the client itself to stop the listener before. Only a spurious wake-up can have
      set the stop flag by then. */
  lemma OldSyncIff(before: seq<Step>, v: nat)
    requires Legal(Init(), before) && ListenerEnabled(After(Init(), before), v, Connect)
    ensures var s := After(Init(), before);
      && (SyncIn(s.bus) && MayGoOn(s) <==> exists run :: DispatchesSync(ListenerApply(s, v, Connect), run, v))
      && (!s.faults.spurious ==> MayGoOn(s))
  {
    var s := Reached(before);
    var s1 := ListenerApply(s, v, Connect);
    StepKeepsProtocol(s, ByListener(v, Connect));
    if SyncIn(s.bus) && MayGoOn(s) {
      var run := ToSync(s1, v);
    } else {
      forall run
        ensures !DispatchesSync(s1, run, v)
      {
        if Legal(s1, run) && NoForeignSync(run) { RunBringsNoSync(s1, run, v); }
      }
    }
  }

  // ------------------------------------------------------------------ with the others

  /** Nothing more can be dispatched as a SYNC, whoever publishes one. */
  predicate Deaf(s: State, v: nat)
    requires v < |s.threads|
  {
    !CheckedSync(s.threads[v]) && (Leaving(s.threads[v].pc) || !MayGoOn(s))
  }

  lemma CallerLeavesDeaf(s: State, c: CallerStep, v: nat)
    requires ProtocolInv(s) && CallerEnabled(s, c) && v < |s.threads| && Deaf(s, v)
    ensures var s' := CallerApply(s, c); v < |s'.threads| && Deaf(s', v)
  {
    CallerFlows(s, c, v);
  }

  lemma ListenerLeavesDeaf(s: State, t: nat, l: ListenerStep, v: nat)
    requires ProtocolInv(s) && ListenerEnabled(s, t, l) && v < |s.threads| && Deaf(s, v)
    ensures Deaf(ListenerApply(s, t, l), v)
  {
    if t != v {
      assert ListenerApply(s, t, l).threads[v] == s.threads[v];
    }
  }

  lemma StepLeavesDeaf(s: State, step: Step, v: nat)
    requires ProtocolInv(s) && Enabled(s, step) && v < |s.threads| && Deaf(s, v)
    ensures var s' := Apply(s, step); v < |s'.threads| && Deaf(s', v)
  {
    match step
    case ByCaller(c) => CallerLeavesDeaf(s, c, v);
    case OnBus(_) =>
    case ByListener(t, l) => ListenerLeavesDeaf(s, t, l, v);
  }

  lemma {:induction false} RunLeavesDeaf(s: State, run: seq<Step>, v: nat)
    requires ProtocolInv(s) && Legal(s, run) && v < |s.threads| && Deaf(s, v)
    ensures !AboutToDispatchSync(After(s, run), v)
    decreases run
  {
    if run != [] {
      StepLeavesDeaf(s, run[0], v);
      StepKeepsProtocol(s, run[0]);
      RunLeavesDeaf(Apply(s, run[0]), run[1..], v);
    }
  }

  ghost predicate DispatchesAnySync(s: State, run: seq<Step>, v: nat) {
    Legal(s, run) && AboutToDispatchSync(After(s, run), v)
  }

  /** With other clients that publish SYNC, nothing need be on its way: a live listener can come to
      dispatch one exactly if it has one in hand past the stop flag, or has not failed to start and the
      flag is clear or can still be cleared. */
  lemma ForeignSyncIff(before: seq<Step>, v: nat)
    requires Legal(Init(), before) && Alive(After(Init(), before), v)
    ensures var s := After(Init(), before);
      CheckedSync(s.threads[v]) || (MayGoOn(s) && !s.threads[v].pc.Failing?) <==>
        exists run :: DispatchesAnySync(s, run, v)
  {
    var s := Reached(before);
    if Deaf(s, v) {
      forall run
        ensures !DispatchesAnySync(s, run, v)
      {
        if Legal(s, run) { RunLeavesDeaf(s, run, v); }
      }
    } else {
      var run := PublishedFirst(s, v);
    }
  }

  lemma PublishedFirst(s: State, v: nat) returns (run: seq<Step>)
    requires ProtocolInv(s) && Alive(s, v) && !Deaf(s, v)
    ensures DispatchesAnySync(s, run, v)
  {
    var step := OnBus(Publish(StreamMsg(Sync, [])));
    var s1 := Apply(s, step);
    StepKeepsProtocol(s, step);
    assert s1.bus[|s.bus|].subject.Sync?;
    var rest := ToSync(s1, v);
    run := [step] + rest;
    assert run[1..] == rest;
  }
}
