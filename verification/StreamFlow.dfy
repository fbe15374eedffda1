/** What becomes of a published message: every listener dispatches the stream as it is, and when a SYNC
    is among what it dispatches. */
module StreamFlow {
  import opened Messages
  import opened StreamClient
  import opened StreamInvariants
  import opened StreamProtocol

  // ------------------------------------------------------------------ nothing is lost

  function Payloads(msgs: seq<StreamMsg>): (r: seq<Payload>)
    ensures |r| == |msgs|
  {
    seq(|msgs|, i requires 0 <= i < |msgs| => CStrs(msgs[i].frames))
  }

  lemma PayloadsAppend(a: seq<StreamMsg>, b: seq<StreamMsg>)
    ensures Payloads(a + b) == Payloads(a) + Payloads(b)
  {
  }

  /** What the listener has taken from its client and not yet dispatched. */
  function InHand(th: Thread): seq<Payload> {
    match th.pc
    case Received(msg) => [CStrs(msg.frames)]
    case Checked(_, payload) => [payload]
    case _ => []
  }

  function Ahead(th: Thread): seq<Payload> {
    InHand(th) + Payloads(th.inbox)
  }

  /** The dispatch log and what thread `v` is about to add to it. */
  function Flow(s: State, v: nat): seq<Payload>
    requires v < |s.threads|
  {
    s.hist.log + Ahead(s.threads[v])
  }

  /** What a step delivers to thread `v`. */
  function Routed(s: State, step: Step, v: nat): seq<StreamMsg> {
    if step == OnBus(Route) && s.bus != [] && v < |s.threads| && s.threads[v].consumer then [s.bus[0]] else []
  }

  function RoutedTo(s: State, run: seq<Step>, v: nat): seq<StreamMsg>
    requires Legal(s, run)
    decreases run
  {
    if run == [] then [] else Routed(s, run[0], v) + RoutedTo(Apply(s, run[0]), run[1..], v)
  }

  predicate Alive(s: State, v: nat) {
    v < |s.threads| && !s.threads[v].pc.Done?
  }

  lemma TakenFromInbox(inbox: seq<StreamMsg>)
    requires inbox != []
    ensures Payloads(inbox) == [CStrs(inbox[0].frames)] + Payloads(inbox[1..])
  {
  }

  lemma ThreadFlows(s: State, v: nat, l: ListenerStep)
    requires ListenerEnabled(s, v, l) && !ThreadApply(s, v, l).pc.Done?
    ensures Ahead(s.threads[v]) ==
            (if l.Lock? then [s.threads[v].pc.payload] else []) + Ahead(ThreadApply(s, v, l))
  {
    var th := s.threads[v];
    match l
    case Receive => TakenFromInbox(th.inbox);
    case Lock => assert InHand(ThreadApply(s, v, l)) == [];
    case _ =>
  }

  /** A step of the listener moves at most one payload, from one place to the next. */
  lemma ListenerFlows(s: State, v: nat, l: ListenerStep)
    requires ListenerEnabled(s, v, l)
    ensures var s' := ListenerApply(s, v, l);
      if Alive(s', v) then Flow(s', v) == Flow(s, v) else s'.hist.log == s.hist.log
  {
    var s' := ListenerApply(s, v, l);
    assert s'.threads[v] == ThreadApply(s, v, l);
    if Alive(s', v) {
      ThreadFlows(s, v, l);
      var moved := if l.Lock? then [s.threads[v].pc.payload] else [];
      assert s'.hist.log == s.hist.log + moved;
      assert s.hist.log + (moved + Ahead(s'.threads[v])) == (s.hist.log + moved) + Ahead(s'.threads[v]);
    }
  }

  lemma CallerFlows(s: State, c: CallerStep, v: nat)
    requires CallerEnabled(s, c) && v < |s.threads|
    ensures var s' := CallerApply(s, c);
      v < |s'.threads| && s'.threads[v] == s.threads[v] && s'.hist.log == s.hist.log
  {
  }

  lemma RouteFlows(s: State, v: nat)
    requires s.bus != [] && v < |s.threads|
    ensures Flow(BusApply(s, Route), v) == Flow(s, v) + Payloads(Routed(s, OnBus(Route), v))
  {
    if s.threads[v].consumer {
      PayloadsAppend(s.threads[v].inbox, [s.bus[0]]);
    }
  }

  lemma BusFlows(s: State, b: BusStep, v: nat)
    requires BusEnabled(s, b) && v < |s.threads|
    ensures var s' := BusApply(s, b);
      s'.hist.log == s.hist.log && Flow(s', v) == Flow(s, v) + Payloads(Routed(s, OnBus(b), v))
  {
    if b.Route? {
      RouteFlows(s, v);
    } else {
      assert Flow(s, v) == Flow(s, v) + Payloads([]);
    }
  }

  lemma NotRouted(flow: seq<Payload>)
    ensures flow + Payloads([]) == flow
  {
  }

  lemma StepFlows(s: State, step: Step, v: nat)
    requires ThreadsInv(s) && s.handle == Some(v) && Enabled(s, step)
    ensures var s' := Apply(s, step);
      && v < |s'.threads|
      && (if Alive(s', v) then Flow(s', v) == Flow(s, v) + Payloads(Routed(s, step, v))
          else s'.hist.log == s.hist.log)
  {
    NotRouted(Flow(s, v));
    match step
    case ByCaller(c) => CallerFlows(s, c, v);
    case OnBus(b) => BusFlows(s, b, v);
    case ByListener(t, l) => ListenerFlows(s, v, l);
  }

  /** A dead thread takes nothing and dispatches nothing. */
  lemma DeadStep(s: State, step: Step, v: nat)
    requires ThreadsInv(s) && s.handle == Some(v) && !Alive(s, v) && Enabled(s, step)
    ensures var s' := Apply(s, step);
      v < |s'.threads| && !Alive(s', v) && s'.hist.log == s.hist.log && Routed(s, step, v) == []
  {
    StepFlows(s, step, v);
    if step.ByCaller? { CallerFlows(s, step.c, v); }
  }

  lemma {:induction false} DeadRun(s: State, run: seq<Step>, v: nat)
    requires ProtocolInv(s) && s.handle == Some(v) && !Alive(s, v)
    requires Legal(s, run) && After(s, run).handle == Some(v)
    ensures v < |After(s, run).threads| && !Alive(After(s, run), v)
    ensures After(s, run).hist.log == s.hist.log && RoutedTo(s, run, v) == []
    decreases run
  {
    if run != [] {
      var s1 := Apply(s, run[0]);
      DeadStep(s, run[0], v);
      StepKeepsProtocol(s, run[0]);
      if s1.handle != Some(v) {
        PastForGood(s1, run[1..], v);
      }
      DeadRun(s1, run[1..], v);
    }
  }

  lemma Regroup(flow: seq<Payload>, first: seq<StreamMsg>, rest: seq<StreamMsg>)
    ensures flow + Payloads(first + rest) == (flow + Payloads(first)) + Payloads(rest)
  {
    PayloadsAppend(first, rest);
  }

  lemma FlowsOn(s: State, run: seq<Step>, v: nat)
    requires ThreadsInv(s) && s.handle == Some(v) && Legal(s, run) && run != []
    requires v < |Apply(s, run[0]).threads| && Alive(Apply(s, run[0]), v)
    ensures var s1 := Apply(s, run[0]);
      Flow(s1, v) + Payloads(RoutedTo(s1, run[1..], v)) == Flow(s, v) + Payloads(RoutedTo(s, run, v))
  {
    StepFlows(s, run[0], v);
    Regroup(Flow(s, v), Routed(s, run[0], v), RoutedTo(Apply(s, run[0]), run[1..], v));
  }

  lemma {:induction false} FlowsAlong(s: State, run: seq<Step>, v: nat)
    requires ProtocolInv(s) && s.handle == Some(v) && Alive(s, v)
    requires Legal(s, run) && After(s, run).handle == Some(v)
    ensures Kept(After(s, run), v, Flow(s, v) + Payloads(RoutedTo(s, run, v)))
    decreases run
  {
    if run != [] {
      var s1 := Apply(s, run[0]);
      StepKeepsProtocol(s, run[0]);
      StepFlows(s, run[0], v);
      if s1.handle != Some(v) {
        PastForGood(s1, run[1..], v);
      }
      if Alive(s1, v) {
        FlowsAlong(s1, run[1..], v);
        FlowsOn(s, run, v);
      } else {
        DeadRun(s1, run[1..], v);
      }
    }
  }

  /** Of `all` that has come to thread `v` a part from the front has been dispatched, and while the
      thread is alive the rest is what it has in hand and in its inbox. */
  predicate Kept(s: State, v: nat, all: seq<Payload>) {
    v < |s.threads| && s.hist.log <= all && (Alive(s, v) ==> Flow(s, v) == all)
  }

  /** Over every run, as long as thread `v` is the joinable one: what has been dispatched is, payload by
      payload, what had been and then what came to it, from the front; and while it has not left its
      loop, what is missing is what it has in hand and in its inbox. Nothing is lost, repeated or
      reordered between its client and the callbacks. */
  lemma NothingLost(s: State, run: seq<Step>, v: nat)
    requires ProtocolInv(s) && s.handle == Some(v)
    requires Legal(s, run) && After(s, run).handle == Some(v)
    ensures Kept(After(s, run), v, Flow(s, v) + Payloads(RoutedTo(s, run, v)))
  {
    if Alive(s, v) {
      FlowsAlong(s, run, v);
    } else {
      DeadRun(s, run, v);
    }
  }

  /** What a step publishes on the stream: the message of another client, or the caller's own SYNC. */
  function PublishedBy(step: Step): seq<StreamMsg> {
    match step
    case ByCaller(SyncPublish) => [StreamMsg(Sync, [])]
    case OnBus(Publish(msg)) => [msg]
    case _ => []
  }

  function Published(run: seq<Step>): seq<StreamMsg> {
    if run == [] then [] else PublishedBy(run[0]) + Published(run[1..])
  }

  lemma StepPublishes(s: State, step: Step, v: nat)
    requires ThreadsInv(s) && s.handle == Some(v) && s.threads[v].consumer && Enabled(s, step)
    ensures Routed(s, step, v) + Apply(s, step).bus == s.bus + PublishedBy(step)
    ensures v < |Apply(s, step).threads|
    ensures Apply(s, step).threads[v].consumer <==> Alive(Apply(s, step), v)
  {
    match step
    case ByCaller(c) => CallerFlows(s, c, v); CallerPublishes(s, c);
    case OnBus(_) =>
    case ByListener(_, _) =>
  }

  lemma CallerPublishes(s: State, c: CallerStep)
    requires CallerEnabled(s, c)
    ensures CallerApply(s, c).bus == s.bus + PublishedBy(ByCaller(c))
  {
  }

  /** What comes to a consumer is what was waiting for the broker and what is published, in order; while
      it is alive what is missing still waits for the broker. */
  lemma {:induction false} RoutedIsPublished(s: State, run: seq<Step>, v: nat)
    requires ProtocolInv(s) && s.handle == Some(v) && s.threads[v].consumer
    requires Legal(s, run) && After(s, run).handle == Some(v)
    ensures RoutedTo(s, run, v) <= s.bus + Published(run)
    ensures Alive(After(s, run), v) ==> RoutedTo(s, run, v) + After(s, run).bus == s.bus + Published(run)
    decreases run
  {
    if run != [] {
      var s1, step := Apply(s, run[0]), run[0];
      StepKeepsProtocol(s, step);
      StepPublishes(s, step, v);
      if s1.handle != Some(v) {
        PastForGood(s1, run[1..], v);
      }
      if Alive(s1, v) {
        RoutedIsPublished(s1, run[1..], v);
        Shift(Routed(s, step, v), s1.bus, s.bus, PublishedBy(step), Published(run[1..]),
              RoutedTo(s1, run[1..], v), After(s, run).bus);
      } else {
        DeadRun(s1, run[1..], v);
      }
    }
  }

  lemma Shift(routed: seq<StreamMsg>, bus1: seq<StreamMsg>, bus: seq<StreamMsg>, first: seq<StreamMsg>,
              rest: seq<StreamMsg>, more: seq<StreamMsg>, bus2: seq<StreamMsg>)
    requires routed + bus1 == bus + first && more <= bus1 + rest
    ensures routed + more <= bus + (first + rest)
    ensures more + bus2 == bus1 + rest ==> (routed + more) + bus2 == bus + (first + rest)
  {
    var all := bus + (first + rest);
    assert all == (routed + bus1) + rest == routed + (bus1 + rest);
    assert routed + more <= all;
    if more + bus2 == bus1 + rest {
      assert (routed + more) + bus2 == routed + (more + bus2);
    }
  }

  /** From publication to dispatch: from the moment thread `v` becomes a consumer of the stream, what it
      dispatches is what was waiting for the broker then and what is published from then on, payload by
      payload, from the front; while it has not left its loop the rest is in its hand, in its inbox and
      with the broker. */
  lemma PublishedIsDispatched(before: seq<Step>, run: seq<Step>, v: nat)
    requires Legal(Init(), before) && ListenerEnabled(After(Init(), before), v, Connect)
    requires Legal(ListenerApply(After(Init(), before), v, Connect), run)
    requires After(ListenerApply(After(Init(), before), v, Connect), run).handle == Some(v)
    ensures var s1 := ListenerApply(After(Init(), before), v, Connect);
      var s2 := After(s1, run);
      var all := Payloads(s1.bus + Published(run));
      && v < |s2.threads| && s1.hist.log <= s2.hist.log
      && var dispatched := s2.hist.log[|s1.hist.log|..];
      && dispatched <= all
      && (Alive(s2, v) ==> dispatched + Ahead(s2.threads[v]) + Payloads(s2.bus) == all)
  {
    var s := Reached(before);
    var s1 := ListenerApply(s, v, Connect);
    StepKeepsProtocol(s, ByListener(v, Connect));
    NothingLost(s1, run, v);
    RoutedIsPublished(s1, run, v);
    LogGrows(s1, run);
    var s2, routed := After(s1, run), RoutedTo(s1, run, v);
    assert Flow(s1, v) == s1.hist.log;
    Cut(s1.hist.log, s2.hist.log, Ahead(s2.threads[v]), Payloads(routed));
    PayloadsOfParts(routed, s2.bus, s1.bus + Published(run));
  }

  lemma Cut(log1: seq<Payload>, log2: seq<Payload>, ahead: seq<Payload>, all: seq<Payload>)
    requires log1 <= log2 <= log1 + all
    ensures log2[|log1|..] <= all
    ensures log2 + ahead == log1 + all ==> log2[|log1|..] + ahead == all
  {
    assert log1 + all[..|log2| - |log1|] == log2;
    if log2 + ahead == log1 + all {
      assert (log1 + all)[|log1|..] == all;
      assert (log2 + ahead)[|log1|..] == log2[|log1|..] + ahead;
    }
  }

  lemma PayloadsOfParts(routed: seq<StreamMsg>, bus: seq<StreamMsg>, all: seq<StreamMsg>)
    requires routed <= all
    ensures Payloads(routed) <= Payloads(all)
    ensures routed + bus == all ==> Payloads(routed) + Payloads(bus) == Payloads(all)
  {
    PayloadsAppend(routed, bus);
    PayloadsAppend(routed, all[|routed|..]);
    assert routed + all[|routed|..] == all;
  }

  lemma {:induction false} LogGrows(s: State, run: seq<Step>)
    requires Legal(s, run)
    ensures s.hist.log <= After(s, run).hist.log
    decreases run
  {
    if run != [] {
      StepLogs(s, run[0]);
      LogGrows(Apply(s, run[0]), run[1..]);
    }
  }

  lemma CallerLogs(s: State, c: CallerStep)
    requires CallerEnabled(s, c)
    ensures CallerApply(s, c).hist.log == s.hist.log
  {
  }

  lemma StepLogs(s: State, step: Step)
    requires Enabled(s, step)
    ensures s.hist.log <= Apply(s, step).hist.log
  {
    match step
    case ByCaller(c) => CallerLogs(s, c);
    case OnBus(_) =>
    case ByListener(_, _) =>
  }
}
