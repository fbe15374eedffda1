/** What reaches the callbacks of the stream client, in every interleaving. */
module StreamTheorems {
  import opened Messages
  import opened StreamClient
  import opened StreamInvariants
  import opened StreamDelivery

  lemma Recorded(run: seq<Step>) returns (s: State)
    requires Legal(Init(), run)
    ensures s == After(Init(), run) && ProtocolInv(s) && HistoryInv(s)
  {
    s := After(Init(), run);
    RunKeepsProtocol(Init(), run);
    RunKeepsHistory(Init(), run);
  }

  /** In every interleaving, what a callback has been given is a contiguous part of the dispatch log:
      from where the log stood when it was inserted to where the log stood when it was erased, or to
      the end of the log (short of the entry under dispatch, until the callback's turn has come). */
  lemma DeliveredIsAWindow(run: seq<Step>, n: nat)
    requires Legal(Init(), run) && n < |After(Init(), run).hist.subs|
    ensures var s := After(Init(), run);
      var sub := s.hist.subs[n];
      var to := Served(sub, |s.hist.log|, Position(s));
      && sub.first <= to <= |s.hist.log|
      && Delivered(s.hist.calls, n) == s.hist.log[sub.first..to]
      && (!s.mutex.HeldBy? ==> to == if sub.end.Some? then sub.end.value else |s.hist.log|)
  {
    var s := Recorded(run);
    assert Window(s.hist, Position(s), n);
  }

  /** Callbacks are called message by message, and within a message in ascending order of id: no
      callback gets an entry of the dispatch log twice. */
  lemma CallsAreOrdered(run: seq<Step>, i: nat, j: nat)
    requires Legal(Init(), run) && i < j < |After(Init(), run).hist.calls|
    ensures var h := After(Init(), run).hist;
      && Before(h.calls[i], h.calls[j])
      && h.calls[i].index < |h.log| && h.calls[i].payload == h.log[h.calls[i].index]
  {
    var s := Recorded(run);
    assert CallFits(s.hist, Position(s), s.hist.calls[i]);
  }

  /** The history is only ever appended to, and a closed subscription stays as it is. */
  predicate Extends(h: History, h': History) {
    && h.log <= h'.log && h.calls <= h'.calls && |h.subs| <= |h'.subs|
    && (forall n :: 0 <= n < |h.subs| ==>
          && h'.subs[n].id == h.subs[n].id && h'.subs[n].first == h.subs[n].first
          && (h.subs[n].end.Some? ==> h'.subs[n] == h.subs[n]))
  }

  lemma CloseExtends(h: History, n: nat)
    requires n < |h.subs| && h.subs[n].end.None?
    ensures Extends(h, Closed(h, n))
  {
  }

  lemma CallerExtends(s: State, c: CallerStep)
    requires HistoryInv(s) && CallerEnabled(s, c)
    ensures Extends(s.hist, CallerApply(s, c).hist)
  {
    match c
    case SubscribeLock =>
      if s.counter in s.callbacks { CloseExtends(s.hist, s.callbacks[s.counter]); }
    case UnsubscribeErase =>
      if s.caller.id in s.callbacks { CloseExtends(s.hist, s.callbacks[s.caller.id]); }
    case _ =>
  }

  lemma StepExtends(s: State, step: Step)
    requires HistoryInv(s) && Enabled(s, step)
    ensures Extends(s.hist, Apply(s, step).hist)
  {
    if step.ByCaller? {
      CallerExtends(s, step.c);
    }
  }

  lemma {:induction false} RunExtends(s: State, run: seq<Step>)
    requires ProtocolInv(s) && HistoryInv(s) && Legal(s, run)
    ensures Extends(s.hist, After(s, run).hist)
    decreases run
  {
    if run != [] {
      var s1 := Apply(s, run[0]);
      StepExtends(s, run[0]);
      StepKeepsHistory(s, run[0]);
      StepKeepsProtocol(s, run[0]);
      RunExtends(s1, run[1..]);
    }
  }

  /** What is known of a state that the run has reached by inserting subscription `n`, of one it has
      reached by erasing it, and of any state later on. */
  lemma WindowOfOne(s0: State, s1: State, s2: State, s3: State, s4: State, n: nat)
    requires s1.hist == Insert(s0).hist && n == |s0.hist.subs|
    requires n < |s2.hist.subs| && s3.hist == Closed(s2.hist, n)
    requires Extends(s1.hist, s2.hist) && Extends(s3.hist, s4.hist) && HistoryInv(s4)
    ensures |s0.hist.log| <= |s2.hist.log| <= |s4.hist.log|
    ensures Delivered(s4.hist.calls, n) == s4.hist.log[|s0.hist.log|..|s2.hist.log|]
  {
    assert s1.hist.subs[n].first == |s0.hist.log|;
    assert s3.hist.subs[n].end == Some(|s2.hist.log|);
    assert Window(s4.hist, Position(s4), n);
  }

  /** The window of one subscription, told by the steps that open and close it: `before` leads up to
      the insertion under the mutex, `between` to the erasure, and then anything may follow. The
      callback gets exactly what was dispatched between the two. */
  lemma WindowBetween(before: seq<Step>, between: seq<Step>, rest: seq<Step>)
    requires Legal(Init(), before) && CallerEnabled(After(Init(), before), SubscribeLock)
    requires Legal(CallerApply(After(Init(), before), SubscribeLock), between)
    requires var s0 := After(Init(), before);
      var s2 := After(CallerApply(s0, SubscribeLock), between);
      && CallerEnabled(s2, UnsubscribeErase) && Legal(CallerApply(s2, UnsubscribeErase), rest)
      && s2.caller.id in s2.callbacks && s2.callbacks[s2.caller.id] == |s0.hist.subs|
    ensures var s0 := After(Init(), before);
      var s2 := After(CallerApply(s0, SubscribeLock), between);
      var s4 := After(CallerApply(s2, UnsubscribeErase), rest);
      && |s0.hist.log| <= |s2.hist.log| <= |s4.hist.log|
      && Delivered(s4.hist.calls, |s0.hist.subs|) == s4.hist.log[|s0.hist.log|..|s2.hist.log|]
  {
    var s0 := Recorded(before);
    var s1 := CallerApply(s0, SubscribeLock);
    StepKeepsHistory(s0, ByCaller(SubscribeLock));
    StepKeepsProtocol(s0, ByCaller(SubscribeLock));
    var s2 := Follow(s1, between);
    var s3 := CallerApply(s2, UnsubscribeErase);
    StepKeepsHistory(s2, ByCaller(UnsubscribeErase));
    StepKeepsProtocol(s2, ByCaller(UnsubscribeErase));
    var s4 := Follow(s3, rest);
    assert |s1.hist.subs| == |s0.hist.subs| + 1;
    WindowOfOne(s0, s1, s2, s3, s4, |s0.hist.subs|);
  }

  lemma Follow(s: State, run: seq<Step>) returns (s': State)
    requires ProtocolInv(s) && HistoryInv(s) && Legal(s, run)
    ensures s' == After(s, run) && ProtocolInv(s') && HistoryInv(s') && Extends(s.hist, s'.hist)
  {
    s' := After(s, run);
    RunKeepsProtocol(s, run);
    RunKeepsHistory(s, run);
    RunExtends(s, run);
  }

  /** Two subscriptions share an id exactly if they are a multiple of 2^32 subscriptions apart. */
  lemma SameIdIff(subs: seq<Subscription>, n: nat, m: nat)
    requires Numbered(subs) && n < m < |subs|
    ensures subs[n].id == subs[m].id <==> (m - n) % UINT32_VALUES == 0
    ensures subs[n].id == subs[m].id ==> m - n >= UINT32_VALUES
  {
    Congruent(n + 1, m + 1);
  }

  lemma Congruent(n: nat, m: nat)
    requires n < m
    ensures n % UINT32_VALUES == m % UINT32_VALUES <==> (m - n) % UINT32_VALUES == 0
    ensures n % UINT32_VALUES == m % UINT32_VALUES ==> m - n >= UINT32_VALUES
  {
  }

  /** So two of the first 2^32 subscriptions never share one. */
  lemma IdsAreDistinct(subs: seq<Subscription>, n: nat, m: nat)
    requires Numbered(subs) && n < |subs| && m < |subs| <= UINT32_VALUES
    requires subs[n].id == subs[m].id
    ensures n == m
  {
    if n < m { SameIdIff(subs, n, m); }
    if m < n { SameIdIff(subs, m, n); }
  }

  /** A call made in a run is to a subscription that was open at its beginning, or is newer. */
  lemma {:induction false} CalledWasOpen(s: State, run: seq<Step>, i: nat)
    requires ProtocolInv(s) && HistoryInv(s) && Legal(s, run)
    requires |s.hist.calls| <= i < |After(s, run).hist.calls|
    ensures var m := After(s, run).hist.calls[i].sub; m < |s.hist.subs| ==> s.hist.subs[m].end.None?
    decreases run
  {
    if run != [] {
      var s1 := Apply(s, run[0]);
      StepKeepsHistory(s, run[0]);
      StepKeepsProtocol(s, run[0]);
      StepExtends(s, run[0]);
      var s2 := Follow(s1, run[1..]);
      if i < |s1.hist.calls| {
        assert s1.hist.calls[i] == s2.hist.calls[i];
        NextCallIsOpen(s, run[0], i);
      } else {
        CalledWasOpen(s1, run[1..], i);
      }
    }
  }

  lemma CallHasId(s: State, i: nat)
    requires HistoryInv(s) && i < |s.hist.calls|
    ensures var call := s.hist.calls[i]; call.sub < |s.hist.subs| && s.hist.subs[call.sub].id == call.id
  {
    assert CallFits(s.hist, Position(s), s.hist.calls[i]);
  }

  /** Under an id that is not registered no old subscription is open. */
  lemma OnlyNewer(s: State, h: History, id: nat, m: nat)
    requires Registry(s.hist.subs, s.callbacks) && id !in s.callbacks && Extends(s.hist, h)
    requires m < |h.subs| && h.subs[m].id == id && (m < |s.hist.subs| ==> s.hist.subs[m].end.None?)
    ensures |s.hist.subs| <= m
  {
  }

  /** What a run from `s` leaves to be known of the calls it makes. */
  predicate CallOfRun(s: State, h: History, call: Call) {
    && Registry(s.hist.subs, s.callbacks) && Extends(s.hist, h) && Numbered(h.subs)
    && call.sub < |h.subs| && h.subs[call.sub].id == call.id
    && (call.sub < |s.hist.subs| ==> s.hist.subs[call.sub].end.None?)
  }

  lemma MadeInRun(before: seq<Step>, rest: seq<Step>, i: nat)
    requires Legal(Init(), before) && Legal(After(Init(), before), rest)
    requires |After(Init(), before).hist.calls| <= i < |After(After(Init(), before), rest).hist.calls|
    ensures var h := After(After(Init(), before), rest).hist; CallOfRun(After(Init(), before), h, h.calls[i])
  {
    var s := Recorded(before);
    var s' := Follow(s, rest);
    CalledWasOpen(s, rest, i);
    CallHasId(s', i);
  }

  lemma ReusedLater(s: State, h: History, call: Call, n: nat)
    requires CallOfRun(s, h, call) && n < |s.hist.subs|
    requires call.id == s.hist.subs[n].id && call.id !in s.callbacks
    ensures |s.hist.subs| <= call.sub < |h.subs|
    ensures (call.sub - n) % UINT32_VALUES == 0 && call.sub - n >= UINT32_VALUES
  {
    OnlyNewer(s, h, call.id, call.sub);
    SameIdIff(h.subs, n, call.sub);
  }

  /** Once `unsubscribe(id)` has erased it, whatever the listener was doing then and whatever happens
      later: if `id` is ever called again, the call is for a later subscription, a multiple of 2^32
      subscriptions after the one that had the id. */
  lemma CalledAgainOnlyWhenReused(before: seq<Step>, rest: seq<Step>, n: nat, i: nat)
    requires Legal(Init(), before) && Legal(After(Init(), before), rest)
    requires n < |After(Init(), before).hist.subs|
    requires After(Init(), before).hist.subs[n].id !in After(Init(), before).callbacks
    requires |After(Init(), before).hist.calls| <= i < |After(After(Init(), before), rest).hist.calls|
    ensures var s, s' := After(Init(), before), After(After(Init(), before), rest);
      var call := s'.hist.calls[i];
      call.id == s.hist.subs[n].id ==>
        && |s.hist.subs| <= call.sub < |s'.hist.subs|
        && (call.sub - n) % UINT32_VALUES == 0 && call.sub - n >= UINT32_VALUES
  {
    var s, h := After(Init(), before), After(After(Init(), before), rest).hist;
    MadeInRun(before, rest, i);
    if h.calls[i].id == s.hist.subs[n].id { ReusedLater(s, h, h.calls[i], n); }
  }

  /** So up to 2^32 subscriptions in all it is never called again. */
  lemma NeverCalledAgain(before: seq<Step>, rest: seq<Step>, n: nat, i: nat)
    requires Legal(Init(), before) && Legal(After(Init(), before), rest)
    requires n < |After(Init(), before).hist.subs|
    requires After(Init(), before).hist.subs[n].id !in After(Init(), before).callbacks
    requires |After(After(Init(), before), rest).hist.subs| <= UINT32_VALUES
    requires |After(Init(), before).hist.calls| <= i < |After(After(Init(), before), rest).hist.calls|
    ensures After(After(Init(), before), rest).hist.calls[i].id != After(Init(), before).hist.subs[n].id
  {
    CalledAgainOnlyWhenReused(before, rest, n, i);
  }

  /** A step makes at most one call, and that to the callback of an open subscription. */
  lemma NextCallIsOpen(s: State, step: Step, i: nat)
    requires Registry(s.hist.subs, s.callbacks) && Enabled(s, step)
    requires |s.hist.calls| <= i < |Apply(s, step).hist.calls|
    ensures var call := Apply(s, step).hist.calls[i];
      i == |s.hist.calls| && call.sub < |s.hist.subs| &&
      s.hist.subs[call.sub].end.None? && s.hist.subs[call.sub].id == call.id
  {
    match step
    case ByCaller(c) => CallerMakesNoCall(s, c);
    case OnBus(_) =>
    case ByListener(_, _) =>
  }

  lemma CallerMakesNoCall(s: State, c: CallerStep)
    requires CallerEnabled(s, c)
    ensures CallerApply(s, c).hist.calls == s.hist.calls
  {
  }

  // ---------------------------------------------------------------- throwing callbacks

  function Calm(step: Step): Step {
    if step.ByListener? && step.l.Invoke? then ByListener(step.t, Invoke(step.l.id, false)) else step
  }

  function CalmCalls(calls: seq<Call>): (r: seq<Call>)
    ensures |r| == |calls|
  {
    seq(|calls|, i requires 0 <= i < |calls| => calls[i].(threw := false))
  }

  /** A state without the record of which calls threw. */
  function Calmed(s: State): State {
    s.(hist := s.hist.(calls := CalmCalls(s.hist.calls)))
  }

  lemma CalmCaller(s: State, c: CallerStep)
    ensures CallerEnabled(Calmed(s), c) == CallerEnabled(s, c)
    ensures CallerEnabled(s, c) ==> CallerApply(Calmed(s), c) == Calmed(CallerApply(s, c))
  {
  }

  lemma CalmListener(s: State, t: nat, l: ListenerStep)
    requires !l.Invoke?
    ensures ListenerEnabled(Calmed(s), t, l) == ListenerEnabled(s, t, l)
    ensures ListenerEnabled(s, t, l) ==> ListenerApply(Calmed(s), t, l) == Calmed(ListenerApply(s, t, l))
  {
  }

  lemma CalmInvoke(s: State, t: nat, id: nat, threw: bool)
    ensures ListenerEnabled(Calmed(s), t, Invoke(id, false)) == ListenerEnabled(s, t, Invoke(id, threw))
    ensures ListenerEnabled(s, t, Invoke(id, threw)) ==>
      ListenerApply(Calmed(s), t, Invoke(id, false)) == Calmed(ListenerApply(s, t, Invoke(id, threw)))
  {
    if ListenerEnabled(s, t, Invoke(id, threw)) {
      var s' := ListenerApply(s, t, Invoke(id, threw));
      var n := |s.hist.calls|;
      assert CalmCalls(s'.hist.calls) == CalmCalls(s.hist.calls) + [s'.hist.calls[n].(threw := false)];
    }
  }

  lemma CalmStep(s: State, step: Step)
    ensures Enabled(Calmed(s), Calm(step)) == Enabled(s, step)
    ensures Enabled(s, step) ==> Apply(Calmed(s), Calm(step)) == Calmed(Apply(s, step))
  {
    match step
    case ByCaller(c) => CalmCaller(s, c);
    case OnBus(b) =>
    case ByListener(t, l) =>
      if l.Invoke? { CalmInvoke(s, t, l.id, l.threw); } else { CalmListener(s, t, l); }
  }

  /** A callback that throws disturbs nothing: two runs that differ only in which calls threw are
      equally possible and end alike, every other callback having been called with the same payloads
      in the same order. */
  lemma {:induction false} ThrowingDisturbsNothing(s1: State, s2: State, run1: seq<Step>, run2: seq<Step>)
    requires Calmed(s1) == Calmed(s2) && |run1| == |run2| && Legal(s1, run1)
    requires forall i :: 0 <= i < |run1| ==> Calm(run1[i]) == Calm(run2[i])
    ensures Legal(s2, run2) && Calmed(After(s1, run1)) == Calmed(After(s2, run2))
    decreases run1
  {
    if run1 != [] {
      CalmStep(s1, run1[0]);
      CalmStep(s2, run2[0]);
      ThrowingDisturbsNothing(Apply(s1, run1[0]), Apply(s2, run2[0]), run1[1..], run2[1..]);
    }
  }
}
