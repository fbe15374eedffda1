/** Which payloads reach which callback, over whole runs of the stream client. */
module StreamDelivery {
  import opened Messages
  import opened StreamClient
  import opened StreamInvariants

  /** The payloads the callback of subscription `n` was called with, in order. */
  function Delivered(calls: seq<Call>, n: nat): seq<Payload> {
    if calls == [] then []
    else
      var last := calls[|calls| - 1];
      Delivered(calls[..|calls| - 1], n) + (if last.sub == n then [last.payload] else [])
  }

  lemma DeliveredNext(calls: seq<Call>, call: Call, n: nat)
    ensures Delivered(calls + [call], n) ==
            Delivered(calls, n) + (if call.sub == n then [call.payload] else [])
  {
    assert (calls + [call])[..|calls|] == calls;
  }

  /** The ids below this one have had their turn in the dispatch under way. */
  function Position(s: State): Option<nat> {
    if s.mutex.HeldBy? && s.mutex.thread < |s.threads| && s.threads[s.mutex.thread].pc.Dispatching?
    then Some(s.threads[s.mutex.thread].pc.from) else None
  }

  /** Up to where in a dispatch log of length `len` subscription `sub` has been served. */
  function Served(sub: Subscription, len: nat, pos: Option<nat>): int {
    if sub.end.Some? then sub.end.value
    else if pos.Some? && pos.value <= sub.id then len - 1
    else len
  }

  /** m_callbacks and the open subscriptions describe each other. */
  predicate Registry(subs: seq<Subscription>, callbacks: map<nat, nat>) {
    && (forall n :: 0 <= n < |subs| && subs[n].end.None? ==>
          subs[n].id in callbacks && callbacks[subs[n].id] == n)
    && (forall id :: id in callbacks ==>
          callbacks[id] < |subs| && subs[callbacks[id]].id == id && subs[callbacks[id]].end.None?)
  }

  /** Ids are given out by counting modulo 2^32. */
  predicate Numbered(subs: seq<Subscription>) {
    forall n :: 0 <= n < |subs| ==> subs[n].id == (n + 1) % UINT32_VALUES
  }

  predicate Window(h: History, pos: Option<nat>, n: nat)
    requires n < |h.subs|
  {
    var sub := h.subs[n];
    var to := Served(sub, |h.log|, pos);
    sub.first <= to <= |h.log| && Delivered(h.calls, n) == h.log[sub.first..to]
  }

  predicate Windows(h: History, pos: Option<nat>) {
    forall n :: 0 <= n < |h.subs| ==> Window(h, pos, n)
  }

  predicate Before(a: Call, b: Call) {
    a.index < b.index || (a.index == b.index && a.id < b.id)
  }

  predicate CallFits(h: History, pos: Option<nat>, call: Call) {
    && call.index < |h.log| && call.payload == h.log[call.index]
    && call.sub < |h.subs| && h.subs[call.sub].id == call.id
    && (pos.Some? && call.index == |h.log| - 1 ==> call.id < pos.value)
  }

  predicate CallsFit(h: History, pos: Option<nat>) {
    && (forall i, j :: 0 <= i < j < |h.calls| ==> Before(h.calls[i], h.calls[j]))
    && (forall i :: 0 <= i < |h.calls| ==> CallFits(h, pos, h.calls[i]))
  }

  predicate HistoryInv(s: State) {
    && s.counter == (|s.hist.subs| + if s.caller.SubEntered? then 1 else 0) % UINT32_VALUES
    && Numbered(s.hist.subs)
    && Registry(s.hist.subs, s.callbacks)
    && Windows(s.hist, Position(s))
    && CallsFit(s.hist, Position(s))
    && (Position(s).Some? ==>
          s.hist.log != [] && s.hist.log[|s.hist.log| - 1] == s.threads[s.mutex.thread].pc.payload)
  }

  // ---- what the two critical sections of the caller do to the history

  function Closed(h: History, n: nat): History {
    h.(subs := Close(h.subs, n, |h.log|))
  }

  lemma CloseKeeps(h: History, callbacks: map<nat, nat>, id: nat)
    requires id in callbacks && Registry(h.subs, callbacks) && Numbered(h.subs)
    requires Windows(h, None) && CallsFit(h, None)
    ensures var h' := Closed(h, callbacks[id]);
      && Registry(h'.subs, callbacks - {id}) && Numbered(h'.subs)
      && Windows(h', None) && CallsFit(h', None)
  {
    var h' := Closed(h, callbacks[id]);
    forall n | 0 <= n < |h'.subs|
      ensures Window(h', None, n)
    {
      assert Window(h, None, n);
    }
    forall i | 0 <= i < |h'.calls|
      ensures CallFits(h', None, h'.calls[i])
    {
      assert CallFits(h, None, h.calls[i]);
    }
  }

  function Opened(h: History, id: nat): History {
    h.(subs := h.subs + [Subscription(id, |h.log|, None)])
  }

  lemma OpenKeeps(h: History, callbacks: map<nat, nat>, id: nat)
    requires id !in callbacks && Registry(h.subs, callbacks) && Numbered(h.subs)
    requires Windows(h, None) && CallsFit(h, None) && id == (|h.subs| + 1) % UINT32_VALUES
    ensures var h' := Opened(h, id);
      && Registry(h'.subs, callbacks[id := |h.subs|]) && Numbered(h'.subs)
      && Windows(h', None) && CallsFit(h', None)
  {
    var h' := Opened(h, id);
    forall i | 0 <= i < |h'.calls|
      ensures CallFits(h', None, h'.calls[i]) && h'.calls[i].sub != |h.subs|
    {
      assert CallFits(h, None, h.calls[i]);
    }
    forall n | 0 <= n < |h'.subs|
      ensures Window(h', None, n)
    {
      if n < |h.subs| {
        assert Window(h, None, n);
      } else {
        NothingYet(h.calls, n);
      }
    }
  }

  lemma {:induction false} NothingYet(calls: seq<Call>, n: nat)
    requires forall i :: 0 <= i < |calls| ==> calls[i].sub != n
    ensures Delivered(calls, n) == []
  {
    if calls != [] {
      NothingYet(calls[..|calls| - 1], n);
    }
  }

  lemma CounterMoves(count: nat)
    ensures (count % UINT32_VALUES + 1) % UINT32_VALUES == (count + 1) % UINT32_VALUES
  {
  }

  /** A caller step leaves the dispatch under way where it is. */
  lemma CallerPosition(s: State, c: CallerStep)
    requires ThreadsInv(s) && MutexInv(s) && CallerInv(s) && CallerEnabled(s, c)
    ensures Position(CallerApply(s, c)) == Position(s)
    ensures CallerApply(s, c).hist.log == s.hist.log && CallerApply(s, c).hist.calls == s.hist.calls
    ensures Position(s).Some? ==>
      var v := s.mutex.thread;
      CallerApply(s, c).mutex == s.mutex && CallerApply(s, c).threads[v] == s.threads[v]
    ensures c.SubscribeLock? || c.UnsubscribeErase? ==> Position(s) == None
  {
  }

  lemma InsertKeepsHistory(s: State)
    requires HistoryInv(s) && Position(s) == None && s.caller.SubEntered?
    ensures var s' := Insert(s);
      && Registry(s'.hist.subs, s'.callbacks) && Numbered(s'.hist.subs)
      && |s'.hist.subs| == |s.hist.subs| + 1
      && Windows(s'.hist, None) && CallsFit(s'.hist, None)
  {
    var h, cbs := s.hist, s.callbacks;
    if s.counter in s.callbacks {
      CloseKeeps(h, cbs, s.counter);
      h, cbs := Closed(h, cbs[s.counter]), cbs - {s.counter};
    }
    OpenKeeps(h, cbs, s.counter);
    assert cbs[s.counter := |h.subs|] == s.callbacks[s.counter := |h.subs|];
    assert Insert(s).hist == Opened(h, s.counter);
  }

  lemma CallerKeepsHistory(s: State, c: CallerStep)
    requires ThreadsInv(s) && MutexInv(s) && CallerInv(s) && HistoryInv(s) && CallerEnabled(s, c)
    ensures HistoryInv(CallerApply(s, c))
  {
    CallerPosition(s, c);
    match c
    case SubscribeCall =>
      CounterMoves(|s.hist.subs|);
    case SubscribeLock =>
      InsertKeepsHistory(s);
    case UnsubscribeErase =>
      CloseKeeps(s.hist, s.callbacks, s.caller.id);
      assert CallerApply(s, c).hist == Closed(s.hist, s.callbacks[s.caller.id]);
    case _ =>
  }

  // ---- what the listener does to it

  function Logged(h: History, payload: Payload): History {
    h.(log := h.log + [payload])
  }

  lemma LockKeeps(h: History, payload: Payload, pos: Option<nat>)
    requires Windows(h, None) && CallsFit(h, None) && pos == Some(0)
    ensures Windows(Logged(h, payload), pos) && CallsFit(Logged(h, payload), pos)
  {
    var h' := Logged(h, payload);
    forall n | 0 <= n < |h'.subs|
      ensures Window(h', pos, n)
    {
      assert Window(h, None, n);
    }
    forall i | 0 <= i < |h'.calls|
      ensures CallFits(h', pos, h'.calls[i])
    {
      assert CallFits(h, None, h.calls[i]);
    }
  }

  function Called(h: History, call: Call): History {
    h.(calls := h.calls + [call])
  }

  lemma InvokeKeepsWindows(h: History, callbacks: map<nat, nat>, from: nat, call: Call)
    requires Registry(h.subs, callbacks) && Windows(h, Some(from))
    requires IsNext(callbacks, from, call.id) && call.sub == callbacks[call.id]
    requires h.log != [] && call.payload == h.log[|h.log| - 1]
    ensures Windows(Called(h, call), Some(call.id + 1))
  {
    var h' := Called(h, call);
    var pos: Option<nat> := Some(call.id + 1);
    forall n | 0 <= n < |h'.subs|
      ensures Window(h', pos, n)
    {
      assert Window(h, Some(from), n);
      DeliveredNext(h.calls, call, n);
    }
  }

  lemma InvokeKeepsCalls(h: History, callbacks: map<nat, nat>, from: nat, call: Call)
    requires Registry(h.subs, callbacks) && CallsFit(h, Some(from))
    requires IsNext(callbacks, from, call.id) && call.sub == callbacks[call.id]
    requires h.log != [] && call.payload == h.log[|h.log| - 1] && call.index == |h.log| - 1
    ensures CallsFit(Called(h, call), Some(call.id + 1))
  {
    var h' := Called(h, call);
    forall i | 0 <= i < |h.calls|
      ensures CallFits(h', Some(call.id + 1), h.calls[i]) && Before(h.calls[i], call)
    {
      assert CallFits(h, Some(from), h.calls[i]);
    }
    assert CallFits(h', Some(call.id + 1), call);
  }

  lemma UnlockKeeps(h: History, callbacks: map<nat, nat>, from: nat)
    requires Registry(h.subs, callbacks) && Windows(h, Some(from)) && CallsFit(h, Some(from))
    requires forall id :: id in callbacks ==> id < from
    ensures Windows(h, None) && CallsFit(h, None)
  {
    forall n | 0 <= n < |h.subs|
      ensures Window(h, None, n)
    {
      assert Window(h, Some(from), n);
    }
    forall i | 0 <= i < |h.calls|
      ensures CallFits(h, None, h.calls[i])
    {
      assert CallFits(h, Some(from), h.calls[i]);
    }
  }

  lemma ListenerPosition(s: State, t: nat, l: ListenerStep)
    requires ThreadsInv(s) && MutexInv(s) && CallerInv(s) && ListenerEnabled(s, t, l)
    ensures var s' := ListenerApply(s, t, l);
      match l
      case Lock => Position(s) == None && Position(s') == Some(0) && s'.mutex == HeldBy(t)
      case Invoke(id, _) =>
        Position(s) == Some(s.threads[t].pc.from) && Position(s') == Some(id + 1) && s.mutex == s'.mutex == HeldBy(t)
      case Unlock => Position(s) == Some(s.threads[t].pc.from) && Position(s') == None
      case _ => Position(s') == Position(s) &&
                (Position(s).Some? ==> s'.mutex == s.mutex && s'.threads[s.mutex.thread] == s.threads[s.mutex.thread])
  {
  }

  lemma ListenerKeepsHistory(s: State, t: nat, l: ListenerStep)
    requires ThreadsInv(s) && MutexInv(s) && CallerInv(s) && HistoryInv(s) && ListenerEnabled(s, t, l)
    ensures HistoryInv(ListenerApply(s, t, l))
  {
    ListenerPosition(s, t, l);
    match l
    case Lock =>
      LockKeeps(s.hist, s.threads[t].pc.payload, Some(0));
    case Invoke(id, threw) =>
      var from, payload := s.threads[t].pc.from, s.threads[t].pc.payload;
      var call := Call(|s.hist.log| - 1, id, s.callbacks[id], payload, threw);
      InvokeKeepsWindows(s.hist, s.callbacks, from, call);
      InvokeKeepsCalls(s.hist, s.callbacks, from, call);
    case Unlock =>
      UnlockKeeps(s.hist, s.callbacks, s.threads[t].pc.from);
    case _ =>
  }

  lemma BusKeepsHistory(s: State, b: BusStep)
    requires ThreadsInv(s) && HistoryInv(s) && BusEnabled(s, b)
    ensures HistoryInv(BusApply(s, b))
  {
    assert Position(BusApply(s, b)) == Position(s);
  }

  lemma StepKeepsHistory(s: State, step: Step)
    requires ThreadsInv(s) && MutexInv(s) && CallerInv(s) && HistoryInv(s) && Enabled(s, step)
    ensures HistoryInv(Apply(s, step))
  {
    match step
    case ByCaller(c) => CallerKeepsHistory(s, c);
    case OnBus(b) => BusKeepsHistory(s, b);
    case ByListener(t, l) => ListenerKeepsHistory(s, t, l);
  }

  lemma {:induction false} RunKeepsHistory(s: State, run: seq<Step>)
    requires ProtocolInv(s) && HistoryInv(s) && Legal(s, run)
    ensures HistoryInv(After(s, run))
    decreases run
  {
    if run != [] {
      StepKeepsHistory(s, run[0]);
      StepKeepsProtocol(s, run[0]);
      RunKeepsHistory(Apply(s, run[0]), run[1..]);
    }
  }
}
