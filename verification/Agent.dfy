/** The main loop of an agent: tick timing, dispatch and stop. Times are milliseconds. */
module Agent {
  import opened Messages

  /** What the poller reports: nothing within its timeout, or a message of one of the sources, which
      is null when the receive is interrupted. */
  datatype Event =
    | Nothing
    | NullMessage
    | OnPipe(frames: seq<string>)
    | OnClient(command: string, frames: seq<string>)
    | OnOther(frames: seq<string>)

  /** One pass of the loop as far as it comes from outside: what the poller reports, the clock after
      it, and what `tick` and a handler would answer; `ownPipe` says that `handlePipe` is overridden,
      so that the handler's answer counts for it too. */
  datatype Pass = Pass(event: Event, clock: int, tickGoesOn: bool, handlerGoesOn: bool, ownPipe: bool)

  /** A callback that was made, in the order made. */
  datatype Callback =
    | Tick(at: int, goesOn: bool)
    | HandlePipe(frames: seq<string>, goesOn: bool)
    | HandleMailbox(frames: seq<string>, goesOn: bool)
    | HandleStream(frames: seq<string>, goesOn: bool)
    | HandleOther(frames: seq<string>, goesOn: bool)

  /** The default `handlePipe`: everything but "$TERM" goes on. */
  predicate PipeGoesOn(frames: seq<string>) {
    frames == [] || CStr(frames[0]) != "$TERM"
  }

  predicate TickDue(period: int, lastTick: int, clock: int) {
    period > 0 && lastTick + period < clock
  }

  /** The handler an event goes to; an unknown command goes to none. */
  function Dispatch(p: Pass): Option<Callback> {
    match p.event
    case Nothing => None
    case NullMessage => None
    case OnPipe(frames) => Some(HandlePipe(frames, if p.ownPipe then p.handlerGoesOn else PipeGoesOn(frames)))
    case OnClient(command, frames) =>
      if command == "MAILBOX DELIVER" then Some(HandleMailbox(frames, p.handlerGoesOn))
      else if command == "STREAM DELIVER" then Some(HandleStream(frames, p.handlerGoesOn))
      else None
    case OnOther(frames) => Some(HandleOther(frames, p.handlerGoesOn))
  }

  /** The callbacks of one pass. */
  function PassLog(period: int, lastTick: int, p: Pass): seq<Callback> {
    var tick := if TickDue(period, lastTick, p.clock) then [Tick(p.clock, p.tickGoesOn)] else [];
    if tick != [] && !p.tickGoesOn then tick
    else tick + (if Dispatch(p).Some? then [Dispatch(p).value] else [])
  }

  predicate GoesOn(log: seq<Callback>) {
    forall i :: 0 <= i < |log| ==> log[i].goesOn
  }

  /** The loop goes on after this pass: nobody wants to stop, and no receive was interrupted. */
  predicate Continues(period: int, lastTick: int, p: Pass) {
    && (TickDue(period, lastTick, p.clock) ==> p.tickGoesOn)
    && !p.event.NullMessage?
    && (Dispatch(p).Some? ==> Dispatch(p).value.goesOn)
  }

  function NextTick(period: int, lastTick: int, p: Pass): int {
    if TickDue(period, lastTick, p.clock) && p.tickGoesOn then p.clock else lastTick
  }

  /** The callbacks of a run of the loop over `passes`, up to the first that does not go on. */
  function Log(period: int, lastTick: int, passes: seq<Pass>): seq<Callback>
    decreases passes
  {
    if passes == [] then []
    else
      var log := PassLog(period, lastTick, passes[0]);
      if Continues(period, lastTick, passes[0])
      then log + Log(period, NextTick(period, lastTick, passes[0]), passes[1..]) else log
  }

  /** What m_lastTick is at the end of the run. */
  function LastTick(period: int, lastTick: int, passes: seq<Pass>): int
    decreases passes
  {
    if passes == [] then lastTick
    else
      var next := NextTick(period, lastTick, passes[0]);
      if Continues(period, lastTick, passes[0]) then LastTick(period, next, passes[1..]) else next
  }

  /** The run comes to the end of `passes`. */
  predicate Completes(period: int, lastTick: int, passes: seq<Pass>)
    decreases passes
  {
    passes == [] ||
    (Continues(period, lastTick, passes[0]) && Completes(period, NextTick(period, lastTick, passes[0]), passes[1..]))
  }

  /** The default `handlePipe` reads the first frame. */
  predicate PipeReadable(p: Pass) {
    p.event.OnPipe? && !p.ownPipe ==> p.event.frames != []
  }

  class MlmAgent {
    const pollerTimeout: int
    var lastTick: int
    var log: seq<Callback>

    constructor (pollerTimeout: int, clock: int)
      ensures this.pollerTimeout == pollerTimeout && lastTick == clock && log == []
    {
      this.pollerTimeout, this.lastTick, this.log := pollerTimeout, clock, [];
    }

    method OnTick(at: int, goesOn: bool) returns (r: bool)
      modifies this`log
      ensures r == goesOn && log == old(log) + [Tick(at, goesOn)]
    {
      log := log + [Tick(at, goesOn)];
      r := goesOn;
    }

    method OnPipeMessage(message: Zmsg) returns (r: bool)
      requires message.frames != []
      modifies this`log, message
      ensures r == PipeGoesOn(old(message.frames)) && log == old(log) + [HandlePipe(old(message.frames), r)]
    {
      var frames := message.frames;
      var command := message.PopStr();
      r := command.value != "$TERM";
      log := log + [HandlePipe(frames, r)];
    }

    /** The periodic part of a pass; false when `tick` wants to stop. */
    method Periodic(p: Pass) returns (goesOn: bool)
      modifies this
      ensures lastTick == NextTick(pollerTimeout, old(lastTick), p)
      ensures log == old(log) +
        if TickDue(pollerTimeout, old(lastTick), p.clock) then [Tick(p.clock, p.tickGoesOn)] else []
      ensures goesOn == (TickDue(pollerTimeout, old(lastTick), p.clock) ==> p.tickGoesOn)
    {
      if pollerTimeout > 0 {
        var curClock := p.clock;
        if lastTick + pollerTimeout < curClock {
          var r := OnTick(curClock, p.tickGoesOn);
          if !r {
            return false;
          }
          lastTick := curClock;
        }
      }
      return true;
    }

    /** The dispatch of a pass; false when the handler wants to stop or there is no message after all. */
    method HandleEvent(p: Pass) returns (goesOn: bool)
      requires PipeReadable(p)
      modifies this`log
      ensures log == old(log) + (if Dispatch(p).Some? then [Dispatch(p).value] else [])
      ensures goesOn == (!p.event.NullMessage? && (Dispatch(p).Some? ==> Dispatch(p).value.goesOn))
    {
      goesOn := true;
      match p.event {
        case NullMessage =>
          goesOn := false;
        case OnPipe(frames) =>
          if p.ownPipe {
            goesOn := p.handlerGoesOn;
            log := log + [HandlePipe(frames, goesOn)];
          } else {
            var message := new Zmsg(frames);
            goesOn := OnPipeMessage(message);
          }
        case OnClient(command, frames) =>
          if command == "MAILBOX DELIVER" {
            goesOn := p.handlerGoesOn;
            log := log + [HandleMailbox(frames, goesOn)];
          } else if command == "STREAM DELIVER" {
            goesOn := p.handlerGoesOn;
            log := log + [HandleStream(frames, goesOn)];
          }
        case OnOther(frames) =>
          goesOn := p.handlerGoesOn;
          log := log + [HandleOther(frames, goesOn)];
        case Nothing =>
      }
    }

    method OnePass(p: Pass) returns (goesOn: bool)
      requires PipeReadable(p)
      modifies this
      ensures log == old(log) + PassLog(pollerTimeout, old(lastTick), p)
      ensures lastTick == NextTick(pollerTimeout, old(lastTick), p)
      ensures goesOn == Continues(pollerTimeout, old(lastTick), p)
    {
      goesOn := Periodic(p);
      if goesOn {
        goesOn := HandleEvent(p);
      }
    }

    /** `mainloop`, run until it breaks or, after the last of `passes`, finds zsys_interrupted set. */
    method Mainloop(passes: seq<Pass>)
      requires forall i :: 0 <= i < |passes| ==> PipeReadable(passes[i])
      modifies this
      ensures log == old(log) + Log(pollerTimeout, old(lastTick), passes)
      ensures lastTick == LastTick(pollerTimeout, old(lastTick), passes)
    {
      ghost var total, final := log + Log(pollerTimeout, lastTick, passes), LastTick(pollerTimeout, lastTick, passes);
      ghost var rest := passes;
      var k := 0;
      while k < |passes|
        invariant 0 <= k <= |passes| && rest == passes[k..]
        invariant log + Log(pollerTimeout, lastTick, rest) == total
        invariant LastTick(pollerTimeout, lastTick, rest) == final
      {
        var p := passes[k];
        ghost var before, last := log, lastTick;
        Unroll(pollerTimeout, lastTick, rest);
        var goesOn := OnePass(p);
        Regroup(before, PassLog(pollerTimeout, last, p), Log(pollerTimeout, lastTick, rest[1..]));
        if !goesOn {
          return;
        }
        k, rest := k + 1, rest[1..];
      }
    }
  }

  lemma Unroll(period: int, lastTick: int, passes: seq<Pass>)
    requires passes != []
    ensures var p := passes[0];
      var log, next := PassLog(period, lastTick, p), NextTick(period, lastTick, p);
      if Continues(period, lastTick, p)
      then Log(period, lastTick, passes) == log + Log(period, next, passes[1..]) &&
           LastTick(period, lastTick, passes) == LastTick(period, next, passes[1..])
      else Log(period, lastTick, passes) == log && LastTick(period, lastTick, passes) == next
  {
  }

  lemma Regroup(a: seq<Callback>, b: seq<Callback>, c: seq<Callback>)
    ensures (a + b) + c == a + (b + c)
  {
  }

  lemma PassGoesOn(period: int, lastTick: int, p: Pass)
    ensures Continues(period, lastTick, p) <==> GoesOn(PassLog(period, lastTick, p)) && !p.event.NullMessage?
  {
    var log := PassLog(period, lastTick, p);
    if TickDue(period, lastTick, p.clock) {
      assert log[0] == Tick(p.clock, p.tickGoesOn);
    }
    if (TickDue(period, lastTick, p.clock) ==> p.tickGoesOn) && Dispatch(p).Some? {
      assert log[|log| - 1] == Dispatch(p).value;
    }
  }

  // ------------------------------------------------------------------ dispatch and stop

  /** How many passes of a run got as far as the dispatch. */
  function Dispatched(period: int, lastTick: int, passes: seq<Pass>): (n: nat)
    ensures n <= |passes|
    decreases passes
  {
    if passes == [] then 0
    else if TickDue(period, lastTick, passes[0].clock) && !passes[0].tickGoesOn then 0
    else if Continues(period, lastTick, passes[0])
    then 1 + Dispatched(period, NextTick(period, lastTick, passes[0]), passes[1..])
    else 1
  }

  function Handlers(log: seq<Callback>): seq<Callback> {
    if log == [] then [] else (if log[0].Tick? then [] else [log[0]]) + Handlers(log[1..])
  }

  /** One handler call for each received message, in the order of receipt. */
  function DispatchAll(passes: seq<Pass>): seq<Callback> {
    if passes == [] then []
    else (if Dispatch(passes[0]).Some? then [Dispatch(passes[0]).value] else []) + DispatchAll(passes[1..])
  }

  lemma {:induction false} HandlersAppend(a: seq<Callback>, b: seq<Callback>)
    ensures Handlers(a + b) == Handlers(a) + Handlers(b)
  {
    if a == [] {
      assert a + b == b;
    } else {
      var c := a + b;
      assert c[0] == a[0] && c[1..] == a[1..] + b;
      HandlersAppend(a[1..], b);
    }
  }

  /** The handler calls of a run are exactly those due for the messages received in the passes that
      got to the dispatch: each message goes to one handler, by its source and command, none is
      skipped, repeated or reordered, however the ticks fall between them. */
  lemma {:induction false} HandlersFollowMessages(period: int, lastTick: int, passes: seq<Pass>)
    ensures Handlers(Log(period, lastTick, passes)) ==
            DispatchAll(passes[..Dispatched(period, lastTick, passes)])
    decreases passes
  {
    if passes != [] {
      var p := passes[0];
      var log, next := PassLog(period, lastTick, p), NextTick(period, lastTick, p);
      var n := Dispatched(period, lastTick, passes);
      PassHandlers(period, lastTick, p);
      Unroll(period, lastTick, passes);
      if n > 0 { DispatchFirst(passes, n); }
      if Continues(period, lastTick, p) {
        HandlersFollowMessages(period, next, passes[1..]);
        HandlersAppend(log, Log(period, next, passes[1..]));
      }
    }
  }

  lemma DispatchFirst(passes: seq<Pass>, n: nat)
    requires 0 < n <= |passes|
    ensures DispatchAll(passes[..n]) ==
            (if Dispatch(passes[0]).Some? then [Dispatch(passes[0]).value] else []) +
            DispatchAll(passes[1..][..n - 1])
  {
    assert passes[..n][1..] == passes[1..][..n - 1];
  }

  lemma PassHandlers(period: int, lastTick: int, p: Pass)
    ensures Handlers(PassLog(period, lastTick, p)) ==
      if (TickDue(period, lastTick, p.clock) && !p.tickGoesOn) || Dispatch(p).None? then []
      else [Dispatch(p).value]
  {
    if Dispatch(p).Some? {
      assert [Dispatch(p).value][1..] == [];
    }
    if TickDue(period, lastTick, p.clock) {
      var tick := Tick(p.clock, p.tickGoesOn);
      assert [tick][1..] == [];
      HandlersAppend([tick], if Dispatch(p).Some? then [Dispatch(p).value] else []);
    }
  }

  /** The first callback that wants to stop, the handler of "$TERM" included, is the last one made. */
  lemma {:induction false} StopIsLast(period: int, lastTick: int, passes: seq<Pass>, i: nat)
    requires i < |Log(period, lastTick, passes)| && !Log(period, lastTick, passes)[i].goesOn
    ensures i == |Log(period, lastTick, passes)| - 1
    decreases passes
  {
    var log := PassLog(period, lastTick, passes[0]);
    PassGoesOn(period, lastTick, passes[0]);
    if i >= |log| {
      StopIsLast(period, NextTick(period, lastTick, passes[0]), passes[1..], i - |log|);
    } else {
      assert log[i] == Log(period, lastTick, passes)[i];
    }
  }

  // ------------------------------------------------------------------ what one pass does

  /** A run is its passes one after the other, each with the m_lastTick the ones before have left. */
  lemma {:induction false} LogSplits(period: int, lastTick: int, first: seq<Pass>, rest: seq<Pass>)
    requires Completes(period, lastTick, first)
    ensures Log(period, lastTick, first + rest) ==
            Log(period, lastTick, first) + Log(period, LastTick(period, lastTick, first), rest)
    ensures Completes(period, lastTick, first + rest) <==>
            Completes(period, LastTick(period, lastTick, first), rest)
    decreases first
  {
    if first == [] {
      assert first + rest == rest;
    } else {
      var all, next := first + rest, NextTick(period, lastTick, first[0]);
      assert all[0] == first[0] && all[1..] == first[1..] + rest;
      LogSplits(period, next, first[1..], rest);
      Regroup(PassLog(period, lastTick, first[0]), Log(period, next, first[1..]),
              Log(period, LastTick(period, lastTick, first), rest));
    }
  }

  lemma OnePassLog(period: int, lastTick: int, p: Pass)
    ensures Log(period, lastTick, [p]) == PassLog(period, lastTick, p)
    ensures Completes(period, lastTick, [p]) <==> Continues(period, lastTick, p)
    ensures LastTick(period, lastTick, [p]) == NextTick(period, lastTick, p)
  {
    assert [p][1..] == [];
    assert PassLog(period, lastTick, p) + [] == PassLog(period, lastTick, p);
  }

  /** A pass calls `tick` before anything else, with the clock it has read, if and only if there is a
      period and more than that has gone by since the last one; the time is kept unless `tick` wants to
      stop, which ends the pass. */
  lemma TickOfPass(period: int, lastTick: int, p: Pass)
    ensures forall at, goesOn :: Tick(at, goesOn) in Log(period, lastTick, [p]) <==>
      period > 0 && p.clock - lastTick > period && at == p.clock && goesOn == p.tickGoesOn
    ensures LastTick(period, lastTick, [p]) ==
      if period > 0 && p.clock - lastTick > period && p.tickGoesOn then p.clock else lastTick
    ensures forall i :: 0 <= i < |Log(period, lastTick, [p])| && Log(period, lastTick, [p])[i].Tick? ==> i == 0
    ensures period > 0 && p.clock - lastTick > period && !p.tickGoesOn ==>
      Log(period, lastTick, [p]) == [Tick(p.clock, false)] && !Completes(period, lastTick, [p])
  {
    OnePassLog(period, lastTick, p);
  }

  /** Unless `tick` ends it, a pass calls the handler that its event is for, with the message received,
      and no other; there is none for no message, a null message or another command. */
  lemma HandlerOfPass(period: int, lastTick: int, p: Pass)
    requires period > 0 && p.clock - lastTick > period ==> p.tickGoesOn
    ensures var log := Log(period, lastTick, [p]);
      && (forall f, goesOn :: HandleMailbox(f, goesOn) in log <==>
            p.event == OnClient("MAILBOX DELIVER", f) && goesOn == p.handlerGoesOn)
      && (forall f, goesOn :: HandleStream(f, goesOn) in log <==>
            p.event == OnClient("STREAM DELIVER", f) && goesOn == p.handlerGoesOn)
      && (forall f, goesOn :: HandleOther(f, goesOn) in log <==>
            p.event == OnOther(f) && goesOn == p.handlerGoesOn)
      && |Handlers(log)| == if p.event.Nothing? || p.event.NullMessage? ||
                               (p.event.OnClient? && p.event.command != "MAILBOX DELIVER" &&
                                p.event.command != "STREAM DELIVER") then 0 else 1
  {
    OnePassLog(period, lastTick, p);
    PassHandlers(period, lastTick, p);
    LastOfPass(period, lastTick, p);
    DispatchMeans(p);
  }

  lemma DispatchMeans(p: Pass)
    ensures forall f, goesOn :: Dispatch(p) == Some(HandleMailbox(f, goesOn)) <==>
      p.event == OnClient("MAILBOX DELIVER", f) && goesOn == p.handlerGoesOn
    ensures forall f, goesOn :: Dispatch(p) == Some(HandleStream(f, goesOn)) <==>
      p.event == OnClient("STREAM DELIVER", f) && goesOn == p.handlerGoesOn
    ensures forall f, goesOn :: Dispatch(p) == Some(HandleOther(f, goesOn)) <==>
      p.event == OnOther(f) && goesOn == p.handlerGoesOn
  {
  }

  lemma LastOfPass(period: int, lastTick: int, p: Pass)
    requires TickDue(period, lastTick, p.clock) ==> p.tickGoesOn
    ensures forall c :: c in PassLog(period, lastTick, p) && !c.Tick? <==> Dispatch(p) == Some(c)
  {
    var log := PassLog(period, lastTick, p);
    if Dispatch(p).Some? {
      assert log[|log| - 1] == Dispatch(p).value && !Dispatch(p).value.Tick?;
    }
  }

  /** Likewise for the actor pipe; the default `handlePipe` wants to stop exactly on "$TERM". */
  lemma PipeOfPass(period: int, lastTick: int, p: Pass)
    requires period > 0 && p.clock - lastTick > period ==> p.tickGoesOn
    ensures forall f, goesOn :: HandlePipe(f, goesOn) in Log(period, lastTick, [p]) <==>
      p.event == OnPipe(f) &&
      goesOn == if p.ownPipe then p.handlerGoesOn else f == [] || CStr(f[0]) != "$TERM"
  {
    OnePassLog(period, lastTick, p);
    LastOfPass(period, lastTick, p);
  }

  /** A command ends a loop with the default `handlePipe` if and only if it is "$TERM". */
  lemma TermEndsTheLoop(period: int, lastTick: int, p: Pass)
    requires period > 0 && p.clock - lastTick > period ==> p.tickGoesOn
    requires p.event.OnPipe? && !p.ownPipe && p.event.frames != []
    ensures !Completes(period, lastTick, [p]) <==> CStr(p.event.frames[0]) == "$TERM"
  {
    OnePassLog(period, lastTick, p);
  }

  /** Without a period there is never a tick. */
  lemma {:induction false} NoPeriodNoTick(period: int, lastTick: int, passes: seq<Pass>)
    requires period <= 0
    ensures forall c :: c in Log(period, lastTick, passes) ==> !c.Tick?
    ensures LastTick(period, lastTick, passes) == lastTick
    decreases passes
  {
    if passes != [] {
      NoPeriodNoTick(period, NextTick(period, lastTick, passes[0]), passes[1..]);
    }
  }

  // ------------------------------------------------------------------ tick timing

  function TickTimes(log: seq<Callback>): seq<int> {
    if log == [] then [] else (if log[0].Tick? then [log[0].at] else []) + TickTimes(log[1..])
  }

  lemma {:induction false} TickTimesAppend(a: seq<Callback>, b: seq<Callback>)
    ensures TickTimes(a + b) == TickTimes(a) + TickTimes(b)
  {
    if a == [] {
      assert a + b == b;
    } else {
      var c := a + b;
      assert c[0] == a[0] && c[1..] == a[1..] + b;
      TickTimesAppend(a[1..], b);
    }
  }

  lemma PassTicks(period: int, lastTick: int, p: Pass)
    ensures TickTimes(PassLog(period, lastTick, p)) ==
      if TickDue(period, lastTick, p.clock) then [p.clock] else []
  {
    if Dispatch(p).Some? {
      assert [Dispatch(p).value][1..] == [];
    }
    if TickDue(period, lastTick, p.clock) {
      var tick := Tick(p.clock, p.tickGoesOn);
      assert [tick][1..] == [];
      TickTimesAppend([tick], if Dispatch(p).Some? then [Dispatch(p).value] else []);
    }
  }

  /** Each tick comes more than `lo` and at most `hi` after the one before, the first after `last`. */
  predicate Spaced(last: int, ticks: seq<int>, lo: int, hi: Option<int>)
    decreases ticks
  {
    ticks == [] ||
    (lo < ticks[0] - last && (hi.Some? ==> ticks[0] - last <= hi.value) && Spaced(ticks[0], ticks[1..], lo, hi))
  }

  lemma SpacedNext(last: int, t: int, rest: seq<int>, lo: int, hi: Option<int>)
    ensures Spaced(last, [t] + rest, lo, hi) <==>
      lo < t - last && (hi.Some? ==> t - last <= hi.value) && Spaced(t, rest, lo, hi)
  {
    assert ([t] + rest)[1..] == rest;
  }

  /** Consecutive ticks are more than the period apart, whatever the clock and the messages do. */
  lemma {:induction false} TicksAreSpaced(period: int, lastTick: int, passes: seq<Pass>)
    ensures Spaced(lastTick, TickTimes(Log(period, lastTick, passes)), period, None)
    decreases passes
  {
    if passes != [] {
      var p := passes[0];
      var log, next := PassLog(period, lastTick, p), NextTick(period, lastTick, p);
      PassTicks(period, lastTick, p);
      SpacedNext(lastTick, p.clock, [], period, None);
      assert [p.clock] + [] == [p.clock];
      if Continues(period, lastTick, p) {
        TicksAreSpaced(period, next, passes[1..]);
        var rest := TickTimes(Log(period, next, passes[1..]));
        TickTimesAppend(log, Log(period, next, passes[1..]));
        SpacedNext(lastTick, p.clock, rest, period, None);
        assert [] + rest == rest;
      }
    }
  }

  /** n ticks take at least n(P + 1) from the construction of the agent. */
  lemma {:induction false} TicksTakeTime(last: int, ticks: seq<int>, period: int)
    requires Spaced(last, ticks, period, None) && ticks != []
    ensures ticks[|ticks| - 1] - last >= |ticks| * (period + 1)
    decreases ticks
  {
    if |ticks| > 1 {
      TicksTakeTime(ticks[0], ticks[1..], period);
    }
  }

  lemma NTicksTakeTime(period: int, lastTick: int, passes: seq<Pass>)
    requires TickTimes(Log(period, lastTick, passes)) != []
    ensures var ticks := TickTimes(Log(period, lastTick, passes));
      ticks[|ticks| - 1] - lastTick >= |ticks| * (period + 1)
  {
    TicksAreSpaced(period, lastTick, passes);
    TicksTakeTime(lastTick, TickTimes(Log(period, lastTick, passes)), period);
  }

  /** The waits of the run begin at `begins`, return within the period, and the rest of each pass,
      tick and handler included, takes at most `h`. */
  predicate Timely(period: int, h: int, begins: seq<int>, passes: seq<Pass>) {
    && |begins| == |passes|
    && (forall i :: 0 <= i < |passes| ==> begins[i] <= passes[i].clock <= begins[i] + period)
    && (forall i :: 0 <= i < |passes| - 1 ==> begins[i + 1] <= passes[i].clock + h)
  }

  /** Then, as long as the loop goes on, ticks are at most 2P + H apart, under any load of messages. */
  lemma {:induction false} TicksKeepComing(period: int, h: int, lastTick: int, begins: seq<int>, passes: seq<Pass>)
    requires period > 0 && h >= 0 && Timely(period, h, begins, passes)
    requires passes != [] ==> begins[0] <= lastTick + period + h
    ensures Spaced(lastTick, TickTimes(Log(period, lastTick, passes)), period, Some(2 * period + h))
    decreases passes
  {
    if passes != [] {
      var p := passes[0];
      var log, next := PassLog(period, lastTick, p), NextTick(period, lastTick, p);
      PassTicks(period, lastTick, p);
      SpacedNext(lastTick, p.clock, [], period, Some(2 * period + h));
      assert [p.clock] + [] == [p.clock];
      if Continues(period, lastTick, p) {
        TicksKeepComing(period, h, next, begins[1..], passes[1..]);
        var rest := TickTimes(Log(period, next, passes[1..]));
        TickTimesAppend(log, Log(period, next, passes[1..]));
        SpacedNext(lastTick, p.clock, rest, period, Some(2 * period + h));
        assert [] + rest == rest;
      }
    }
  }

  /** And they do come: no pass after which the loop goes on leaves a tick overdue. */
  lemma {:induction false} NoTickIsOverdue(period: int, lastTick: int, passes: seq<Pass>)
    requires period > 0 && passes != [] && Completes(period, lastTick, passes)
    ensures passes[|passes| - 1].clock - LastTick(period, lastTick, passes) <= period
    decreases passes
  {
    var next := NextTick(period, lastTick, passes[0]);
    Unroll(period, lastTick, passes);
    if |passes| > 1 {
      NoTickIsOverdue(period, next, passes[1..]);
    }
  }

  /** The loop gets through all its passes exactly if every callback it makes goes on and no receive is
      interrupted: nothing else ends it. */
  lemma {:induction false} CompletesIff(period: int, lastTick: int, passes: seq<Pass>)
    ensures Completes(period, lastTick, passes) <==>
      && GoesOn(Log(period, lastTick, passes))
      && forall i :: 0 <= i < |passes| ==> !passes[i].event.NullMessage?
    decreases passes
  {
    if passes != [] {
      var p := passes[0];
      var next := NextTick(period, lastTick, p);
      PassGoesOn(period, lastTick, p);
      if Continues(period, lastTick, p) {
        CompletesIff(period, next, passes[1..]);
        GoesOnParts(PassLog(period, lastTick, p), Log(period, next, passes[1..]));
      }
    }
  }

  lemma GoesOnParts(a: seq<Callback>, b: seq<Callback>)
    ensures GoesOn(a + b) <==> GoesOn(a) && GoesOn(b)
  {
    var c := a + b;
    assert forall i :: 0 <= i < |a| ==> a[i] == c[i];
    assert forall i :: 0 <= i < |b| ==> b[i] == c[i + |a|];
  }
}
