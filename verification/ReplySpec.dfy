/** Waiting for a reply under a time budget: which messages each of the two waiting loops of
    `MlmClient` takes from its inbox, told without the loops. Times are milliseconds. */
module ReplySpec {
  import opened Messages

  /** A message, when it becomes readable, and how long the client works on it after reading it. */
  datatype Arrival = Arrival(at: nat, lag: nat, frames: seq<string>)

  /** What is waited for: `recv` wants its uuid in front, `requestreply` its uid and "REPLY". */
  datatype Want = Tagged(uuid: string) | ReplyTo(uid: string)

  predicate Matches(w: Want, frames: seq<string>) {
    match w
    case Tagged(uuid) => |frames| >= 1 && CStr(frames[0]) == uuid
    case ReplyTo(uid) => |frames| >= 2 && CStr(frames[0]) == CStr(uid) && CStr(frames[1]) == "REPLY"
  }

  /** The frames the caller gets of a message that matches. */
  function Body(w: Want, frames: seq<string>): seq<string>
    requires Matches(w, frames)
  {
    match w
    case Tagged(_) => frames[1..]
    case ReplyTo(_) => frames[2..]
  }

  function Max(a: int, b: int): int {
    if a >= b then a else b
  }

  /** When a client that waits from `now` on, and never gives up, turns to message `k`, */
  function Head(arr: seq<Arrival>, now: nat, k: nat): nat
    requires k <= |arr|
    decreases k, 0
  {
    if k == 0 then now else Read(arr, now, k - 1) + arr[k - 1].lag
  }

  /** ... and when it has it in hand. */
  function Read(arr: seq<Arrival>, now: nat, k: nat): nat
    requires k < |arr|
    decreases k, 1
  {
    Max(Head(arr, now, k), arr[k].at)
  }

  /** The elapsed times at which the first `k` messages were read, added up. */
  function SumElapsed(arr: seq<Arrival>, now: nat, k: nat): (r: nat)
    requires k <= |arr|
    ensures k > 0 ==> Read(arr, now, k - 1) - now >= 0
  {
    if k == 0 then 0
    else
      HeadAfterStart(arr, now, k - 1);
      SumElapsed(arr, now, k - 1) + (Read(arr, now, k - 1) - now)
  }

  lemma {:induction false} HeadAfterStart(arr: seq<Arrival>, now: nat, k: nat)
    requires k <= |arr|
    ensures Head(arr, now, k) >= now
  {
    if k > 0 { HeadAfterStart(arr, now, k - 1); }
  }

  function SumLag(arr: seq<Arrival>, k: nat): nat
    requires k <= |arr|
  {
    if k == 0 then 0 else SumLag(arr, k - 1) + arr[k - 1].lag
  }

  /** What is left of the budget `w` of the relative loop after `k` messages. */
  function Remaining(arr: seq<Arrival>, now: nat, w: nat, k: nat): nat
    requires k <= |arr|
  {
    Max(0, w - SumElapsed(arr, now, k))
  }

  /** The relative loop of `recv` reads message `k`: it is readable before the budget left then is up. */
  predicate InBudget(arr: seq<Arrival>, now: nat, w: nat, k: nat)
    requires k < |arr|
  {
    arr[k].at <= Head(arr, now, k) + Remaining(arr, now, w, k)
  }

  /** The absolute loop of `requestreply` reads message `k`: it turns to it before the deadline and
      the message is readable by then. */
  predicate InTime(arr: seq<Arrival>, now: nat, quit: int, k: nat)
    requires k < |arr|
  {
    Head(arr, now, k) < quit && arr[k].at <= quit
  }

  datatype Loop = Relative(w: nat) | Absolute(quit: int)

  predicate Reads(l: Loop, arr: seq<Arrival>, now: nat, k: nat)
    requires k < |arr|
  {
    match l
    case Relative(w) => InBudget(arr, now, w, k)
    case Absolute(quit) => InTime(arr, now, quit, k)
  }

  /** The loop, started at `now` on inbox `arr`, ends after taking `n` messages with `result`: all
      were read in time and only the last can match; and it ends without one only when the next
      message is not read in time. */
  predicate Outcome(l: Loop, want: Want, arr: seq<Arrival>, now: nat, n: nat, result: Option<seq<string>>) {
    && n <= |arr|
    && (forall k :: 0 <= k < n ==> Reads(l, arr, now, k))
    && (forall k :: 0 <= k < n - 1 ==> !Matches(want, arr[k].frames))
    && match result
       case Some(body) => n > 0 && Matches(want, arr[n - 1].frames) && body == Body(want, arr[n - 1].frames)
       case None => (n > 0 ==> !Matches(want, arr[n - 1].frames)) && (n < |arr| ==> !Reads(l, arr, now, n))
  }

  /** The loop has taken and destroyed `k` messages and goes on. */
  predicate Going(l: Loop, want: Want, arr: seq<Arrival>, now: nat, k: nat) {
    k <= |arr| && forall i :: 0 <= i < k ==> Reads(l, arr, now, i) && !Matches(want, arr[i].frames)
  }

  lemma GoingEnds(l: Loop, want: Want, arr: seq<Arrival>, now: nat, k: nat)
    requires Going(l, want, arr, now, k)
    ensures k == |arr| || !Reads(l, arr, now, k) ==> Outcome(l, want, arr, now, k, None)
    ensures k < |arr| && Reads(l, arr, now, k) ==>
      if Matches(want, arr[k].frames)
      then Outcome(l, want, arr, now, k + 1, Some(Body(want, arr[k].frames)))
      else Going(l, want, arr, now, k + 1)
  {
  }

  /** The closed form of the budget, one message on. */
  lemma RemainingNext(arr: seq<Arrival>, now: nat, w: nat, k: nat)
    requires k < |arr|
    ensures var elapsed, left := Read(arr, now, k) - now, Remaining(arr, now, w, k);
      elapsed >= 0 &&
      Remaining(arr, now, w, k + 1) == if elapsed >= left then 0 else left - elapsed
  {
    HeadAfterStart(arr, now, k);
  }

  /** The outcome is determined. */
  lemma OutcomeUnique(l: Loop, want: Want, arr: seq<Arrival>, now: nat,
                      n1: nat, r1: Option<seq<string>>, n2: nat, r2: Option<seq<string>>)
    requires Outcome(l, want, arr, now, n1, r1) && Outcome(l, want, arr, now, n2, r2)
    ensures n1 == n2 && r1 == r2
  {
  }

  // ------------------------------------------------------------------ time

  /** At the head of the relative loop, elapsed time and remaining budget together never exceed the
      budget, but for the time spent working on discarded messages: no wait outlives the request. */
  lemma {:induction false} BudgetBound(arr: seq<Arrival>, now: nat, w: nat, k: nat)
    requires k <= |arr| && forall i :: 0 <= i < k ==> InBudget(arr, now, w, i)
    ensures Head(arr, now, k) - now + Remaining(arr, now, w, k) <= w + SumLag(arr, k)
    ensures Remaining(arr, now, w, k) <= w
  {
    if k > 0 {
      BudgetBound(arr, now, w, k - 1);
      HeadAfterStart(arr, now, k - 1);
      assert InBudget(arr, now, w, k - 1);
    }
  }

  lemma {:induction false} NoLag(arr: seq<Arrival>, k: nat)
    requires k <= |arr| && forall i :: 0 <= i < k ==> arr[i].lag == 0
    ensures SumLag(arr, k) == 0
  {
    if k > 0 { NoLag(arr, k - 1); }
  }

  /** Of what the relative loop reads, the absolute loop with the same budget, lengthened by the work
      on the messages before, reads exactly what it turns to before its deadline. When that work is
      negligible this means: what comes after messages read strictly before the deadline. */
  lemma AbsoluteReadsIff(arr: seq<Arrival>, now: nat, w: nat, k: nat)
    requires k < |arr| && forall i :: 0 <= i <= k ==> InBudget(arr, now, w, i)
    ensures var quit := now + w + SumLag(arr, k);
      InTime(arr, now, quit, k) <==> Head(arr, now, k) < quit
    ensures (forall i :: 0 <= i < k ==> arr[i].lag == 0) ==>
      (InTime(arr, now, now + w, k) <==> if k == 0 then w > 0 else Read(arr, now, k - 1) < now + w)
  {
    BudgetBound(arr, now, w, k);
    assert InBudget(arr, now, w, k);
    if forall i :: 0 <= i < k ==> arr[i].lag == 0 {
      NoLag(arr, k);
    }
  }

  /** A message that has been read in time was, before the next one was turned to. */
  lemma {:induction false} HeadsGrow(arr: seq<Arrival>, now: nat, i: nat, k: nat)
    requires i <= k <= |arr|
    ensures Head(arr, now, i) <= Head(arr, now, k)
    ensures i < k ==> arr[i].at <= Head(arr, now, k)
    decreases k
  {
    if i < k {
      HeadsGrow(arr, now, i, k - 1);
    }
  }

  /** The absolute loop would read all of `n` messages exactly if it would read the last of them. */
  lemma AbsoluteReadsAllIff(arr: seq<Arrival>, now: nat, quit: int, n: nat)
    requires 0 < n <= |arr|
    ensures (forall k :: 0 <= k < n ==> Reads(Absolute(quit), arr, now, k)) <==> InTime(arr, now, quit, n - 1)
  {
    var l := Absolute(quit);
    assert Reads(l, arr, now, n - 1) <==> InTime(arr, now, quit, n - 1);
    if InTime(arr, now, quit, n - 1) {
      forall k | 0 <= k < n
        ensures Reads(l, arr, now, k)
      {
        HeadsGrow(arr, now, k, n - 1);
      }
    }
  }

  /** Run on the same inbox, the absolute loop gets at least as far as the relative one, and finds the
      reply that one finds, exactly if it would turn to the last message that one took before the
      deadline and have it by then; else it comes away with nothing. When the work on the messages
      before that is negligible this means: if those were in hand strictly before the deadline. */
  lemma AbsoluteDominatesIff(want: Want, arr: seq<Arrival>, now: nat, w: nat,
                             n1: nat, r1: Option<seq<string>>, n2: nat, r2: Option<seq<string>>)
    requires Outcome(Relative(w), want, arr, now, n1, r1)
    requires Outcome(Absolute(now + w), want, arr, now, n2, r2)
    ensures n1 <= n2 <==> n1 == 0 || (Head(arr, now, n1 - 1) < now + w && arr[n1 - 1].at <= now + w)
    ensures if n1 <= n2 then r1.Some? ==> n2 == n1 && r2 == r1 else r2 == None
    ensures (forall i :: 0 <= i < n1 - 1 ==> arr[i].lag == 0) ==>
      (n1 <= n2 <==> n1 == 0 || (w > 0 && (n1 == 1 || Read(arr, now, n1 - 2) < now + w)))
  {
    if n1 > 0 {
      AbsoluteReadsAllIff(arr, now, now + w, n1);
      ReadsAsFar(Absolute(now + w), want, arr, now, n1, n2, r2);
      forall i | 0 <= i < n1
        ensures InBudget(arr, now, w, i)
      {
        assert Reads(Relative(w), arr, now, i);
      }
      AbsoluteReadsIff(arr, now, w, n1 - 1);
      if n1 > 1 {
        HeadsGrow(arr, now, n1 - 2, n1 - 1);
        HeadAfterStart(arr, now, n1 - 2);
      }
    }
  }

  /** A loop gets past messages of which only the last can match exactly if it reads them all. */
  lemma ReadsAsFar(l: Loop, want: Want, arr: seq<Arrival>, now: nat, n: nat, n2: nat, r2: Option<seq<string>>)
    requires 0 < n <= |arr| && forall k :: 0 <= k < n - 1 ==> !Matches(want, arr[k].frames)
    requires Outcome(l, want, arr, now, n2, r2)
    ensures n <= n2 <==> forall k :: 0 <= k < n ==> Reads(l, arr, now, k)
    ensures n2 < n ==> r2 == None
  {
  }

  /** The first message that matches. */
  predicate FirstMatch(want: Want, arr: seq<Arrival>, m: nat) {
    m < |arr| && Matches(want, arr[m].frames) && forall k :: 0 <= k < m ==> !Matches(want, arr[k].frames)
  }

  /** Message `k` is there when the loop turns to it, or the wait for it and the elapsed times of all
      messages before, added up, are within the budget. */
  predicate WithinSum(arr: seq<Arrival>, now: nat, w: nat, k: nat)
    requires k < |arr|
  {
    var head := Head(arr, now, k);
    arr[k].at <= head || (arr[k].at - head) + SumElapsed(arr, now, k) <= w
  }

  /** The relative loop returns the first match exactly if that holds of it and of every message before;
      being there by the deadline is neither needed nor enough. */
  lemma RelativeFindsIff(want: Want, arr: seq<Arrival>, now: nat, w: nat, n: nat, r: Option<seq<string>>, m: nat)
    requires Outcome(Relative(w), want, arr, now, n, r) && FirstMatch(want, arr, m)
    ensures r.Some? <==> forall k :: 0 <= k <= m ==> WithinSum(arr, now, w, k)
    ensures r.Some? ==> n == m + 1 && r == Some(Body(want, arr[m].frames))
  {
    forall k | 0 <= k <= m
      ensures Reads(Relative(w), arr, now, k) <==> WithinSum(arr, now, w, k)
    {
    }
    FindsIff(Relative(w), want, arr, now, n, r, m);
  }

  /** The absolute loop returns it exactly if it turns to it before the deadline and it is there by then. */
  lemma AbsoluteFindsIff(want: Want, arr: seq<Arrival>, now: nat, quit: int, n: nat, r: Option<seq<string>>, m: nat)
    requires Outcome(Absolute(quit), want, arr, now, n, r) && FirstMatch(want, arr, m)
    ensures r.Some? <==> InTime(arr, now, quit, m)
    ensures r.Some? ==> n == m + 1 && r == Some(Body(want, arr[m].frames))
  {
    FindsIff(Absolute(quit), want, arr, now, n, r, m);
    AbsoluteReadsAllIff(arr, now, quit, m + 1);
  }

  /** A loop finds the first match exactly if it reads that and everything before. */
  lemma FindsIff(l: Loop, want: Want, arr: seq<Arrival>, now: nat, n: nat, r: Option<seq<string>>, m: nat)
    requires Outcome(l, want, arr, now, n, r) && FirstMatch(want, arr, m)
    ensures r.Some? <==> forall k :: 0 <= k <= m ==> Reads(l, arr, now, k)
    ensures r.Some? ==> n == m + 1 && r == Some(Body(want, arr[m].frames))
  {
    ReadsAsFar(l, want, arr, now, m + 1, n, r);
  }

  /** The converse fails: two messages at 900 and 1000 of a budget of 2000 leave the relative loop
      only 100, and it misses the reply that comes at 1900. */
  lemma RelativeGivesUpEarly(other: seq<string>, reply: seq<string>, want: Want)
    requires !Matches(want, other) && Matches(want, reply)
    ensures var arr := [Arrival(900, 0, other), Arrival(1000, 0, other), Arrival(1900, 0, reply)];
      && Outcome(Relative(2000), want, arr, 0, 2, None)
      && Outcome(Absolute(2000), want, arr, 0, 3, Some(Body(want, reply)))
  {
    var arr := [Arrival(900, 0, other), Arrival(1000, 0, other), Arrival(1900, 0, reply)];
    assert Head(arr, 0, 1) == 900 && SumElapsed(arr, 0, 1) == 900;
    assert Head(arr, 0, 2) == 1000 && SumElapsed(arr, 0, 2) == 1900;
    assert InBudget(arr, 0, 2000, 0) && InBudget(arr, 0, 2000, 1) && !InBudget(arr, 0, 2000, 2);
    assert InTime(arr, 0, 2000, 0) && InTime(arr, 0, 2000, 1) && InTime(arr, 0, 2000, 2);
  }

  /** And the bound on the earlier messages is needed: of two messages that are there exactly at the
      deadline, the relative loop still takes both, the absolute loop only the first. */
  lemma AtTheDeadline(other: seq<string>, reply: seq<string>, want: Want)
    requires !Matches(want, other) && Matches(want, reply)
    ensures var arr := [Arrival(2000, 0, other), Arrival(2000, 0, reply)];
      && Outcome(Relative(2000), want, arr, 0, 2, Some(Body(want, reply)))
      && Outcome(Absolute(2000), want, arr, 0, 1, None)
  {
    var arr := [Arrival(2000, 0, other), Arrival(2000, 0, reply)];
    assert Head(arr, 0, 1) == 2000 && SumElapsed(arr, 0, 1) == 2000;
    assert InBudget(arr, 0, 2000, 0) && InBudget(arr, 0, 2000, 1);
    assert InTime(arr, 0, 2000, 0) && !InTime(arr, 0, 2000, 1);
  }

  /** And so is the one on the work: that on the first message is not counted by the relative loop,
      which finds a reply long after the deadline. */
  lemma WorkOutlastsTheDeadline(other: seq<string>, reply: seq<string>, want: Want)
    requires !Matches(want, other) && Matches(want, reply)
    ensures var arr := [Arrival(0, 1500, other), Arrival(2500, 0, reply)];
      && Outcome(Relative(2000), want, arr, 0, 2, Some(Body(want, reply)))
      && Outcome(Absolute(2000), want, arr, 0, 1, None)
  {
    var arr := [Arrival(0, 1500, other), Arrival(2500, 0, reply)];
    assert Head(arr, 0, 1) == 1500 && SumElapsed(arr, 0, 1) == 0;
    assert InBudget(arr, 0, 2000, 0) && InBudget(arr, 0, 2000, 1);
    assert InTime(arr, 0, 2000, 0) && !InTime(arr, 0, 2000, 1);
  }

  // ------------------------------------------------------------------ histories

  /** One call on a reused client: it found `arr[first..]` in front of it and took `taken` messages. */
  datatype CallRecord =
    CallRecord(loop: Loop, want: Want, start: nat, first: nat, taken: nat, result: Option<seq<string>>)

  /** A history of calls on the messages `arr`, whatever these are: each call starts where the one
      before it stopped, and ends as its loop does. */
  predicate History(arr: seq<Arrival>, calls: seq<CallRecord>) {
    forall i :: 0 <= i < |calls| ==> Fits(arr, calls, i)
  }

  predicate Fits(arr: seq<Arrival>, calls: seq<CallRecord>, i: nat)
    requires i < |calls|
  {
    var c := calls[i];
    && c.first == TakenBefore(calls, i)
    && c.first <= |arr|
    && Outcome(c.loop, c.want, arr[c.first..], c.start, c.taken, c.result)
  }

  function TakenBefore(calls: seq<CallRecord>, i: nat): nat
    requires i <= |calls|
  {
    if i == 0 then 0 else TakenBefore(calls, i - 1) + calls[i - 1].taken
  }

  lemma {:induction false} TakenGrows(calls: seq<CallRecord>, i: nat, j: nat)
    requires i < j <= |calls|
    ensures TakenBefore(calls, i) + calls[i].taken <= TakenBefore(calls, j)
    decreases j
  {
    if i < j - 1 { TakenGrows(calls, i, j - 1); }
  }

  lemma {:induction false} TakenPrefix(calls: seq<CallRecord>, c: CallRecord, i: nat)
    requires i <= |calls|
    ensures TakenBefore(calls + [c], i) == TakenBefore(calls, i)
  {
    if i > 0 { TakenPrefix(calls, c, i - 1); }
  }

  lemma HistoryGrows(arr: seq<Arrival>, calls: seq<CallRecord>, c: CallRecord)
    requires History(arr, calls) && c.first == TakenBefore(calls, |calls|) <= |arr|
    requires Outcome(c.loop, c.want, arr[c.first..], c.start, c.taken, c.result)
    ensures History(arr, calls + [c])
  {
    var calls' := calls + [c];
    forall i | 0 <= i < |calls'|
      ensures Fits(arr, calls', i)
    {
      TakenPrefix(calls, c, i);
      if i < |calls| { assert Fits(arr, calls, i); }
    }
  }

  predicate TakenBy(call: CallRecord, m: nat) {
    call.first <= m < call.first + call.taken
  }

  /** The message a call returned, if it returned one. */
  predicate Returned(call: CallRecord, m: nat) {
    call.result.Some? && m + 1 == call.first + call.taken
  }

  lemma {:induction false} Taker(calls: seq<CallRecord>, m: nat, n: nat) returns (i: nat)
    requires n <= |calls| && m < TakenBefore(calls, n)
    ensures i < n && TakenBefore(calls, i) <= m < TakenBefore(calls, i) + calls[i].taken
  {
    if m < TakenBefore(calls, n - 1) {
      i := Taker(calls, m, n - 1);
    } else {
      i := n - 1;
    }
  }

  lemma OneTaker(calls: seq<CallRecord>, i: nat, j: nat, m: nat)
    requires i < |calls| && j < |calls| && TakenBy(calls[i], m) && TakenBy(calls[j], m)
    requires calls[i].first == TakenBefore(calls, i) && calls[j].first == TakenBefore(calls, j)
    ensures i == j
  {
    if i < j { TakenGrows(calls, i, j); }
    if j < i { TakenGrows(calls, j, i); }
  }

  lemma ReturnedIffMatches(arr: seq<Arrival>, c: CallRecord, m: nat)
    requires c.first <= |arr| && Outcome(c.loop, c.want, arr[c.first..], c.start, c.taken, c.result)
    requires TakenBy(c, m)
    ensures m < |arr| && (Returned(c, m) <==> Matches(c.want, arr[m].frames))
  {
    assert arr[c.first..][m - c.first] == arr[m];
  }

  /** Every message taken in a history was taken by exactly one call, which returned it if it matched
      and destroyed it otherwise. */
  lemma TakenOnce(arr: seq<Arrival>, calls: seq<CallRecord>, m: nat) returns (i: nat)
    requires History(arr, calls) && m < TakenBefore(calls, |calls|)
    ensures i < |calls| && TakenBy(calls[i], m) && m < |arr|
    ensures forall j :: 0 <= j < |calls| && TakenBy(calls[j], m) ==> j == i
    ensures Returned(calls[i], m) <==> Matches(calls[i].want, arr[m].frames)
  {
    i := Taker(calls, m, |calls|);
    assert Fits(arr, calls, i);
    ReturnedIffMatches(arr, calls[i], m);
    forall j | 0 <= j < |calls| && TakenBy(calls[j], m)
      ensures j == i
    {
      assert Fits(arr, calls, j);
      OneTaker(calls, i, j, m);
    }
  }

  /** What a call that took message `m` makes of it. */
  lemma TakenMeans(arr: seq<Arrival>, calls: seq<CallRecord>, i: nat, m: nat)
    requires History(arr, calls) && i < |calls| && TakenBy(calls[i], m)
    ensures m < |arr| && (Returned(calls[i], m) <==> Matches(calls[i].want, arr[m].frames))
    ensures Returned(calls[i], m) ==> calls[i].result == Some(Body(calls[i].want, arr[m].frames))
  {
    var c := calls[i];
    assert Fits(arr, calls, i);
    ReturnedIffMatches(arr, c, m);
    if Returned(c, m) { assert arr[c.first..][c.taken - 1] == arr[m]; }
  }

  /** Over every history, a `recv` that takes a message returns it if and only if its first frame is the
      uuid, and then without that frame; and only the last message it takes can be that. */
  lemma TaggedIsReturnedIff(arr: seq<Arrival>, calls: seq<CallRecord>, i: nat, m: nat)
    requires History(arr, calls) && i < |calls| && calls[i].want.Tagged? && TakenBy(calls[i], m)
    ensures m < |arr|
    ensures var f, c := arr[m].frames, calls[i];
      && (Returned(c, m) <==> f != [] && CStr(f[0]) == c.want.uuid)
      && (Returned(c, m) ==> m == c.first + c.taken - 1 && c.result == Some(f[1..]))
  {
    TakenMeans(arr, calls, i, m);
  }

  /** And a `requestreply` if and only if its first two frames are the uid and "REPLY", and then without
      those. */
  lemma ReplyIsReturnedIff(arr: seq<Arrival>, calls: seq<CallRecord>, i: nat, m: nat)
    requires History(arr, calls) && i < |calls| && calls[i].want.ReplyTo? && TakenBy(calls[i], m)
    ensures m < |arr|
    ensures var f, c := arr[m].frames, calls[i];
      && (Returned(c, m) <==> |f| >= 2 && CStr(f[0]) == CStr(c.want.uid) && CStr(f[1]) == "REPLY")
      && (Returned(c, m) ==> m == c.first + c.taken - 1 && c.result == Some(f[2..]))
  {
    TakenMeans(arr, calls, i, m);
  }

  /** Over every history of `requestreply` calls on one client, with late replies and junk of any kind
      in its inbox: what a call returns is the body of a message that carried its uid and "REPLY";
      nobody else returns or destroys that message; and no call returns a message for another uid. */
  lemma RepliesAreOwn(arr: seq<Arrival>, calls: seq<CallRecord>, i: nat, m: nat)
    requires History(arr, calls) && i < |calls| && calls[i].want.ReplyTo? && Returned(calls[i], m)
    ensures m < |arr|
    ensures var f := arr[m].frames;
      |f| >= 2 && CStr(f[0]) == CStr(calls[i].want.uid) && CStr(f[1]) == "REPLY" &&
      calls[i].result == Some(f[2..])
    ensures forall j :: 0 <= j < |calls| && j != i ==> !TakenBy(calls[j], m)
    ensures forall uid :: CStr(uid) != CStr(calls[i].want.uid) ==> !Matches(ReplyTo(uid), arr[m].frames)
  {
    var c := calls[i];
    assert Fits(arr, calls, i);
    assert arr[c.first..][c.taken - 1] == arr[m];
    forall j | 0 <= j < |calls| && j != i
      ensures !TakenBy(calls[j], m)
    {
      assert Fits(arr, calls, j);
      if TakenBy(calls[j], m) { OneTaker(calls, i, j, m); }
    }
  }
}
