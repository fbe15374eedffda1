/** The two waiting loops of `MlmClient` as they are: they advance the clock, consume the inbox and
    destroy or return every message they read. */
module MlmClients {
  import opened Messages
  import opened ReplySpec

  /** A message the client has read, and for whom it was returned; otherwise it was destroyed. */
  datatype Entry = Entry(arrival: Arrival, returnedFor: Option<Want>)

  /** A message handed to the broker. */
  datatype Sent = Sent(address: string, subject: string, timeout: nat, frames: seq<string>)

  /** A `zmsg_t**`. */
  class MsgPtr {
    var msg: Zmsg?

    constructor (msg: Zmsg?)
      ensures this.msg == msg
    {
      this.msg := msg;
    }
  }

  const UINT32_MAX: nat := 0xFFFF_FFFF
  const INT_MAX: nat := 0x7FFF_FFFF

  /** What a call leaves in the journal: of the `n` messages it has read, it can have returned the last. */
  function Entries(arr: seq<Arrival>, n: nat, want: Want, found: bool): (r: seq<Entry>)
    requires n <= |arr|
    ensures |r| == n
  {
    seq(n, i requires 0 <= i < n => Entry(arr[i], if found && i == n - 1 then Some(want) else None))
  }

  /** `calls`, made one after the other on the messages `arr`, have left `journal` behind: each found
      what the ones before had not taken and ended as its loop does. */
  predicate Made(arr: seq<Arrival>, calls: seq<CallRecord>, journal: seq<Entry>)
    decreases |calls|
  {
    if calls == [] then journal == []
    else
      var c := calls[|calls| - 1];
      && c.first + c.taken == |journal| <= |arr|
      && Made(arr, calls[..|calls| - 1], journal[..c.first])
      && Outcome(c.loop, c.want, arr[c.first..], c.start, c.taken, c.result)
      && journal[c.first..] == Entries(arr[c.first..], c.taken, c.want, c.result.Some?)
  }

  function ResultOf(msg: Zmsg?): Option<seq<string>>
    reads if msg == null then {} else {msg}
  {
    if msg == null then None else Some(msg.frames)
  }

  class MlmClient {
    var now: nat                         // zclock_mono
    var inbox: seq<Arrival>              // what the broker has and will have for this client
    var outbox: seq<Sent>
    ghost var journal: seq<Entry>        // every message read, in order
    ghost var whole: seq<Arrival>        // the inbox as it was at the beginning
    ghost var records: seq<CallRecord>   // every call that got as far as waiting

    /** What has been called so far is a history of calls on the whole inbox, the journal is what they
        have left, and the inbox is what they have not taken. */
    ghost predicate Valid()
      reads this
    {
      Made(whole, records, journal) && |journal| <= |whole| && inbox == whole[|journal|..]
    }

    constructor (now: nat, inbox: seq<Arrival>)
      ensures Valid() && this.now == now && this.inbox == inbox && outbox == [] && journal == []
      ensures whole == inbox && records == []
    {
      this.now, this.inbox, this.outbox, this.journal := now, inbox, [], [];
      this.whole, this.records := inbox, [];
    }

    /** The poller: returns as soon as a message is readable, or when its timeout is over. */
    method Poll(timeout: nat) returns (ready: bool)
      requires timeout <= INT_MAX
      modifies this`now
      ensures ready == (inbox != [] && inbox[0].at <= old(now) + timeout)
      ensures now == if ready then Max(old(now), inbox[0].at) else old(now) + timeout
    {
      ready := inbox != [] && inbox[0].at <= now + timeout;
      if !ready {
        now := now + timeout;
      } else if now < inbox[0].at {
        now := inbox[0].at;
      }
    }

    /** Reading a message, and the time that working on it takes. */
    method Receive() returns (msg: Zmsg)
      requires inbox != []
      modifies this`now, this`inbox
      ensures fresh(msg) && msg.frames == old(inbox)[0].frames && inbox == old(inbox)[1..]
      ensures now == old(now) + old(inbox)[0].lag
    {
      msg := new Zmsg(inbox[0].frames);
      now := now + inbox[0].lag;
      inbox := inbox[1..];
    }

    /** One poll of the relative loop: what is left of the budget is reduced by the time elapsed since
        `start`, which is not advanced. */
    method PollWithin(start: nat, poller_timeout: nat) returns (ready: bool, left: nat)
      requires start <= now && poller_timeout <= INT_MAX
      modifies this`now
      ensures ready == (inbox != [] && inbox[0].at <= old(now) + poller_timeout)
      ensures now == if ready then Max(old(now), inbox[0].at) else old(now) + poller_timeout
      ensures ready ==> left == if now - start >= poller_timeout then 0 else poller_timeout - (now - start)
    {
      left := poller_timeout;
      ready := Poll(poller_timeout);
      if !ready {
        return;
      }
      var timestamp := now;
      assert timestamp - start >= 0;                  // unsigned in the source
      if timestamp - start >= left {
        left := 0;
      } else {
        left := left - (timestamp - start);
      }
    }

    /** Reads the next message and keeps it if it matches, its head removed, or else destroys it. */
    method TakeTagged(uuid: string) returns (msg: Zmsg?)
      requires inbox != []
      modifies this`now, this`inbox, this`journal
      ensures Took(Tagged(uuid), old(inbox)[0], msg) && (msg != null ==> fresh(msg))
      ensures inbox == old(inbox)[1..]
      ensures now == old(now) + old(inbox)[0].lag
      ensures journal == old(journal) + [Entry(old(inbox)[0], if msg != null then Some(Tagged(uuid)) else None)]
    {
      ghost var arrival := inbox[0];
      msg := Receive();
      var uuid_recv := msg.PopStr();
      if uuid_recv.Some? && uuid == uuid_recv.value {
        journal := journal + [Entry(arrival, Some(Tagged(uuid)))];
      } else {
        journal := journal + [Entry(arrival, None)];
        msg := null;
      }
    }

    /** The loop of `recv`: waits for the message that carries `uuid` in front; `n` is the number of
        messages taken from the inbox. */
    method AwaitTagged(uuid: string, budget: nat) returns (reply: Zmsg?, ghost n: nat)
      requires budget <= 300_000
      modifies this`now, this`inbox, this`journal
      ensures reply != null ==> fresh(reply)
      ensures Outcome(Relative(budget), Tagged(uuid), old(inbox), old(now), n, ResultOf(reply))
      ensures n <= |old(inbox)| && inbox == old(inbox)[n..]
      ensures journal == old(journal) + Entries(old(inbox), n, Tagged(uuid), reply != null)
      ensures now == Head(old(inbox), old(now), n) +
                     if reply != null then 0 else Remaining(old(inbox), old(now), budget, n)
    {
      ghost var want, l := Tagged(uuid), Relative(budget);
      ghost var arr, t0 := inbox, now;
      n := 0;
      var start := now;
      var poller_timeout := budget;
      while true
        invariant start == t0 <= now
        invariant Going(l, want, arr, t0, n) && inbox == arr[n..]
        invariant now == Head(arr, t0, n) && poller_timeout == Remaining(arr, t0, budget, n)
        invariant journal == old(journal) + Entries(arr, n, want, false)
        decreases |inbox|
      {
        BudgetFits(arr, t0, budget, n);
        GoingEnds(l, want, arr, t0, n);
        var ready;
        ready, poller_timeout := PollWithin(start, poller_timeout);
        assert ready == (n < |arr| && Reads(l, arr, t0, n));
        if !ready {
          return null, n;
        }
        RemainingNext(arr, t0, budget, n);
        NextEntry(arr, n, want, old(journal));
        reply := TakeTagged(uuid);
        n := n + 1;
        if reply != null {
          return reply, n;
        }
      }
    }

    /** Waits for the message that carries `uuid` in front, for `timeout` seconds but at most 300. */
    method Recv(uuid: string, timeout: nat) returns (reply: Zmsg?, ghost n: nat)
      requires Valid() && timeout <= UINT32_MAX
      modifies this`now, this`inbox, this`journal, this`records
      ensures Valid() && (reply != null ==> fresh(reply))
      ensures n <= |old(inbox)| && inbox == old(inbox)[n..]
      ensures journal == old(journal) + Entries(old(inbox), n, Tagged(uuid), reply != null)
      ensures var budget := if timeout <= 300 then 1000 * timeout else 300_000;
        && Outcome(Relative(budget), Tagged(uuid), old(inbox), old(now), n, ResultOf(reply))
        && now == Head(old(inbox), old(now), n) +
                  (if reply != null then 0 else Remaining(old(inbox), old(now), budget, n))
        && records == old(records) +
             [CallRecord(Relative(budget), Tagged(uuid), old(now), |old(journal)|, n, ResultOf(reply))]
      ensures old(inbox) == [] ==> reply == null
      ensures old(inbox) == [] && timeout <= 300 ==> now == old(now) + 1000 * timeout
      ensures old(inbox) == [] && timeout > 300 ==> now == old(now) + 300_000
    {
      var wait := timeout;
      if wait > 300 {
        wait := 300;
      }
      ghost var t0, budget := now, if timeout <= 300 then 1000 * timeout else 300_000;
      assert wait * 1000 == budget;
      reply, n := AwaitTagged(uuid, wait * 1000);
      ghost var call :=
        CallRecord(Relative(budget), Tagged(uuid), t0, |old(journal)|, n, ResultOf(reply));
      MadeNext(whole, records, old(journal), call);
      records := records + [call];
    }

    /** As `TakeTagged`, for a message that must carry the uid of a request and "REPLY". */
    method TakeReply(uid: string) returns (msg: Zmsg?)
      requires inbox != []
      modifies this`now, this`inbox, this`journal
      ensures Took(ReplyTo(uid), old(inbox)[0], msg) && (msg != null ==> fresh(msg))
      ensures inbox == old(inbox)[1..]
      ensures now == old(now) + old(inbox)[0].lag
      ensures journal == old(journal) + [Entry(old(inbox)[0], if msg != null then Some(ReplyTo(uid)) else None)]
    {
      ghost var arrival := inbox[0];
      msg := Receive();
      var msg_uuid := msg.PopStr();
      var msg_cmd := msg.PopStr();
      if msg_cmd.None? || msg_cmd.value != "REPLY" || msg_uuid.None? || msg_uuid.value != CStr(uid) {
        journal := journal + [Entry(arrival, None)];
        msg := null;
      } else {
        journal := journal + [Entry(arrival, Some(ReplyTo(uid)))];
      }
    }

    /** Sends a copy of the content with "REQUEST" and a new uid in front, and waits for the reply to
        it. `uid`, the outcome of the send and the time it takes come from outside. On success the
        content is destroyed and its pointer cleared; nothing happens to it otherwise. */
    method RequestReply(address: string, subject: string, timeout: nat, content_p: MsgPtr?,
                        uid: string, sendOk: bool, sendTime: nat)
      returns (reply: Zmsg?, ghost n: nat)
      requires Valid() && timeout <= UINT32_MAX
      modifies this`now, this`inbox, this`outbox, this`journal, this`records, content_p
      ensures Valid() && (reply != null ==> fresh(reply))
      ensures content_p == null || old(content_p.msg) == null || address == [] ==>
        && reply == null && n == 0 && now == old(now) && inbox == old(inbox)
        && outbox == old(outbox) && (content_p != null ==> content_p.msg == old(content_p.msg))
        && journal == old(journal) && records == old(records)
      ensures content_p != null && old(content_p.msg) != null && address != [] && !sendOk ==>
        && reply == null && n == 0 && now == old(now) + sendTime && inbox == old(inbox)
        && outbox == old(outbox) && content_p.msg == old(content_p.msg)
        && journal == old(journal) && records == old(records)
      ensures content_p != null && old(content_p.msg) != null && address != [] && sendOk ==>
        && content_p.msg == null
        && outbox == old(outbox) + [Sent(address, subject, if timeout <= 300 then timeout else 300,
                                         ["REQUEST", CStr(uid)] + old(content_p.msg.frames))]
        && var start, quit := old(now) + sendTime, old(now) + if timeout <= 300 then 1000 * timeout else 300_000;
        && Outcome(Absolute(quit), ReplyTo(uid), old(inbox), start, n, ResultOf(reply))
        && n <= |old(inbox)| && inbox == old(inbox)[n..]
        && now == (if reply != null then Head(old(inbox), start, n) else Max(Head(old(inbox), start, n), quit))
        && journal == old(journal) + Entries(old(inbox), n, ReplyTo(uid), reply != null)
        && records == old(records) +
             [CallRecord(Absolute(quit), ReplyTo(uid), start, |old(journal)|, n, ResultOf(reply))]
    {
      if content_p == null || content_p.msg == null || address == [] {
        return null, 0;
      }
      var seconds := timeout;
      if seconds > 300 {
        seconds := 300;
      }
      var quit := now + seconds * 1000;
      reply, n := SendAndReceive(address, subject, seconds, content_p, uid, sendOk, sendTime, quit);
    }

    /** The same once the arguments have been looked at. */
    method SendAndReceive(address: string, subject: string, seconds: nat, content_p: MsgPtr,
                          uid: string, sendOk: bool, sendTime: nat, quit: nat)
      returns (reply: Zmsg?, ghost n: nat)
      requires Valid() && content_p.msg != null && quit <= now + 300_000
      modifies this`now, this`inbox, this`outbox, this`journal, this`records, content_p
      ensures Valid() && (reply != null ==> fresh(reply))
      ensures !sendOk ==>
        && reply == null && n == 0 && now == old(now) + sendTime && inbox == old(inbox)
        && outbox == old(outbox) && content_p.msg == old(content_p.msg)
        && journal == old(journal) && records == old(records)
      ensures sendOk ==>
        && content_p.msg == null
        && outbox == old(outbox) + [Sent(address, subject, seconds,
                                         ["REQUEST", CStr(uid)] + old(content_p.msg.frames))]
        && Outcome(Absolute(quit), ReplyTo(uid), old(inbox), old(now) + sendTime, n, ResultOf(reply))
        && n <= |old(inbox)| && inbox == old(inbox)[n..]
        && now == (if reply != null then Head(old(inbox), old(now) + sendTime, n)
                   else Max(Head(old(inbox), old(now) + sendTime, n), quit))
        && journal == old(journal) + Entries(old(inbox), n, ReplyTo(uid), reply != null)
        && records == old(records) +
             [CallRecord(Absolute(quit), ReplyTo(uid), old(now) + sendTime, |old(journal)|, n, ResultOf(reply))]
    {
      SendRequest(address, subject, seconds, content_p, uid, sendOk, sendTime);
      if !sendOk {
        return null, 0;
      }
      reply, n := ReceiveReply(uid, quit);
    }

    /** The first half: the copy with its two frames in front; sending it destroys the content. */
    method SendRequest(address: string, subject: string, seconds: nat, content_p: MsgPtr,
                       uid: string, sendOk: bool, sendTime: nat)
      requires content_p.msg != null
      modifies this`now, this`outbox, content_p
      ensures now == old(now) + sendTime
      ensures !sendOk ==> outbox == old(outbox) && content_p.msg == old(content_p.msg)
      ensures sendOk ==> content_p.msg == null
      ensures sendOk ==> (outbox == old(outbox) +
        [Sent(address, subject, seconds, ["REQUEST", CStr(uid)] + old(content_p.msg.frames))])
    {
      var msg := new Zmsg(content_p.msg.frames);
      msg.PushStr(uid);
      msg.PushStr("REQUEST");
      now := now + sendTime;
      if sendOk {
        CStrOfNulFree("REQUEST");
        assert msg.frames == ["REQUEST", CStr(uid)] + old(content_p.msg.frames);
        outbox := outbox + [Sent(address, subject, seconds, msg.frames)];
        content_p.msg := null;
      }
    }

    /** The second half of `requestreply`, with its place in the history. */
    method ReceiveReply(uid: string, quit: nat) returns (reply: Zmsg?, ghost n: nat)
      requires Valid() && quit <= now + 300_000
      modifies this`now, this`inbox, this`journal, this`records
      ensures Valid() && (reply != null ==> fresh(reply))
      ensures Outcome(Absolute(quit), ReplyTo(uid), old(inbox), old(now), n, ResultOf(reply))
      ensures n <= |old(inbox)| && inbox == old(inbox)[n..]
      ensures journal == old(journal) + Entries(old(inbox), n, ReplyTo(uid), reply != null)
      ensures records == old(records) +
        [CallRecord(Absolute(quit), ReplyTo(uid), old(now), |old(journal)|, n, ResultOf(reply))]
      ensures now == if reply != null then Head(old(inbox), old(now), n)
                     else Max(Head(old(inbox), old(now), n), quit)
    {
      ghost var t0 := now;
      reply, n := AwaitReply(uid, quit);
      ghost var call := CallRecord(Absolute(quit), ReplyTo(uid), t0, |old(journal)|, n, ResultOf(reply));
      MadeNext(whole, records, old(journal), call);
      records := records + [call];
    }

    /** The loop of `requestreply`: waits until `quit` for the reply with the right uid. */
    method AwaitReply(uid: string, quit: nat) returns (reply: Zmsg?, ghost n: nat)
      requires quit <= now + 300_000
      modifies this`now, this`inbox, this`journal
      ensures reply != null ==> fresh(reply)
      ensures Outcome(Absolute(quit), ReplyTo(uid), old(inbox), old(now), n, ResultOf(reply))
      ensures n <= |old(inbox)| && inbox == old(inbox)[n..]
      ensures journal == old(journal) + Entries(old(inbox), n, ReplyTo(uid), reply != null)
      ensures reply != null ==> now == Head(old(inbox), old(now), n)
      ensures reply == null ==> now == Max(Head(old(inbox), old(now), n), quit)
    {
      ghost var want, l := ReplyTo(uid), Absolute(quit);
      ghost var arr, t0 := inbox, now;
      n := 0;
      while true
        invariant Going(l, want, arr, t0, n) && inbox == arr[n..]
        invariant now == Head(arr, t0, n) && quit <= now + 300_000
        invariant journal == old(journal) + Entries(arr, n, want, false)
        decreases |inbox|
      {
        GoingEnds(l, want, arr, t0, n);
        var poller_timeout: int := quit - now;
        if poller_timeout <= 0 {
          return null, n;
        }
        var ready := Poll(poller_timeout);
        if !ready {
          return null, n;
        }
        NextEntry(arr, n, want, old(journal));
        reply := TakeReply(uid);
        n := n + 1;
        if reply != null {
          return reply, n;
        }
      }
    }
  }

  /** A read message is kept exactly if it matches, and then only its body is left. */
  predicate Took(want: Want, arrival: Arrival, msg: Zmsg?)
    reads if msg == null then {} else {msg}
  {
    (msg != null <==> Matches(want, arrival.frames)) &&
    (msg != null ==> msg.frames == Body(want, arrival.frames))
  }

  /** What taking message `n` does to the inbox and to the journal. */
  lemma NextEntry(arr: seq<Arrival>, n: nat, want: Want, journal: seq<Entry>)
    requires n < |arr|
    ensures arr[n..] != [] && arr[n..][0] == arr[n] && arr[n..][1..] == arr[n + 1..]
    ensures journal + Entries(arr, n + 1, want, true) ==
            journal + Entries(arr, n, want, false) + [Entry(arr[n], Some(want))]
    ensures journal + Entries(arr, n + 1, want, false) ==
            journal + Entries(arr, n, want, false) + [Entry(arr[n], None)]
  {
    assert Entries(arr, n + 1, want, true) == Entries(arr, n, want, false) + [Entry(arr[n], Some(want))];
    assert Entries(arr, n + 1, want, false) == Entries(arr, n, want, false) + [Entry(arr[n], None)];
  }

  /** One more call goes on where the ones before have stopped. */
  lemma MadeNext(arr: seq<Arrival>, calls: seq<CallRecord>, journal: seq<Entry>, c: CallRecord)
    requires Made(arr, calls, journal) && |journal| == c.first <= |arr|
    requires Outcome(c.loop, c.want, arr[c.first..], c.start, c.taken, c.result)
    ensures Made(arr, calls + [c], journal + Entries(arr[c.first..], c.taken, c.want, c.result.Some?))
    ensures c.first + c.taken <= |arr| && arr[c.first..][c.taken..] == arr[c.first + c.taken..]
  {
    var calls', journal' := calls + [c], journal + Entries(arr[c.first..], c.taken, c.want, c.result.Some?);
    assert calls'[..|calls|] == calls && calls'[|calls|] == c;
    assert journal'[..c.first] == journal;
  }

  /** Calls made one after the other are a history. */
  lemma {:induction false} MadeIsHistory(arr: seq<Arrival>, calls: seq<CallRecord>, journal: seq<Entry>)
    requires Made(arr, calls, journal)
    ensures History(arr, calls) && TakenBefore(calls, |calls|) == |journal|
    decreases |calls|
  {
    if calls != [] {
      var n := |calls| - 1;
      var c := calls[n];
      MadeIsHistory(arr, calls[..n], journal[..c.first]);
      HistoryGrows(arr, calls[..n], c);
      TakenPrefix(calls[..n], c, n);
      assert calls == calls[..n] + [c];
    }
  }

  /** What call `i` has left in the journal. */
  lemma {:induction false} MadeEntry(arr: seq<Arrival>, calls: seq<CallRecord>, journal: seq<Entry>, i: nat, m: nat)
    requires Made(arr, calls, journal) && i < |calls| && TakenBy(calls[i], m) && m < |journal|
    ensures m < |arr| && journal[m] == Entry(arr[m], if Returned(calls[i], m) then Some(calls[i].want) else None)
    decreases |calls|
  {
    var n := |calls| - 1;
    var c := calls[n];
    if i < n {
      MadeIsHistory(arr, calls, journal);
      MadeIsHistory(arr, calls[..n], journal[..c.first]);
      TakenGrows(calls, i, n);
      assert Fits(arr, calls, i) && Fits(arr, calls, n);
      MadeEntry(arr, calls[..n], journal[..c.first], i, m);
    } else {
      assert journal[m] == journal[c.first..][m - c.first];
      assert arr[m] == arr[c.first..][m - c.first];
    }
  }

  /** Whatever has been called on a client is a history of calls on its whole inbox, which has left the
      rest to be taken, */
  lemma CallsAreAHistory(client: MlmClient)
    requires client.Valid()
    ensures History(client.whole, client.records)
    ensures var n := TakenBefore(client.records, |client.records|);
      n <= |client.whole| && client.inbox == client.whole[n..] && |client.journal| == n
  {
    MadeIsHistory(client.whole, client.records, client.journal);
  }

  /** ... and what its journal says of a message is what became of it in the one call that took it:
      returned if it matched, destroyed otherwise. */
  lemma JournalTells(client: MlmClient, m: nat) returns (i: nat)
    requires client.Valid() && m < |client.journal|
    ensures i < |client.records| && TakenBy(client.records[i], m) && m < |client.whole|
    ensures forall j :: 0 <= j < |client.records| && TakenBy(client.records[j], m) ==> j == i
    ensures var c, a := client.records[i], client.whole[m];
      client.journal[m] == Entry(a, if Matches(c.want, a.frames) then Some(c.want) else None)
  {
    CallsAreAHistory(client);
    i := TakenOnce(client.whole, client.records, m);
    MadeEntry(client.whole, client.records, client.journal, i, m);
  }

  /** The timeout the relative loop gives to the poller fits the int it is cast to. */
  lemma BudgetFits(arr: seq<Arrival>, now: nat, w: nat, k: nat)
    requires k <= |arr| && w <= 300_000
    ensures Remaining(arr, now, w, k) <= INT_MAX
  {
  }
}
