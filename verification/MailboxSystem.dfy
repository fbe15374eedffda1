/** Any number of synchronous clients, one serial mailbox server and whoever else writes to them, over
    the FIFO mailboxes of the broker. */
module MailboxSystem {
  import opened Messages
  import opened Mailbox
  import Address

  /** A message in the mailbox of the server. */
  datatype Request = Request(from: string, subject: string, frames: seq<string>)

  /** A reply of the server, with the number of the request it answers and of the handler call that
      made it. */
  datatype ReplyMail = ReplyMail(request: nat, call: nat, frames: seq<string>)

  /** A message in the mailbox of an address: from the server, or from anybody else. */
  datatype Item = FromServer(mail: ReplyMail) | Foreign(frames: seq<string>)

  function Content(item: Item): seq<string> {
    match item
    case FromServer(mail) => mail.frames
    case Foreign(frames) => frames
  }

  /** A `syncRequestWithReply` that has sent its request and waits. */
  datatype Session = Session(uuid: string, request: nat)

  datatype HandlerCall = HandlerCall(request: nat, sender: string, payload: Payload, outcome: HandlerOutcome)

  datatype State = State(
    sent: seq<Request>,                       // everything sent to the server; it handles them in order
    processed: nat,
    mailboxes: map<string, seq<Item>>,
    sessions: map<string, Session>,           // by address: a thread has one request at a time
    calls: seq<HandlerCall>,
    replied: seq<nat>,                        // requests a reply was sent to
    orphans: set<nat>)                        // requests nobody waits for (any more)

  function Init(): State {
    State([], 0, map[], map[], [], [], {})
  }

  datatype Step =
    | ClientSend(clientId: string, pid: int, uuid: string, payload: Payload)
    | OtherSend(request: Request)             // any message of any other agent to the server,
    | OtherMail(address: string, frames: seq<string>)     // or to anybody else
    | Serve(outcome: HandlerOutcome, sendOk: bool)
    | Receive(address: string)
    | Abandon(address: string)                // interrupted after the send

  function Box(s: State, address: string): seq<Item> {
    if address in s.mailboxes then s.mailboxes[address] else []
  }

  /** No request from this address has had this correlation id. */
  predicate FreshId(s: State, address: string, id: string) {
    forall k :: 0 <= k < |s.sent| && s.sent[k].from == address ==> CorrelationId(s.sent[k].frames) != id
  }

  predicate Enabled(s: State, step: Step) {
    match step
    case ClientSend(clientId, pid, uuid, payload) =>
      var address := Address.UniqueId(clientId, pid);
      && |address| < Address.SIZE_VALUES && address !in s.sessions
      && uuid != "" && NulFree(uuid) && FreshId(s, address, uuid)
    case OtherSend(r) =>
      && |r.from| < Address.SIZE_VALUES && r.from !in s.sessions
      && (CorrelationId(r.frames) != "" ==> FreshId(s, r.from, CorrelationId(r.frames)))
    case OtherMail(_, _) => true
    case Serve(_, _) => s.processed < |s.sent| && |s.sent[s.processed].from| < Address.SIZE_VALUES
    case Receive(address) => address in s.sessions && Box(s, address) != []
    case Abandon(address) => address in s.sessions
  }

  /** What the server makes of request `r` when its handler does `outcome`. */
  function Handling(r: Request, outcome: HandlerOutcome): Mailbox.Handling
    requires |r.from| < Address.SIZE_VALUES
  {
    Handle(r.subject, r.from, r.frames, (_, _) => outcome)
  }

  function ServeNext(s: State, outcome: HandlerOutcome, sendOk: bool): State
    requires Enabled(s, Serve(outcome, sendOk))
  {
    var n := s.processed;
    var r := s.sent[n];
    var h := Handling(r, outcome);
    var s1 := s.(processed := n + 1);
    if !h.Handled? then s1
    else
      var s2 := s1.(calls := s.calls + [HandlerCall(n, h.sender, h.payload, h.outcome)]);
      match ReplyTo(h, r.frames)
      case None => s2
      case Some(frames) =>
        if !sendOk then s2
        else s2.(replied := s.replied + [n],
                 mailboxes := s.mailboxes[r.from := Box(s, r.from) + [FromServer(ReplyMail(n, |s.calls|, frames))]])
  }

  /** What the waiting client at `address` makes of the message it finds. */
  function Received(s: State, address: string): SyncResult
    requires Enabled(s, Receive(address))
  {
    ParseReply(s.sessions[address].uuid, Content(Box(s, address)[0]))
  }

  /** It finds the server's reply to its own request. */
  predicate FindsOwn(s: State, address: string)
    requires Enabled(s, Receive(address))
  {
    Answers(Box(s, address)[0], s.sessions[address].request)
  }

  predicate Answers(item: Item, request: nat) {
    item.FromServer? && item.mail.request == request
  }

  function Apply(s: State, step: Step): State
    requires Enabled(s, step)
  {
    match step
    case ClientSend(clientId, pid, uuid, payload) =>
      var address := Address.UniqueId(clientId, pid);
      s.(sent := s.sent + [Request(address, "REQUEST", RequestFrames(uuid, payload))],
         sessions := s.sessions[address := Session(uuid, |s.sent|)])
    case OtherSend(r) => s.(sent := s.sent + [r], orphans := s.orphans + {|s.sent|})
    case OtherMail(address, frames) =>
      s.(mailboxes := s.mailboxes[address := Box(s, address) + [Foreign(frames)]])
    case Serve(outcome, sendOk) => ServeNext(s, outcome, sendOk)
    case Receive(address) =>
      s.(mailboxes := s.mailboxes[address := Box(s, address)[1..]],
         sessions := s.sessions - {address},
         orphans := s.orphans + if FindsOwn(s, address) then {} else {s.sessions[address].request})
    case Abandon(address) =>
      s.(sessions := s.sessions - {address}, orphans := s.orphans + {s.sessions[address].request})
  }

  predicate Legal(s: State, run: seq<Step>)
    decreases run
  {
    run == [] || (Enabled(s, run[0]) && Legal(Apply(s, run[0]), run[1..]))
  }

  function After(s: State, run: seq<Step>): State
    requires Legal(s, run)
    decreases run
  {
    if run == [] then s else After(Apply(s, run[0]), run[1..])
  }

  /** What a step puts into the mailbox of `a`. */
  predicate Delivered(s: State, step: Step, a: string, item: Item) {
    match step
    case OtherMail(address, frames) => address == a && item == Foreign(frames)
    case Serve(_, sendOk) =>
      && sendOk && s.processed < |s.sent| && s.sent[s.processed].from == a
      && item.FromServer? && item.mail.request == s.processed
    case _ => false
  }

  /** A mailbox is a queue: a receive takes its first message, and every other step, an interrupt
      included, leaves what there is and adds at most one at the end. */
  lemma MailboxesAreQueues(s: State, step: Step, a: string)
    requires Enabled(s, step)
    ensures var box, box' := Box(s, a), Box(Apply(s, step), a);
      if step == Receive(a) then box == [box[0]] + box'
      else box' == box || exists item :: Delivered(s, step, a, item) && box' == box + [item]
  {
    var box, box' := Box(s, a), Box(Apply(s, step), a);
    if step != Receive(a) && box' != box {
      var item := box'[|box|];
      assert Delivered(s, step, a, item) && box' == box + [item];
    }
  }

  // ------------------------------------------------------------------ what every step keeps

  predicate SameId(r: Request, q: Request) {
    r.from == q.from && CorrelationId(r.frames) == CorrelationId(q.frames)
  }

  predicate ShortNames(sent: seq<Request>) {
    forall k :: 0 <= k < |sent| ==> |sent[k].from| < Address.SIZE_VALUES
  }

  /** Correlation ids are distinct among the requests from one address. */
  predicate IdsInv(sent: seq<Request>) {
    forall j, k :: 0 <= j < k < |sent| && SameId(sent[j], sent[k]) ==> CorrelationId(sent[k].frames) == ""
  }

  predicate GoodSession(sent: seq<Request>, address: string, session: Session) {
    && |address| < Address.SIZE_VALUES
    && session.request < |sent| && sent[session.request].from == address
    && session.uuid != "" && NulFree(session.uuid)
    && CorrelationId(sent[session.request].frames) == session.uuid
  }

  /** The handler was called with the sender and the payload of the request, as C strings. */
  predicate GoodCall(sent: seq<Request>, processed: nat, call: HandlerCall) {
    && call.request < processed <= |sent|
    && |sent[call.request].from| < Address.SIZE_VALUES
    && Handling(sent[call.request], call.outcome) == Handled(call.sender, call.payload, call.outcome)
  }

  /** A reply carries the id of a request sent from its address, and what the handler returned for it. */
  predicate GoodMail(sent: seq<Request>, calls: seq<HandlerCall>, address: string, mail: ReplyMail) {
    && mail.request < |sent| && sent[mail.request].from == address
    && mail.call < |calls| && calls[mail.call].request == mail.request
    && calls[mail.call].outcome.Returns?
    && CorrelationId(sent[mail.request].frames) != ""
    && mail.frames == [CorrelationId(sent[mail.request].frames)] + CStrs(calls[mail.call].outcome.results)
  }

  /** Request `k` can still find its reply: its client waits for it, or it is an orphan. */
  predicate Expected(s: State, k: nat)
    requires k < |s.sent|
  {
    k in s.orphans || (s.sent[k].from in s.sessions && s.sessions[s.sent[k].from].request == k)
  }

  predicate Increasing(a: seq<nat>, bound: nat) {
    (forall i, j :: 0 <= i < j < |a| ==> a[i] < a[j]) && forall i :: 0 <= i < |a| ==> a[i] < bound
  }

  function CallRequests(calls: seq<HandlerCall>): seq<nat> {
    seq(|calls|, i requires 0 <= i < |calls| => calls[i].request)
  }

  /** A reply in the box is to a request that has been handled and can still find it; any other
      message is as it likes. */
  predicate GoodItem(s: State, address: string, item: Item) {
    item.FromServer? ==>
      GoodMail(s.sent, s.calls, address, item.mail) && item.mail.request < s.processed && Expected(s, item.mail.request)
  }

  /** Replies are in the order of their requests, whatever lies between them. */
  predicate Ordered(box: seq<Item>) {
    forall i, j :: 0 <= i < j < |box| && box[i].FromServer? && box[j].FromServer? ==>
      box[i].mail.request < box[j].mail.request
  }

  predicate BoxInv(s: State, address: string) {
    var box := Box(s, address);
    Ordered(box) && forall i :: 0 <= i < |box| ==> GoodItem(s, address, box[i])
  }

  ghost predicate Inv(s: State) {
    && s.processed <= |s.sent|
    && ShortNames(s.sent)
    && IdsInv(s.sent)
    && (forall a :: a in s.sessions ==> GoodSession(s.sent, a, s.sessions[a]))
    && (forall i :: 0 <= i < |s.calls| ==> GoodCall(s.sent, s.processed, s.calls[i]))
    && Increasing(CallRequests(s.calls), s.processed)
    && Increasing(s.replied, s.processed)
    && (forall a :: BoxInv(s, a))
    && (forall k :: s.processed <= k < |s.sent| ==> Expected(s, k))
  }

  lemma AppendIncreasing(a: seq<nat>, bound: nat)
    requires Increasing(a, bound)
    ensures Increasing(a + [bound], bound + 1)
  {
  }

  /** Sending a request with a fresh id, whoever waits for it. */
  lemma SendKeeps(s: State, s': State, r: Request)
    requires Inv(s) && s'.sent == s.sent + [r] && |r.from| < Address.SIZE_VALUES && r.from !in s.sessions
    requires CorrelationId(r.frames) != "" ==> FreshId(s, r.from, CorrelationId(r.frames))
    requires s'.processed == s.processed && s'.mailboxes == s.mailboxes
    requires s'.calls == s.calls && s'.replied == s.replied && s.orphans <= s'.orphans
    requires forall a :: a in s'.sessions ==> GoodSession(s'.sent, a, s'.sessions[a])
    requires forall a :: a in s.sessions ==> a in s'.sessions && s'.sessions[a] == s.sessions[a]
    requires Expected(s', |s.sent|)
    ensures Inv(s')
  {
    forall k | 0 <= k < |s.sent| && Expected(s, k)
      ensures Expected(s', k)
    {
    }
    forall a
      ensures BoxInv(s', a)
    {
      assert BoxInv(s, a) && Box(s', a) == Box(s, a);
      forall i | 0 <= i < |Box(s, a)|
        ensures GoodItem(s', a, Box(s', a)[i])
      {
        assert GoodItem(s, a, Box(s, a)[i]);
      }
    }
    forall i | 0 <= i < |s'.calls|
      ensures GoodCall(s'.sent, s'.processed, s'.calls[i])
    {
      assert GoodCall(s.sent, s.processed, s.calls[i]);
    }
  }

  lemma ServeKeepsCalls(s: State, outcome: HandlerOutcome, sendOk: bool)
    requires Inv(s) && Enabled(s, Serve(outcome, sendOk))
    ensures var s' := ServeNext(s, outcome, sendOk);
      && s.calls <= s'.calls
      && (forall i :: 0 <= i < |s'.calls| ==> GoodCall(s'.sent, s'.processed, s'.calls[i]))
      && Increasing(CallRequests(s'.calls), s'.processed)
      && Increasing(s'.replied, s'.processed)
  {
    var s' := ServeNext(s, outcome, sendOk);
    AppendIncreasing(CallRequests(s.calls), s.processed);
    AppendIncreasing(s.replied, s.processed);
    if |s'.calls| > |s.calls| {
      assert CallRequests(s'.calls) == CallRequests(s.calls) + [s.processed];
    }
    forall i | 0 <= i < |s'.calls|
      ensures GoodCall(s'.sent, s'.processed, s'.calls[i])
    {
      if i < |s.calls| { assert GoodCall(s.sent, s.processed, s.calls[i]); }
    }
  }

  lemma ServeKeepsBox(s: State, outcome: HandlerOutcome, sendOk: bool, a: string)
    requires Enabled(s, Serve(outcome, sendOk)) && BoxInv(s, a) && Expected(s, s.processed)
    ensures BoxInv(ServeNext(s, outcome, sendOk), a)
  {
    var s' := ServeNext(s, outcome, sendOk);
    var box, box' := Box(s, a), Box(s', a);
    NewMail(s, outcome, sendOk, a);
    forall i | 0 <= i < |box'|
      ensures GoodItem(s', a, box'[i])
    {
      if i < |box| { assert GoodItem(s, a, box[i]); }
    }
    forall i, j | 0 <= i < j < |box'| && box'[i].FromServer? && box'[j].FromServer?
      ensures box'[i].mail.request < box'[j].mail.request
    {
      assert GoodItem(s, a, box[i]);
    }
  }

  lemma NewMail(s: State, outcome: HandlerOutcome, sendOk: bool, a: string)
    requires Enabled(s, Serve(outcome, sendOk))
    ensures var s' := ServeNext(s, outcome, sendOk);
      && s'.sessions == s.sessions && s'.orphans == s.orphans && s'.sent == s.sent && s.calls <= s'.calls
      && s'.processed == s.processed + 1
      && (Box(s', a) == Box(s, a) ||
          (exists mail :: Box(s', a) == Box(s, a) + [FromServer(mail)] && mail.request == s.processed &&
                          GoodMail(s'.sent, s'.calls, a, mail)))
  {
    var s' := ServeNext(s, outcome, sendOk);
    if Box(s', a) != Box(s, a) {
      var mail := s'.mailboxes[a][|Box(s, a)|].mail;
      assert Box(s', a) == Box(s, a) + [FromServer(mail)] && GoodMail(s'.sent, s'.calls, a, mail);
    }
  }

  lemma ServeKeeps(s: State, outcome: HandlerOutcome, sendOk: bool)
    requires Inv(s) && Enabled(s, Serve(outcome, sendOk))
    ensures Inv(ServeNext(s, outcome, sendOk))
  {
    var s' := ServeNext(s, outcome, sendOk);
    ServeKeepsCalls(s, outcome, sendOk);
    forall a
      ensures BoxInv(s', a)
    {
      assert BoxInv(s, a) && Expected(s, s.processed);
      ServeKeepsBox(s, outcome, sendOk, a);
    }
    forall k | s'.processed <= k < |s'.sent|
      ensures Expected(s', k)
    {
      assert Expected(s, k);
    }
  }

  /** A waiting client takes a reply of the server for the answer to its own request exactly if it is
      that. */
  lemma MatchIsOwn(s: State, address: string)
    requires Inv(s) && Enabled(s, Receive(address)) && Box(s, address)[0].FromServer?
    ensures var mail := Box(s, address)[0].mail;
      && GoodMail(s.sent, s.calls, address, mail)
      && (FindsOwn(s, address) ==>
            Received(s, address) == Frames(CStrs(CStrs(s.calls[mail.call].outcome.results))))
      && (!FindsOwn(s, address) ==> Received(s, address) == MismatchedCorrelationId)
  {
    var mail, session := Box(s, address)[0].mail, s.sessions[address];
    assert BoxInv(s, address);
    assert GoodItem(s, address, Box(s, address)[0]) && GoodSession(s.sent, address, session);
    CStrOfNulFree(session.uuid);
    CStrOfNulFree(CorrelationId(s.sent[mail.request].frames));
    if mail.request == session.request {
      assert mail.frames[1..] == CStrs(s.calls[mail.call].outcome.results);
    } else if mail.request < session.request {
      assert !SameId(s.sent[mail.request], s.sent[session.request]);
    } else {
      assert !SameId(s.sent[session.request], s.sent[mail.request]);
    }
  }

  /** What anybody else has written to it, it takes for its answer exactly if it carries the id. */
  lemma ForeignMatch(s: State, address: string)
    requires Inv(s) && Enabled(s, Receive(address)) && Box(s, address)[0].Foreign?
    ensures var frames := Box(s, address)[0].frames;
      Received(s, address) ==
        if frames == [] then NoCorrelationId
        else if CStr(frames[0]) == s.sessions[address].uuid then Frames(CStrs(frames[1..]))
        else MismatchedCorrelationId
  {
    assert GoodSession(s.sent, address, s.sessions[address]);
    CStrOfNulFree(s.sessions[address].uuid);
  }

  /** The session at `address` ends; unless it took its own reply, its request becomes an orphan. */
  lemma EndKeeps(s: State, s': State, address: string, took: nat)
    requires Inv(s) && address in s.sessions && took <= 1 && took <= |Box(s, address)|
    requires s'.sent == s.sent && s'.processed == s.processed && s'.calls == s.calls && s'.replied == s.replied
    requires s'.sessions == s.sessions - {address}
    requires forall a :: Box(s', a) == if a == address then Box(s, a)[took..] else Box(s, a)
    requires s.orphans <= s'.orphans
    requires s.sessions[address].request in s'.orphans ||
             (took == 1 && Answers(Box(s, address)[0], s.sessions[address].request))
    ensures Inv(s')
  {
    var q := s.sessions[address].request;
    forall k | 0 <= k < |s.sent| && Expected(s, k) && (k != q || q in s'.orphans)
      ensures Expected(s', k)
    {
    }
    forall a
      ensures BoxInv(s', a)
    {
      assert BoxInv(s, a);
      EndKeepsBox(s, s', address, took, a);
    }
    forall k | s'.processed <= k < |s'.sent|
      ensures Expected(s', k)
    {
      assert Expected(s, k) && BoxInv(s, address);
      if q !in s'.orphans { assert GoodItem(s, address, Box(s, address)[0]); }
    }
  }

  lemma EndKeepsBox(s: State, s': State, address: string, took: nat, a: string)
    requires BoxInv(s, a) && address in s.sessions && took <= 1 && took <= |Box(s, address)|
    requires s'.sent == s.sent && s'.processed == s.processed && s'.calls == s.calls
    requires Box(s', a) == if a == address then Box(s, a)[took..] else Box(s, a)
    requires s'.sessions == s.sessions - {address} && s.orphans <= s'.orphans
    requires s.sessions[address].request in s'.orphans ||
             (took == 1 && Answers(Box(s, address)[0], s.sessions[address].request))
    ensures BoxInv(s', a)
  {
    var box, box' := Box(s, a), Box(s', a);
    var d := if a == address then took else 0;
    assert box' == box[d..];
    forall i | 0 <= i < |box'|
      ensures GoodItem(s', a, box'[i])
    {
      assert box'[i] == box[i + d] && GoodItem(s, a, box[i + d]);
      if d == 1 { assert GoodItem(s, a, box[0]); }
    }
  }

  /** Mail that anybody sends to anybody but the server. */
  lemma OtherMailKeeps(s: State, address: string, frames: seq<string>)
    requires Inv(s)
    ensures Inv(Apply(s, OtherMail(address, frames)))
  {
    var s' := Apply(s, OtherMail(address, frames));
    forall a
      ensures BoxInv(s', a)
    {
      assert BoxInv(s, a);
      var box, box' := Box(s, a), Box(s', a);
      assert box' == if a == address then box + [Foreign(frames)] else box;
      forall i | 0 <= i < |box'|
        ensures GoodItem(s', a, box'[i])
      {
        if i < |box| { assert GoodItem(s, a, box[i]); }
      }
    }
    forall k | s'.processed <= k < |s'.sent|
      ensures Expected(s', k)
    {
      assert Expected(s, k);
    }
  }

  lemma OldSessions(s: State, sent: seq<Request>)
    requires Inv(s) && s.sent <= sent
    ensures forall a :: a in s.sessions ==> GoodSession(sent, a, s.sessions[a])
  {
    forall a | a in s.sessions
      ensures GoodSession(sent, a, s.sessions[a])
    {
      assert GoodSession(s.sent, a, s.sessions[a]);
    }
  }

  lemma ClientSendKeeps(s: State, step: Step)
    requires Inv(s) && step.ClientSend? && Enabled(s, step)
    ensures Inv(Apply(s, step))
  {
    var s' := Apply(s, step);
    var address := Address.UniqueId(step.clientId, step.pid);
    CStrOfNulFree(step.uuid);
    CStrOfNulFree(CStr(step.uuid));
    OldSessions(s, s'.sent);
    assert GoodSession(s'.sent, address, s'.sessions[address]);
    SendKeeps(s, s', s'.sent[|s.sent|]);
  }

  lemma OtherSendKeeps(s: State, r: Request)
    requires Inv(s) && Enabled(s, OtherSend(r))
    ensures Inv(Apply(s, OtherSend(r)))
  {
    OldSessions(s, s.sent + [r]);
    SendKeeps(s, Apply(s, OtherSend(r)), r);
  }

  lemma ReceiveKeeps(s: State, address: string)
    requires Inv(s) && Enabled(s, Receive(address))
    ensures Inv(Apply(s, Receive(address)))
  {
    EndKeeps(s, Apply(s, Receive(address)), address, 1);
  }

  lemma StepKeeps(s: State, step: Step)
    requires Inv(s) && Enabled(s, step)
    ensures Inv(Apply(s, step))
  {
    match step
    case ClientSend(_, _, _, _) => ClientSendKeeps(s, step);
    case OtherSend(r) => OtherSendKeeps(s, r);
    case OtherMail(address, frames) => OtherMailKeeps(s, address, frames);
    case Serve(outcome, sendOk) => ServeKeeps(s, outcome, sendOk);
    case Receive(address) => ReceiveKeeps(s, address);
    case Abandon(address) => EndKeeps(s, Apply(s, step), address, 0);
  }

  lemma {:induction false} RunKeeps(s: State, run: seq<Step>)
    requires Inv(s) && Legal(s, run)
    ensures Inv(After(s, run))
    decreases run
  {
    if run != [] {
      StepKeeps(s, run[0]);
      RunKeeps(Apply(s, run[0]), run[1..]);
    }
  }

  // ------------------------------------------------------------------ over whole runs

  /** What the server has to do with `address` getting the answer `frames` to request `q`: it called the
      handler for it, with the address and the payload, and this is what the handler returned. */
  predicate Answered(s: State, address: string, q: nat, call: nat, frames: Payload)
    requires q < |s.sent| && |address| < Address.SIZE_VALUES && call < |s.calls|
  {
    && s.calls[call].request == q && s.calls[call].sender == Address.Sender(address)
    && s.sent[q].frames != [] && s.calls[call].payload == CStrs(s.sent[q].frames[1..])
    && s.calls[call].outcome.Returns? && frames == CStrs(s.calls[call].outcome.results)
  }

  /** In every interleaving: a client that finds a reply of the server returns the handler's result for
      its own request, as C strings, the handler having been called with its address and its payload;
      or it raises a mismatch, and then the reply was to another request of its address that nobody
      waits for. It never returns another request's answer. Mail of anybody else it takes for its
      answer exactly if that carries its correlation id, and only such mail can lack one. */
  lemma ClientsGetTheirOwnAnswer(run: seq<Step>, address: string)
    requires Legal(Init(), run) && Enabled(After(Init(), run), Receive(address))
    ensures var s := After(Init(), run);
      var item := Box(s, address)[0];
      var Session(uuid, q) := s.sessions[address];
      && q < |s.sent| && s.sent[q].from == address && |address| < Address.SIZE_VALUES
      && match item {
           case FromServer(mail) =>
             mail.call < |s.calls| &&
             (match Received(s, address)
              case Frames(frames) => mail.request == q && Answered(s, address, q, mail.call, frames)
              case MismatchedCorrelationId =>
                mail.request != q && mail.request in s.orphans && mail.request < |s.sent| &&
                s.sent[mail.request].from == address
              case _ => false)
           case Foreign(mail) =>
             match Received(s, address)
             case Frames(frames) => mail != [] && CStr(mail[0]) == uuid && frames == CStrs(mail[1..])
             case MismatchedCorrelationId => mail != [] && CStr(mail[0]) != uuid
             case NoCorrelationId => mail == []
             case _ => false
         }
  {
    RunKeeps(Init(), run);
    var s := After(Init(), run);
    assert BoxInv(s, address) && GoodSession(s.sent, address, s.sessions[address]);
    match Box(s, address)[0]
    case Foreign(_) => ForeignMatch(s, address);
    case FromServer(mail) =>
      MatchIsOwn(s, address);
      assert GoodItem(s, address, Box(s, address)[0]);
      assert GoodCall(s.sent, s.processed, s.calls[mail.call]);
      CStrsStable(s.calls[mail.call].outcome.results);
  }

  /** In every interleaving: a reply of the server in flight to an address carries the id of a request
      sent from that address and what the handler returned for it, called with the sender and payload of
      it; no two replies in flight are to the same request. */
  lemma RepliesInFlight(run: seq<Step>, address: string, i: nat)
    requires Legal(Init(), run)
    requires i < |Box(After(Init(), run), address)| && Box(After(Init(), run), address)[i].FromServer?
    ensures var s := After(Init(), run);
      var mail := Box(s, address)[i].mail;
      && mail.request < s.processed <= |s.sent| && s.sent[mail.request].from == address
      && |address| < Address.SIZE_VALUES && s.sent[mail.request].frames != []
      && mail.frames != []
      && mail.call < |s.calls| && Answered(s, address, mail.request, mail.call, mail.frames[1..])
      && mail.frames[0] == CStr(s.sent[mail.request].frames[0])
    ensures forall a, j :: 0 <= j < |Box(After(Init(), run), a)| && (a != address || j != i) ==>
      !Answers(Box(After(Init(), run), a)[j], Box(After(Init(), run), address)[i].mail.request)
  {
    RunKeeps(Init(), run);
    var s := After(Init(), run);
    var mail := Box(s, address)[i].mail;
    assert BoxInv(s, address) && GoodItem(s, address, Box(s, address)[i]);
    assert GoodCall(s.sent, s.processed, s.calls[mail.call]);
    forall a, j | 0 <= j < |Box(s, a)| && (a != address || j != i)
      ensures !Answers(Box(s, a)[j], mail.request)
    {
      assert BoxInv(s, a) && GoodItem(s, a, Box(s, a)[j]);
    }
  }

  /** Each request causes at most one handler call and at most one reply. */
  lemma AtMostOnce(run: seq<Step>)
    requires Legal(Init(), run)
    ensures var s := After(Init(), run);
      && (forall i, j :: 0 <= i < j < |s.calls| ==> s.calls[i].request < s.calls[j].request < |s.sent|)
      && (forall i, j :: 0 <= i < j < |s.replied| ==> s.replied[i] < s.replied[j] < |s.sent|)
  {
    RunKeeps(Init(), run);
    var s := After(Init(), run);
    forall i, j | 0 <= i < j < |s.calls|
      ensures s.calls[i].request < s.calls[j].request < |s.sent|
    {
      assert CallRequests(s.calls)[i] < CallRequests(s.calls)[j];
    }
  }

  // ------------------------------------------------------------------ when a client gets its answer

  /** The server calls its handler for such a request. */
  predicate Answerable(r: Request) {
    r.subject == "REQUEST" && CorrelationId(r.frames) != ""
  }

  /** Nothing lies in the mailbox of the address and nothing that can still be answered to it is queued
      at the server. */
  predicate Clean(s: State, a: string) {
    Box(s, a) == [] &&
    forall k :: s.processed <= k < |s.sent| && s.sent[k].from == a ==> !Answerable(s.sent[k])
  }

  /** Whatever the address has or can still get from the server answers request `q`. */
  predicate OnlyAnswer(s: State, a: string, q: nat) {
    && (forall i :: 0 <= i < |Box(s, a)| ==> Answers(Box(s, a)[i], q))
    && (forall k :: s.processed <= k < |s.sent| && k != q && s.sent[k].from == a ==> !Answerable(s.sent[k]))
  }

  /** A client that waits at the address will find its own answer, one that comes there will. */
  predicate InOrder(s: State, a: string) {
    if a in s.sessions then OnlyAnswer(s, a, s.sessions[a].request) else Clean(s, a)
  }

  /** Nobody else writes to the address or in its name, and no client is interrupted there. */
  predicate UndisturbedAt(a: string, step: Step) {
    match step
    case OtherSend(r) => r.from != a
    case OtherMail(address, _) => address != a
    case Abandon(address) => address != a
    case _ => true
  }

  lemma ServeKeepsOnlyAnswer(s: State, outcome: HandlerOutcome, sendOk: bool, a: string, q: nat)
    requires Enabled(s, Serve(outcome, sendOk)) && OnlyAnswer(s, a, q)
    ensures OnlyAnswer(ServeNext(s, outcome, sendOk), a, q)
  {
    var s' := ServeNext(s, outcome, sendOk);
    NewMail(s, outcome, sendOk, a);
    if Box(s', a) != Box(s, a) {
      assert Answerable(s.sent[s.processed]) && s.sent[s.processed].from == a;
    }
  }

  lemma OneAnswer(box: seq<Item>, q: nat)
    requires Ordered(box)
    ensures |box| <= 1 || !Answers(box[0], q) || !Answers(box[1], q)
  {
  }

  /** A client that finds its own reply leaves the address clean: there is one reply to a request. */
  lemma OwnReplyWasTheLast(s: State, a: string)
    requires Inv(s) && Enabled(s, Receive(a)) && OnlyAnswer(s, a, s.sessions[a].request)
    ensures FindsOwn(s, a) && Clean(Apply(s, Receive(a)), a)
  {
    var box, s' := Box(s, a), Apply(s, Receive(a));
    assert BoxInv(s, a) && GoodItem(s, a, box[0]) && Answers(box[0], s.sessions[a].request);
    OneAnswer(box, s.sessions[a].request);
    assert Box(s', a) == box[1..];
  }

  lemma ClientSendKeepsOrder(s: State, step: Step, a: string)
    requires Inv(s) && InOrder(s, a) && step.ClientSend? && Enabled(s, step)
    ensures InOrder(Apply(s, step), a)
  {
    assert Box(Apply(s, step), a) == Box(s, a);
  }

  lemma OtherReceiveKeepsOrder(s: State, address: string, a: string)
    requires InOrder(s, a) && Enabled(s, Receive(address)) && address != a
    ensures InOrder(Apply(s, Receive(address)), a)
  {
    assert Box(Apply(s, Receive(address)), a) == Box(s, a);
  }

  lemma StepKeepsOrder(s: State, step: Step, a: string)
    requires Inv(s) && InOrder(s, a) && Enabled(s, step) && UndisturbedAt(a, step)
    ensures InOrder(Apply(s, step), a)
  {
    var s' := Apply(s, step);
    match step
    case ClientSend(_, _, _, _) => ClientSendKeepsOrder(s, step, a);
    case OtherSend(_) => assert Box(s', a) == Box(s, a);
    case OtherMail(_, _) => assert Box(s', a) == Box(s, a);
    case Serve(outcome, sendOk) => ServeKeepsOrder(s, outcome, sendOk, a);
    case Receive(address) =>
      if address == a { OwnReplyWasTheLast(s, a); } else { OtherReceiveKeepsOrder(s, address, a); }
    case Abandon(_) => assert Box(s', a) == Box(s, a);
  }

  lemma ServeKeepsOrder(s: State, outcome: HandlerOutcome, sendOk: bool, a: string)
    requires Enabled(s, Serve(outcome, sendOk)) && InOrder(s, a)
    ensures InOrder(ServeNext(s, outcome, sendOk), a)
  {
    NewMail(s, outcome, sendOk, a);
    if a in s.sessions {
      ServeKeepsOnlyAnswer(s, outcome, sendOk, a, s.sessions[a].request);
    }
  }

  /** Every address is in order when no request has been orphaned and only the server has written. */
  lemma UnorphanedIsInOrder(s: State, a: string)
    requires Inv(s) && s.orphans == {}
    requires forall i :: 0 <= i < |Box(s, a)| ==> Box(s, a)[i].FromServer?
    ensures InOrder(s, a)
  {
    assert BoxInv(s, a);
    forall i | 0 <= i < |Box(s, a)|
      ensures Expected(s, Box(s, a)[i].mail.request) && s.sent[Box(s, a)[i].mail.request].from == a
    {
      assert GoodItem(s, a, Box(s, a)[i]);
    }
    forall k | s.processed <= k < |s.sent| && s.sent[k].from == a
      ensures a in s.sessions && s.sessions[a].request == k
    {
      assert Expected(s, k);
    }
    if Box(s, a) != [] {
      assert Expected(s, Box(s, a)[0].mail.request);
    }
  }

  /** At an address that is in order to begin with, and where nobody else interferes, every client gets
      its own answer, whatever happens at other addresses. */
  lemma {:induction false} NoMismatchUndisturbed(s: State, run: seq<Step>, a: string)
    requires Inv(s) && InOrder(s, a) && Legal(s, run)
    requires forall i :: 0 <= i < |run| ==> UndisturbedAt(a, run[i])
    ensures InOrder(After(s, run), a)
    ensures Enabled(After(s, run), Receive(a)) ==>
      FindsOwn(After(s, run), a) && Received(After(s, run), a).Frames?
    decreases run
  {
    if run == [] {
      if Enabled(s, Receive(a)) {
        OwnReplyWasTheLast(s, a);
        MatchIsOwn(s, a);
      }
    } else {
      StepKeeps(s, run[0]);
      StepKeepsOrder(s, run[0], a);
      NoMismatchUndisturbed(Apply(s, run[0]), run[1..], a);
    }
  }

  /** The client at the address goes on waiting, and nobody else writes to it. */
  predicate LeavesWaiting(a: string, step: Step) {
    match step
    case OtherMail(address, _) => address != a
    case Receive(address) => address != a
    case Abandon(address) => address != a
    case _ => true
  }

  /** A run during which the client at the address waits, and after which it finds something else. */
  ghost predicate Misled(s: State, run: seq<Step>, a: string) {
    && Legal(s, run) && (forall i :: 0 <= i < |run| ==> LeavesWaiting(a, run[i]))
    && Enabled(After(s, run), Receive(a)) && !FindsOwn(After(s, run), a)
  }

  lemma StillWaiting(s: State, step: Step, a: string)
    requires Enabled(s, step) && a in s.sessions && LeavesWaiting(a, step)
    ensures a in Apply(s, step).sessions && UndisturbedAt(a, step)
  {
  }

  lemma {:induction false} NotMisled(s: State, run: seq<Step>, a: string)
    requires Inv(s) && a in s.sessions && InOrder(s, a)
    ensures !Misled(s, run, a)
    decreases run
  {
    if run == [] {
      if Enabled(s, Receive(a)) { OwnReplyWasTheLast(s, a); }
    } else if Enabled(s, run[0]) && LeavesWaiting(a, run[0]) {
      StillWaiting(s, run[0], a);
      StepKeeps(s, run[0]);
      StepKeepsOrder(s, run[0], a);
      NotMisled(Apply(s, run[0]), run[1..], a);
    }
  }

  lemma ServePast(s: State, a: string)
    requires Inv(s) && a in s.sessions && Box(s, a) == [] && s.processed < |s.sent|
    ensures Enabled(s, Serve(Throws, true))
    ensures var s' := ServeNext(s, Throws, true);
      && s'.sessions == s.sessions && s'.sent == s.sent && s'.processed == s.processed + 1 && Box(s', a) == []
  {
  }

  lemma ServeStale(s: State, a: string)
    requires Inv(s) && a in s.sessions && Box(s, a) == [] && s.processed < |s.sent|
    requires s.processed != s.sessions[a].request && s.sent[s.processed].from == a
    requires Answerable(s.sent[s.processed])
    ensures Misled(s, [Serve(Returns([""]), true)], a)
  {
    var run := [Serve(Returns([""]), true)];
    var s' := Apply(s, run[0]);
    assert Box(s', a)[0].mail.request == s.processed;
    assert run[1..] == [] && Legal(s', []);
  }

  /** The server gets to request `k` with nothing for the address before, and answers that. */
  lemma {:induction false} StaleAnswer(s: State, a: string, k: nat) returns (run: seq<Step>)
    requires Inv(s) && a in s.sessions && Box(s, a) == [] && s.processed <= k < |s.sent|
    requires k != s.sessions[a].request && s.sent[k].from == a && Answerable(s.sent[k])
    ensures Misled(s, run, a)
    decreases k - s.processed
  {
    if k == s.processed {
      ServeStale(s, a);
      run := [Serve(Returns([""]), true)];
    } else {
      ServePast(s, a);
      StepKeeps(s, Serve(Throws, true));
      var rest := StaleAnswer(ServeNext(s, Throws, true), a, k);
      StepBefore(s, Serve(Throws, true), rest, a);
      run := [Serve(Throws, true)] + rest;
    }
  }

  lemma StepBefore(s: State, step: Step, rest: seq<Step>, a: string)
    requires Enabled(s, step) && LeavesWaiting(a, step) && Misled(Apply(s, step), rest, a)
    ensures Misled(s, [step] + rest, a)
  {
    var run := [step] + rest;
    assert run[1..] == rest;
    forall i | 0 <= i < |run|
      ensures LeavesWaiting(a, run[i])
    {
      if i > 0 { assert run[i] == rest[i - 1]; }
    }
  }

  /** Told by what there is when a client sends its request: as long as it waits and nobody else writes to
      it, it can find anything but its own answer exactly if something lies in its mailbox already, or a
      request of an earlier client of the same address is queued at the server that can be answered. */
  lemma OwnAnswerIff(before: seq<Step>, clientId: string, pid: int, uuid: string, payload: Payload)
    requires Legal(Init(), before)
    requires Enabled(After(Init(), before), ClientSend(clientId, pid, uuid, payload))
    ensures var s, a := After(Init(), before), Address.UniqueId(clientId, pid);
      var s1 := Apply(s, ClientSend(clientId, pid, uuid, payload));
      !Clean(s, a) <==> exists run :: Misled(s1, run, a)
  {
    var s, a := After(Init(), before), Address.UniqueId(clientId, pid);
    var step := ClientSend(clientId, pid, uuid, payload);
    var s1 := Apply(s, step);
    RunKeeps(Init(), before);
    StepKeeps(s, step);
    if Clean(s, a) {
      StepKeepsOrder(s, step, a);
      forall run
        ensures !Misled(s1, run, a)
      {
        NotMisled(s1, run, a);
      }
    } else {
      var run := FindStale(s, step, a);
    }
  }

  lemma FindStale(s: State, step: Step, a: string) returns (run: seq<Step>)
    requires Inv(s) && step.ClientSend? && Enabled(s, step) && a == Address.UniqueId(step.clientId, step.pid)
    requires !Clean(s, a)
    ensures Misled(Apply(s, step), run, a)
  {
    var s1 := Apply(s, step);
    StepKeeps(s, step);
    assert Box(s1, a) == Box(s, a) && s1.sessions[a].request == |s.sent|;
    if Box(s, a) != [] {
      assert BoxInv(s, a) && GoodItem(s, a, Box(s, a)[0]);
      run := [];
      assert Legal(s1, []);
    } else {
      var k :| s.processed <= k < |s.sent| && s.sent[k].from == a && Answerable(s.sent[k]);
      assert s1.sent[k] == s.sent[k];
      run := StaleAnswer(s1, a, k);
    }
  }

  /** With an interrupt it can happen: the reply to an abandoned request waits in the mailbox for the
      next client of the same id and thread, and that one fails, its own request being fine. */
  lemma StaleReplyIsMismatched(clientId: string, pid: int, uuid1: string, uuid2: string, results: Payload)
    requires |Address.UniqueId(clientId, pid)| < Address.SIZE_VALUES && results != []
    requires uuid1 != uuid2 && uuid1 != "" && NulFree(uuid1) && uuid2 != "" && NulFree(uuid2)
    ensures var run := [ClientSend(clientId, pid, uuid1, []), Abandon(Address.UniqueId(clientId, pid)),
                        ClientSend(clientId, pid, uuid2, []), Serve(Returns(results), true)];
      && Legal(Init(), run) && Enabled(After(Init(), run), Receive(Address.UniqueId(clientId, pid)))
      && Received(After(Init(), run), Address.UniqueId(clientId, pid)) == MismatchedCorrelationId
  {
    var a := Address.UniqueId(clientId, pid);
    var run := [ClientSend(clientId, pid, uuid1, []), Abandon(a),
                ClientSend(clientId, pid, uuid2, []), Serve(Returns(results), true)];
    CStrOfNulFree(uuid1);
    CStrOfNulFree(uuid2);
    var s1 := Apply(Init(), run[0]);
    var s2 := Apply(s1, run[1]);
    var s3 := Apply(s2, run[2]);
    var s4 := Apply(s3, run[3]);
    assert s3.sent[0].frames[0] == uuid1 && s3.sessions[a] == Session(uuid2, 1);
    assert run[1..][1..] == run[2..] && run[2..][1..] == run[3..] && run[3..][1..] == [];
    assert Legal(s4, []);
    assert Legal(s3, run[3..]) && After(s3, run[3..]) == s4;
    assert Legal(s2, run[2..]) && After(s2, run[2..]) == s4;
    assert Legal(s1, run[1..]) && After(s1, run[1..]) == s4;
  }
}
