/** One request and one reply: what the synchronous client builds and takes apart, and what the
    mailbox server makes of a message. */
module Mailbox {
  import opened Messages
  import Address

  /** What the handler of the server does with a request. */
  datatype HandlerOutcome = Returns(results: Payload) | Throws

  type Handler = (string, Payload) -> HandlerOutcome

  /** What the server makes of a mailbox message. */
  datatype Handling =
    | Ignored                                       // the subject is not "REQUEST"
    | Rejected                                      // no correlation id
    | Handled(sender: string, payload: Payload, outcome: HandlerOutcome)

  /** The correlation id of a request or a reply. */
  function CorrelationId(frames: seq<string>): string {
    if frames == [] then "" else CStr(frames[0])
  }

  function Handle(subject: string, from: string, frames: seq<string>, handler: Handler): Handling
    requires |from| < Address.SIZE_VALUES
  {
    if subject != "REQUEST" then Ignored
    else if CorrelationId(frames) == "" then Rejected
    else
      var sender, payload := Address.Sender(from), CStrs(frames[1..]);
      Handled(sender, payload, handler(sender, payload))
  }

  function RequestFrames(uuid: string, payload: Payload): seq<string> {
    [CStr(uuid)] + CStrs(payload)
  }

  /** The reply to a message, if there is one: only a handler that returns something gets one sent. */
  function ReplyTo(h: Handling, frames: seq<string>): Option<seq<string>> {
    if h.Handled? && h.outcome.Returns? && h.outcome.results != []
    then Some([CorrelationId(frames)] + CStrs(h.outcome.results)) else None
  }

  /** How `syncRequestWithReply` ends: with frames, or with one of its exceptions. */
  datatype SyncResult =
    | Frames(frames: Payload)
    | ConnectError
    | Interrupted
    | NoCorrelationId
    | MismatchedCorrelationId

  function ParseReply(uuid: string, reply: seq<string>): SyncResult {
    if reply == [] then NoCorrelationId
    else if CStr(reply[0]) != CStr(uuid) then MismatchedCorrelationId
    else Frames(CStrs(reply[1..]))
  }

  // ------------------------------------------------------------------ the objects

  datatype Mail = Mail(to: string, subject: string, frames: seq<string>)

  class MlmBasicMailboxServer {
    const handler: Handler
    var calls: seq<(string, Payload)>          // made to the handler
    var outbox: seq<Mail>

    constructor (handler: Handler)
      ensures this.handler == handler && calls == [] && outbox == []
    {
      this.handler, this.calls, this.outbox := handler, [], [];
    }

    /** Handles one message; whatever happens, the main loop is told to go on. */
    method HandleMailbox(subject: string, from: string, message: Zmsg, sendOk: bool) returns (goOn: bool)
      requires |from| < Address.SIZE_VALUES
      modifies this, message
      ensures goOn
      ensures var h := Handle(subject, from, old(message.frames), handler);
        && calls == old(calls) + (if h.Handled? then [(h.sender, h.payload)] else [])
        && outbox == old(outbox) +
             match ReplyTo(h, old(message.frames))
             case Some(frames) => if sendOk then [Mail(from, "REPLY", frames)] else []
             case None => []
    {
      if subject != "REQUEST" {
        return true;
      }
      var ptrCorrelationId := message.PopStr();
      var payload := message.PopPayload();
      var correlationId := "";
      if ptrCorrelationId.Some? {
        correlationId := ptrCorrelationId.value;
      }
      if correlationId == "" {
        return true;                               // thrown and caught: logged only
      }
      var sender := Address.Sender(from);
      calls := calls + [(sender, payload)];
      var outcome := handler(sender, payload);
      if outcome.Throws? {
        return true;
      }
      if outcome.results != [] {
        var reply := new Zmsg();
        reply.AddStr(correlationId);
        reply.AddPayload(outcome.results);
        CStrOfNulFree(correlationId);
        assert reply.frames == [correlationId] + CStrs(outcome.results);
        if sendOk {
          outbox := outbox + [Mail(from, "REPLY", reply.frames)];
        }
      }
      return true;
    }
  }

  class MlmSyncClient {
    const clientId: string
    const destination: string
    var outbox: seq<(string, Mail)>            // with the address they are sent from

    constructor (clientId: string, destination: string)
      ensures this.clientId == clientId && this.destination == destination && outbox == []
    {
      this.clientId, this.destination, this.outbox := clientId, destination, [];
    }

    /** `uuid` is the new correlation id and `recv` the message the client finds in its mailbox after
        sending; whether the connection and the send succeed and whether there is an interrupt before
        or after the send comes from outside as well. */
    method SyncRequestWithReply(payload: Payload, pid: int, uuid: string, recv: Zmsg, connectOk: bool,
                                sendOk: bool, interruptedBefore: bool, interruptedAfter: bool)
      returns (r: SyncResult)
      modifies this, recv
      ensures !connectOk ==> r == ConnectError && outbox == old(outbox)
      ensures connectOk && interruptedBefore ==> r == Interrupted && outbox == old(outbox)
      ensures connectOk && !interruptedBefore ==>
        && outbox == old(outbox) +
             (if sendOk then [(Address.UniqueId(clientId, pid),
                               Mail(destination, "REQUEST", RequestFrames(uuid, payload)))] else [])
        && r == if interruptedAfter then Interrupted else ParseReply(uuid, old(recv.frames))
    {
      var uniqueId := Address.UniqueId(clientId, pid);
      if !connectOk {
        return ConnectError;
      }
      var request := new Zmsg();
      request.AddStr(uuid);
      request.AddPayload(payload);
      assert request.frames == RequestFrames(uuid, payload);
      if interruptedBefore {
        return Interrupted;
      }
      if sendOk {
        outbox := outbox + [(uniqueId, Mail(destination, "REQUEST", request.frames))];
      }
      if interruptedAfter {
        return Interrupted;
      }
      if recv.Size() == 0 {
        return NoCorrelationId;
      }
      var str := recv.PopStr();
      if str.value != CStr(uuid) {
        return MismatchedCorrelationId;
      }
      var receivedFrames := recv.PopPayload();
      return Frames(receivedFrames);
    }
  }

  // ------------------------------------------------------------------ the round trip

  /** End to end, for any client, thread, payload, handler and correlation id: the handler is called
      with the client's id and the payload, every frame cut at its first NUL; if it returns something
      the client obtains that, cut likewise, and otherwise there is nothing for it to receive. */
  lemma EndToEnd(clientId: string, pid: int, uuid: string, payload: Payload, handler: Handler)
    requires |Address.UniqueId(clientId, pid)| < Address.SIZE_VALUES && uuid != "" && NulFree(uuid)
    ensures var request := RequestFrames(uuid, payload);
      var outcome := handler(clientId, CStrs(payload));
      var h := Handle("REQUEST", Address.UniqueId(clientId, pid), request, handler);
      && h == Handled(clientId, CStrs(payload), outcome)
      && match ReplyTo(h, request)
         case Some(reply) =>
           outcome.Returns? && outcome.results != [] && ParseReply(uuid, reply) == Frames(CStrs(outcome.results))
         case None => outcome.Throws? || outcome.results == []
  {
    var request := RequestFrames(uuid, payload);
    Address.SenderOfUniqueId(clientId, pid);
    CStrOfNulFree(uuid);
    assert request[1..] == CStrs(payload);
    CStrsStable(payload);
    var h := Handle("REQUEST", Address.UniqueId(clientId, pid), request, handler);
    var reply := ReplyTo(h, request);
    if reply.Some? {
      assert reply.value[1..] == CStrs(h.outcome.results);
      CStrsStable(h.outcome.results);
    }
  }

  /** On NUL-free payloads and results, the empty payload included, nothing at all is lost. */
  lemma EndToEndExact(clientId: string, pid: int, uuid: string, payload: Payload, handler: Handler)
    requires |Address.UniqueId(clientId, pid)| < Address.SIZE_VALUES && uuid != "" && NulFree(uuid)
    requires AllNulFree(payload) && handler(clientId, payload).Returns?
    requires handler(clientId, payload).results != [] && AllNulFree(handler(clientId, payload).results)
    ensures var request := RequestFrames(uuid, payload);
      var reply := ReplyTo(Handle("REQUEST", Address.UniqueId(clientId, pid), request, handler), request);
      reply.Some? && ParseReply(uuid, reply.value) == Frames(handler(clientId, payload).results)
  {
    CStrsStable(payload);
    CStrsStable(handler(clientId, payload).results);
    EndToEnd(clientId, pid, uuid, payload, handler);
  }
}
