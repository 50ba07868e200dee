/**
  From what the reader delivers to what a waiting request is answered with: broadcasting and response matching of
  `src/device.rs`.
 */
module Replies {
  import opened Bytes
  import opened Frames
  import opened Payloads
  import opened Reader

  /** The top-level "cid" of a JSON text: absent, present but not a string, or a string. */
  datatype CidField = NoCid | OddCid | Cid(text: string)

  /** What an error message may carry along: nothing, the error's text, or something about a delivery. */
  datatype Detail = NoDetail | Text(error: Error) | About(delivery: Delivery)

  /** JSON as the code uses it: `parse` gives the cid field of a JSON text, `render` the text of an error message. */
  datatype Json = Json(parse: bytes -> Option<CidField>, render: (nat, Detail) -> bytes)
  {
    /** A rendered message is JSON again. */
    ghost predicate Lawful() {
      forall code: nat, d: Detail :: parse(render(code, d)).Some? && render(code, d) != []
    }
  }

  const ERR_JSON := 900
  const ERR_PAYLOAD := 904
  const ERR_DEVTYPE := 908

  /** `error_helper`: command 0 and a JSON payload. */
  function ErrorMessage(json: Json, code: nat, detail: Detail, prefix: u32): Message {
    Message(0, 0, None, json.render(code, detail), prefix, None)
  }

  /** The message of a delivery, before it is checked for JSON. */
  function AsMessage(json: Json, d: Delivery, prefix: u32): Message {
    match d
    case Plain(msg) => msg
    case DevTypeReport(_) => ErrorMessage(json, ERR_DEVTYPE, About(d), prefix)
    case PayloadReport(e) => ErrorMessage(json, ERR_PAYLOAD, Text(e), prefix)
  }

  /** The two origins of a broadcast: a delivery of the reader, or the connection task's news of itself. */
  datatype News = Read(delivery: Delivery) | Notice(code: nat, detail: Detail)

  /** `process_socket_data` and `broadcast_error`: what is broadcast. */
  function Broadcast(json: Json, n: News, prefix: u32): Message {
    match n
    case Notice(code, detail) => ErrorMessage(json, code, detail, prefix)
    case Read(d) =>
      var msg := AsMessage(json, d, prefix);
      if msg.payload == [] || json.parse(msg.payload).Some? then msg else ErrorMessage(json, ERR_JSON, About(d), prefix)
  }

  /**
    Nothing else is ever broadcast than an empty payload or a JSON text, and everything but a device's own message as
    command 0.
   */
  lemma BroadcastIsEmptyOrJson(json: Json, n: News, prefix: u32)
    requires json.Lawful()
    ensures var msg := Broadcast(json, n, prefix); msg.payload == [] || json.parse(msg.payload).Some?
    ensures (n.Notice? || !n.delivery.Plain?) ==> Broadcast(json, n, prefix).cmd == 0
  {
    assert forall code: nat, d: Detail :: json.parse(json.render(code, d)).Some?;
  }

  // ---------------------------------------------------------------- the wait loop

  /** A request that waits: the command it expects back and its sub-device, if any. */
  datatype Awaited = Awaited(effective: u32, cid: Option<string>)

  /** What the broadcast receiver yields: a message, or the news that it lagged behind or was closed. */
  datatype Arrival = Arrived(msg: Message) | Missed

  /** The branches of the wait loop, the fall-through for a payload that is not JSON included. */
  predicate Accepts(json: Json, want: Awaited, msg: Message) {
    if msg.cmd == 0 then true
    else if msg.cmd != want.effective && msg.cmd != STATUS then false
    else if msg.payload == [] then msg.cmd != LAN_EXT_STREAM
    else
      match json.parse(msg.payload)
      case Some(field) => field == if want.cid.Some? then Cid(want.cid.value) else NoCid
      case None => true
  }

  /**
    The loop: the place of the message or loss that ends it, and what it ends with; `None` if the messages run out
    first.
   */
  method AwaitReply(json: Json, want: Awaited, arrivals: seq<Arrival>) returns (r: Option<Result<Message>>, at: nat)
    ensures at <= |arrivals| && (r.None? <==> at == |arrivals|)
    ensures forall j | 0 <= j < at :: arrivals[j].Arrived? && !Accepts(json, want, arrivals[j].msg)
    ensures at < |arrivals| ==>
              match arrivals[at]
              case Arrived(msg) => Accepts(json, want, msg) && r == Some(Ok(msg))
              case Missed => r == Some(Err(Offline))
  {
    for i := 0 to |arrivals|
      invariant forall j | 0 <= j < i :: arrivals[j].Arrived? && !Accepts(json, want, arrivals[j].msg)
    {
      match arrivals[i]
      case Missed => return Some(Err(Offline)), i;
      case Arrived(msg) =>
        if msg.cmd == 0 {
          return Some(Ok(msg)), i;
        }
        if msg.cmd == want.effective || msg.cmd == STATUS {
          var needsData := msg.cmd == LAN_EXT_STREAM;
          if want.cid.Some? {
            if msg.payload == [] {
              if !needsData {
                return Some(Ok(msg)), i;
              }
            } else {
              var field := json.parse(msg.payload);
              if field.None? || field.value == Cid(want.cid.value) {
                return Some(Ok(msg)), i;
              }
            }
          } else {
            if msg.payload == [] {
              if !needsData {
                return Some(Ok(msg)), i;
              }
            } else {
              var field := json.parse(msg.payload);
              if field.None? || field.value == NoCid {
                return Some(Ok(msg)), i;
              }
            }
          }
        }
    }
    return None, |arrivals|;
  }

  /** The rule a caller relies on; 8 is the Status command, 0x40 is LanExtStream. */
  ghost predicate Answers(json: Json, want: Awaited, msg: Message) {
    || msg.cmd == 0
    || ((msg.cmd == want.effective || msg.cmd == 0x08)
        && ((msg.payload == [] && msg.cmd != 0x40)
            || (msg.payload != [] && json.parse(msg.payload) == Some(if want.cid.Some? then Cid(want.cid.value)
                 else NoCid))))
  }

  /**
    On broadcast messages the loop follows that rule exactly: the fall-through for non-JSON payloads is never taken.
   */
  lemma WaitFollowsTheRule(json: Json, want: Awaited, n: News, prefix: u32)
    requires json.Lawful()
    ensures Accepts(json, want, Broadcast(json, n, prefix)) <==> Answers(json, want, Broadcast(json, n, prefix))
  {
    BroadcastIsEmptyOrJson(json, n, prefix);
  }

  /** A payload that is broadcast: empty, or JSON. */
  ghost predicate Sendable(json: Json, payload: bytes) {
    payload == [] || json.parse(payload).Some?
  }

  /**
    What is broadcast. A device's own message goes out as it is, exactly if its payload is empty or JSON; otherwise an
    error with code 900 about it. A change of device type goes out as error 908, a frame that could not be read as error
    904 with the reason, and the connection task's own news as the error it is. All errors are command 0, without return
    code.
   */
  lemma BroadcastExactly(json: Json, n: News, prefix: u32)
    requires json.Lawful()
    ensures var b := Broadcast(json, n, prefix);
            match n
            case Read(Plain(msg)) =>
              && (b == msg <==> Sendable(json, msg.payload))
              && (b != msg ==> b == Message(0, 0, None, json.render(900, About(Plain(msg))), prefix, None))
            case Read(DevTypeReport(was)) =>
              b == Message(0, 0, None, json.render(908, About(DevTypeReport(was))), prefix, None)
            case Read(PayloadReport(e)) => b == Message(0, 0, None, json.render(904, Text(e)), prefix, None)
            case Notice(code, detail) => b == Message(0, 0, None, json.render(code, detail), prefix, None)
  {
    assert forall code: nat, d: Detail :: json.parse(json.render(code, d)).Some?;
  }

  /**
    What a waiting request takes for its reply, told from the news itself: the device's own message if it answers by the
    rule, and every piece of bad news, a message that is not JSON included.
   */
  ghost predicate Meets(json: Json, want: Awaited, n: News) {
    match n
    case Read(Plain(msg)) => Sendable(json, msg.payload) ==> Answers(json, want, msg)
    case _ => true
  }

  lemma AcceptedExactly(json: Json, want: Awaited, n: News, prefix: u32)
    requires json.Lawful()
    ensures Accepts(json, want, Broadcast(json, n, prefix)) <==> Meets(json, want, n)
  {
    BroadcastExactly(json, n, prefix);
  }

  /**
    Without the filter in front of the broadcast the rule would fail: a non-JSON payload would answer any request for
    its command.
   */
  lemma FilterIsNeeded(json: Json, want: Awaited, msg: Message)
    requires msg.cmd != 0 && msg.cmd == want.effective && msg.payload != [] && json.parse(msg.payload).None?
    ensures Accepts(json, want, msg) && !Answers(json, want, msg)
  {
  }

  function Arrivals(json: Json, news: seq<News>, prefix: u32): seq<Arrival> {
    seq(|news|, i requires 0 <= i < |news| => Arrived(Broadcast(json, news[i], prefix)))
  }

  /** The first broadcast from `from` on that the loop accepts, or the number of broadcasts. */
  function FirstAccepted(json: Json, want: Awaited, prefix: u32, news: seq<News>, from: nat): (k: nat)
    ensures k <= |news|
    ensures k < |news| ==> from <= k && Accepts(json, want, Broadcast(json, news[k], prefix))
    ensures forall j | from <= j < k :: !Accepts(json, want, Broadcast(json, news[j], prefix))
    decreases |news| - from
  {
    if from >= |news| then |news|
    else if Accepts(json, want, Broadcast(json, news[from], prefix)) then from
    else FirstAccepted(json, want, prefix, news, from + 1)
  }

  /** The loop over what is broadcast from `from` on finds that one. */
  method AnswerFromNews(json: Json, want: Awaited, news: seq<News>, prefix: u32, from: nat) returns (at: nat)
    ensures at == FirstAccepted(json, want, prefix, news, from)
  {
    if from >= |news| {
      return |news|;
    }
    var heard := news[from..];
    var reply, k := AwaitReply(json, want, Arrivals(json, heard, prefix));
    assert forall j | 0 <= j < |heard| :: heard[j] == news[from + j];
    assert forall j | from <= j < from + k :: !Accepts(json, want, Broadcast(json, news[j], prefix)) by {
      forall j | from <= j < from + k ensures !Accepts(json, want, Broadcast(json, news[j], prefix)) {
        assert Arrivals(json, heard, prefix)[j - from].msg == Broadcast(json, news[j], prefix);
      }
    }
    return from + k;
  }

  /** A request is answered with the first news that meets it, and with none only if none does. */
  lemma FirstAcceptedMeets(json: Json, want: Awaited, prefix: u32, news: seq<News>, from: nat)
    requires json.Lawful()
    ensures var k := FirstAccepted(json, want, prefix, news, from);
            && (k < |news| ==> from <= k && Meets(json, want, news[k]))
            && (forall j | from <= j < k :: !Meets(json, want, news[j]))
  {
    forall n: News {
      AcceptedExactly(json, want, n, prefix);
    }
  }
}
