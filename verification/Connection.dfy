/**
  The connection task of `src/device.rs` as a step system.

  One step runs from one suspension point of the connection task to the next; the steps of the callers
  (submitting, stopping, closing) and of the reader task fall in between in any order. What the
  environment decides (timeouts, socket errors, what arrives) is part of the step.
 */
module Connection {
  import opened Bytes
  import opened Crypto
  import opened Payloads
  import opened Reader
  import opened Handshake
  import opened Retry
  import opened Replies

  const QUEUE_CAPACITY := 64

  datatype ConnectionState = Disconnected | Connected | Stopped

  /** A command in the queue; requests are numbered in the order in which they are submitted. */
  datatype Command = Request(id: nat) | Disconnect | ConnectNow

  /**
    How a request ends. A reply is a broadcast: the place where the request began to listen, and the place of the reply.
    A dropped reply channel is seen by the caller as `Offline`.
   */
  datatype Resolution = Replied(from: nat, at: nat) | Acknowledged | Refused(error: Error) | Dropped

  datatype Settled = Settled(id: nat, how: Resolution)

  /**
    A frame handed to the socket: its connection, its number, the request it carries, and the key it is protected with.
   */
  datatype Frame = Frame(
    attempt: nat, ordinal: nat, handshake: bool, request: Option<nat>, key: bytes, session: bool, version: Version)
  {
    /** The 32-bit sequence number on the wire. */
    function Seqno(): u32 {
      ordinal % WORD
    }
  }

  /** Where the connection task is suspended. */
  datatype Phase =
    | Staggering
    | RunTop
    | AttemptTop
    | BackingOff
    | Connecting
    | Negotiating(nonce: bytes)
    | OnDemand
    | Processing
    | Replying
    | Maintaining
    | Exited

  /** The connection task talks over an established connection. */
  predicate Talking(p: Phase) {
    p == Processing || p == Replying || p == Maintaining
  }

  /** What does not change: the ciphers, the local key, JSON, and what each request expects as its reply. */
  datatype Config = Config(suite: Suite, localKey: bytes, json: Json, prefix: u32, wants: nat -> Awaited)

  /** The requests: the one in hand, the queue they arrive in, and how the earlier ones ended. */
  datatype Ledger = Ledger(hand: Option<nat>, queue: seq<Command>, submitted: nat, settled: seq<Settled>,
      onDemand: set<nat>)

  /** The failure counters and the history they count. */
  datatype Tally = Tally(counters: Counters, history: seq<Occurrence>)

  /** A completed handshake: on which connection, our nonce, the reply to it, and the session key that came of it. */
  datatype Pact = Pact(attempt: nat, version: Version, nonce: bytes, reply: Option<Delivery>, key: bytes)

  /** The number of the connection, its next sequence number, and all frames sent and handshakes completed so far. */
  datatype Outbox = Outbox(attempt: nat, seqno: nat, sent: seq<Frame>, pacts: seq<Pact>)

  /** What the reader has broadcast so far, and where the request in hand began to listen. */
  datatype Air = Air(news: seq<News>, subscribed: nat)

  datatype Task = Task(
    phase: Phase,
    ledger: Ledger,
    conn: ConnectionState,
    persist: bool,
    cancelled: bool,
    version: Version,
    sessionKey: Option<bytes>,
    readerUp: bool,
    tally: Tally,
    air: Air,
    outbox: Outbox)

  function Initial(version: Version, persist: bool): Task {
    Task(Staggering, Ledger(None, [], 0, [], {}), Disconnected, persist, false, version, None, false,
         Tally(Counters(0, 0), []), Air([], 0), Outbox(0, 1, [], []))
  }

  // ---------------------------------------------------------------- pieces of a step

  function Requests(queue: seq<Command>): seq<nat> {
    if queue == [] then []
    else (if queue[0].Request? then [queue[0].id] else []) + Requests(queue[1..])
  }

  function SettleAll(ids: seq<nat>, how: Resolution): (r: seq<Settled>)
    ensures |r| == |ids|
  {
    seq(|ids|, i requires 0 <= i < |ids| => Settled(ids[i], how))
  }

  /** `drain_rx`. */
  function Drain(l: Ledger, how: Resolution): (r: Ledger)
    ensures l.settled <= r.settled
  {
    l.(queue := [], settled := l.settled + SettleAll(Requests(l.queue), how))
  }

  /** The request in hand is answered, or its reply channel dropped. */
  function Settle(l: Ledger, how: Resolution): (r: Ledger)
    ensures l.settled <= r.settled
  {
    if l.hand.None? then l else l.(hand := None, settled := l.settled + [Settled(l.hand.value, how)])
  }

  /** What the connection task holds and what is queued is dropped. */
  function DropAll(l: Ledger): (r: Ledger)
    ensures l.settled <= r.settled
  {
    Drain(Settle(l, Dropped), Dropped)
  }

  /** A new request enters the queue, or finds it closed. */
  function Enter(l: Ledger, open: bool): Ledger {
    if open then l.(submitted := l.submitted + 1, queue := l.queue + [Request(l.submitted)])
    else l.(submitted := l.submitted + 1, settled := l.settled + [Settled(l.submitted, Dropped)])
  }

  /** The request at the head of the queue is taken in hand. */
  function TakeUp(l: Ledger, demand: bool): Ledger
    requires l.queue != [] && l.queue[0].Request?
  {
    l.(hand := Some(l.queue[0].id), queue := l.queue[1..], onDemand := if demand then l.onDemand + {l.queue[0].id}
        else l.onDemand)
  }

  /** The connection task ends; the token is cancelled for the reader. */
  function Exit(t: Task): Task {
    t.(ledger := DropAll(t.ledger), phase := Exited, readerUp := false, cancelled := true)
  }

  function ClosedState(c: ConnectionState): ConnectionState {
    if c == Stopped then Stopped else Disconnected
  }

  function Note(t: Tally, o: Occurrence): Tally {
    Tally(Count(t.counters, o), t.history + [o])
  }

  function CurrentKey(cfg: Config, t: Task): bytes {
    if t.sessionKey.Some? then t.sessionKey.value else cfg.localKey
  }

  predicate KeyUsable(cfg: Config, t: Task) {
    |CurrentKey(cfg, t)| == 16
  }

  /**
    `build_message` and the packing: the number is used up even when the key cannot make a cipher and nothing is sent.
    Outside a handshake the frame is that of the request in hand, or a heartbeat if there is none.
   */
  function Emit(cfg: Config, t: Task, handshake: bool): (r: Outbox)
    ensures t.outbox.sent <= r.sent
  {
    var o := t.outbox;
    o.(seqno := o.seqno + 1,
       sent := if KeyUsable(cfg, t)
               then o.sent + [Frame(o.attempt, o.seqno, handshake, if handshake then None else t.ledger.hand,
                                    CurrentKey(cfg, t), t.sessionKey.Some?, t.version)]
               else o.sent)
  }

  predicate NeedsSessionKey(version: Version) {
    RequiresSessionKey(GetProtocol(version, DefaultType))
  }

  function StartConnecting(t: Task): Task {
    t.(phase := Connecting, outbox := t.outbox.(attempt := t.outbox.attempt + 1))
  }

  /** The connection stands: back to the loop, or first to the request that asked for it, before any reader runs. */
  function Establish(t: Task): Task {
    if t.ledger.hand.None? then t.(conn := Connected, phase := Maintaining, readerUp := true)
    else t.(conn := Connected, phase := Processing)
  }

  /** Connecting or negotiating failed. */
  function Fail(t: Task, e: Error): Task {
    var closed := t.(conn := ClosedState(t.conn));
    if t.ledger.hand.Some? then closed.(ledger := Settle(t.ledger, Refused(e)), phase := OnDemand)
    else
      var drained := closed.(ledger := Drain(t.ledger, Refused(e)));
      if !t.persist then drained.(phase := OnDemand)
      else drained.(tally := Note(t.tally, Failed), phase := AttemptTop)
  }

  /** `handle_disconnect` and what follows an error out of `maintain_connection`. */
  function Lose(t: Task, e: Error): Task {
    t.(conn := ClosedState(t.conn), sessionKey := None, readerUp := false,
       tally := Note(t.tally, Failed), ledger := Drain(t.ledger, Refused(e)), phase := RunTop)
  }

  // ---------------------------------------------------------------- steps

  /** Steps of the callers, on their own threads. */
  datatype CallerEvent =
    | Submit
    | SubmitControl(control: Command)
    | MarkStopped
    | CancelToken
    | Close
    | SetPersist(persist: bool)

  /** Steps of the connection task between connections, and its end. */
  datatype LoopEvent =
    | StaggerOver
    | EnterRun
    | EnterAttempt
    | BackoffOver
    | Take
    | Cancelled
    | CancelledInBackoff
    | CancelledInLoop

  /** Steps of the connection task on a connection, and of its reader. */
  datatype LinkEvent =
    | Discovered(version: Version)
    | ConnectFailed(error: Error)
    | TcpUp(nonce: bytes, written: Option<Error>)
    | Negotiated(reply: Option<Delivery>, written: Option<Error>)
    | Sent(written: Option<Error>, waits: bool)
    | LookForReply
    | ReplyTimedOut
    | ReplyMissed
    | Heartbeat(written: Option<Error>)
    | ReaderFailed(error: Error)
    | MessageIn(delivery: Delivery)

  datatype Event = ByCaller(caller: CallerEvent) | InLoop(loop: LoopEvent) | OnLink(link: LinkEvent)

  predicate CallerEnabled(t: Task, e: CallerEvent) {
    match e
    case Submit => t.phase == Exited || |t.ledger.queue| < QUEUE_CAPACITY
    case SubmitControl(c) => !c.Request? && (t.phase == Exited || |t.ledger.queue| < QUEUE_CAPACITY)
    case _ => true
  }

  predicate LoopEnabled(t: Task, e: LoopEvent) {
    match e
    case StaggerOver => t.phase == Staggering
    case EnterRun => t.phase == RunTop
    case EnterAttempt => t.phase == AttemptTop
    case BackoffOver => t.phase == BackingOff
    case Take => t.ledger.queue != [] && (t.phase == BackingOff || t.phase == OnDemand || t.phase == Maintaining)
    case Cancelled => t.cancelled && t.phase != Exited
    case CancelledInBackoff => t.cancelled && t.phase == BackingOff
    case CancelledInLoop => t.cancelled && t.phase == Maintaining
  }

  predicate LinkEnabled(t: Task, e: LinkEvent) {
    match e
    case Discovered(v) => t.phase == Connecting && t.version == AutoVersion && v != AutoVersion
    case ConnectFailed(_) => t.phase == Connecting || t.phase.Negotiating?
    case TcpUp(nonce, _) => t.phase == Connecting && |nonce| == 16
    case Negotiated(_, _) => t.phase.Negotiating?
    case Sent(_, _) => t.phase == Processing
    case LookForReply => t.phase == Replying
    case ReplyTimedOut => t.phase == Replying
    case ReplyMissed => t.phase == Replying && t.readerUp
    case Heartbeat(_) => t.phase == Maintaining && t.persist
    case ReaderFailed(_) => t.phase == Maintaining
    case MessageIn(_) => t.readerUp
  }

  predicate Enabled(t: Task, e: Event) {
    match e
    case ByCaller(c) => CallerEnabled(t, c)
    case InLoop(l) => LoopEnabled(t, l)
    case OnLink(l) => LinkEnabled(t, l)
  }

  function CallerStep(t: Task, e: CallerEvent): Task {
    match e
    case Submit => t.(ledger := Enter(t.ledger, t.phase != Exited))
    case SubmitControl(c) => if t.phase == Exited then t else t.(ledger := t.ledger.(queue := t.ledger.queue + [c]))
    case MarkStopped => t.(conn := Stopped)
    case CancelToken => t.(cancelled := true)
    case Close => t.(conn := ClosedState(t.conn))
    case SetPersist(b) => t.(persist := b)
  }

  /** `rx.recv()` in the three places that take commands. */
  function TakeStep(t: Task): Task
    requires t.ledger.queue != []
  {
    var l := t.ledger;
    var rest := t.(ledger := l.(queue := l.queue[1..]));
    match l.queue[0]
    case ConnectNow =>
      if t.phase == BackingOff then StartConnecting(rest)
      else if t.phase == OnDemand then rest.(phase := AttemptTop)
      else rest
    case Disconnect =>
      if t.phase == BackingOff then rest
      else if t.phase == OnDemand then Exit(rest)
      else Lose(rest, Offline)
    case Request(id) =>
      if t.phase == BackingOff then t.(ledger := Settle(TakeUp(l, false), Refused(Offline)))
      else if t.phase == OnDemand then StartConnecting(t.(ledger := TakeUp(l, true)))
      else t.(ledger := TakeUp(l, false), phase := Processing)
  }

  /** The head of the loop in `try_connect_with_backoff`. */
  function AttemptStep(t: Task): Task {
    var restarted := t.(outbox := t.outbox.(seqno := 1));
    if t.conn == Stopped then Exit(t.(ledger := Drain(t.ledger, Refused(Offline))))
    else if t.tally.counters.failures > 0 then restarted.(phase := BackingOff)
    else StartConnecting(restarted)
  }

  function LoopStep(t: Task, e: LoopEvent): Task
    requires LoopEnabled(t, e)
  {
    match e
    case StaggerOver => t.(phase := RunTop)
    case EnterRun => if t.conn == Stopped then Exit(t) else t.(outbox := t.outbox.(seqno := 1), phase := AttemptTop)
    case EnterAttempt => AttemptStep(t)
    case BackoffOver => StartConnecting(t)
    case Take => TakeStep(t)
    case Cancelled => Exit(t)
    case CancelledInBackoff => Exit(t.(ledger := Drain(t.ledger, Refused(Offline))))
    case CancelledInLoop => Exit(t.(conn := ClosedState(t.conn), sessionKey := None))
  }

  function TcpUpStep(cfg: Config, t: Task, nonce: bytes, written: Option<Error>): Task {
    var emitted := t.(outbox := Emit(cfg, t, true));
    if !NeedsSessionKey(t.version) then Establish(t)
    else if !KeyUsable(cfg, t) then Fail(emitted, EncryptionFailed)
    else if written.Some? then Fail(emitted, written.value)
    else emitted.(phase := Negotiating(nonce))
  }

  /** The session key is stored. */
  function Agree(t: Task, reply: Option<Delivery>, key: bytes): Task
    requires t.phase.Negotiating?
  {
    var pact := Pact(t.outbox.attempt, t.version, t.phase.nonce, reply, key);
    t.(sessionKey := Some(key), outbox := t.outbox.(pacts := t.outbox.pacts + [pact]))
  }

  function NegotiatedStep(cfg: Config, t: Task, reply: Option<Delivery>, written: Option<Error>): Task
    requires t.phase.Negotiating?
  {
    var emitted := t.(outbox := Emit(cfg, t, true));
    match Conclude(cfg.suite, GetProtocol(t.version, DefaultType), cfg.localKey, t.phase.nonce, reply)
    case Err(e) => Fail(t, e)
    case Crash => Exit(t)
    case Ok(agreement) =>
      if !KeyUsable(cfg, t) then Fail(emitted, EncryptionFailed)
      else if written.Some? then Fail(emitted, written.value)
      else Establish(Agree(emitted, reply, agreement.sessionKey))
  }

  /** Back in the loop; the reader runs from here on. */
  function Answered(t: Task, how: Resolution): Task {
    t.(ledger := Settle(t.ledger, how), phase := Maintaining, readerUp := true)
  }

  function SentStep(cfg: Config, t: Task, written: Option<Error>, waits: bool): Task {
    var emitted := t.(outbox := Emit(cfg, t, false));
    if !KeyUsable(cfg, t) then Answered(emitted, Refused(EncryptionFailed))
    else if written.Some? then Answered(emitted, Refused(written.value))
    else if waits then emitted.(phase := Replying, air := t.air.(subscribed := |t.air.news|))
    else Answered(emitted, Acknowledged)
  }

  /** The reply to the request in hand, if it has been broadcast since the request began to listen. */
  function ReplyHeard(cfg: Config, t: Task): (r: Option<Resolution>)
    ensures r.Some? ==> r.value.Replied?
  {
    if t.ledger.hand.None? then None
    else
      var k := FirstAccepted(cfg.json, cfg.wants(t.ledger.hand.value), cfg.prefix, t.air.news, t.air.subscribed);
      if k < |t.air.news| then Some(Replied(t.air.subscribed, k)) else None
  }

  /** The wait loop runs through what was broadcast since; the request is answered, or goes on waiting. */
  function LookStep(cfg: Config, t: Task): Task {
    match ReplyHeard(cfg, t)
    case Some(how) => Answered(t, how)
    case None => t
  }

  /** The reader broadcasts what it has read. */
  function Hear(t: Task, d: Delivery): Task {
    t.(tally := Note(t.tally, Received), air := t.air.(news := t.air.news + [Read(d)]))
  }

  function HeartbeatStep(cfg: Config, t: Task, written: Option<Error>): Task {
    var emitted := t.(outbox := Emit(cfg, t, false));
    if !KeyUsable(cfg, t) then Lose(emitted, EncryptionFailed)
    else if written.Some? then Lose(emitted, written.value)
    else emitted
  }

  function LinkStep(cfg: Config, t: Task, e: LinkEvent): Task
    requires LinkEnabled(t, e)
  {
    match e
    case Discovered(v) => t.(version := v)
    case ConnectFailed(error) => Fail(t, error)
    case TcpUp(nonce, written) => TcpUpStep(cfg, t, nonce, written)
    case Negotiated(reply, written) => NegotiatedStep(cfg, t, reply, written)
    case Sent(written, waits) => SentStep(cfg, t, written, waits)
    case LookForReply => LookStep(cfg, t)
    case ReplyTimedOut => Answered(t, Refused(Timeout))
    case ReplyMissed => Answered(t, Refused(Offline))
    case Heartbeat(written) => HeartbeatStep(cfg, t, written)
    case ReaderFailed(error) => Lose(t, error)
    case MessageIn(d) => Hear(t, d)
  }

  function Step(cfg: Config, t: Task, e: Event): Task
    requires Enabled(t, e)
  {
    match e
    case ByCaller(c) => CallerStep(t, c)
    case InLoop(l) => LoopStep(t, l)
    case OnLink(l) => LinkStep(cfg, t, l)
  }

  /** A sequence of steps each of which can happen where it stands. */
  ghost predicate Legal(cfg: Config, t: Task, events: seq<Event>)
    decreases |events|
  {
    events == [] || (Enabled(t, events[0]) && Legal(cfg, Step(cfg, t, events[0]), events[1..]))
  }

  ghost function Run(cfg: Config, t: Task, events: seq<Event>): Task
    requires Legal(cfg, t, events)
    decreases |events|
  {
    if events == [] then t else Run(cfg, Step(cfg, t, events[0]), events[1..])
  }
}
