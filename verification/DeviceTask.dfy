/**
  The device object of `src/device.rs` whose methods carry out the steps of the connection task on its fields.

  Each method changes the fields as the source does and is proved to be a step of `Connection`, and the object keeps the
  invariant of the step system; `RunTask` states what follows for the fields after any run.
 */
module DeviceTask {
  import opened Bytes
  import opened Crypto
  import opened Payloads
  import opened Reader
  import opened Handshake
  import opened Retry
  import opened Replies
  import opened Connection
  import opened TaskLaws
  import opened ReplyLaws
  import opened Conduct

  class ConnectionTask {
    const suite: Suite
    const localKey: bytes
    const json: Json
    const prefix: u32
    const wants: nat -> Awaited

    var phase: Phase
    var hand: Option<nat>
    var queue: seq<Command>
    var conn: ConnectionState
    var persist: bool
    var cancelled: bool
    var version: Version
    var sessionKey: Option<bytes>
    var readerUp: bool
    var failureCount: u32
    var successCount: u32
    var seqno: nat
    var news: seq<News>
    var subscribed: nat

    // What has happened so far.
    var submitted: nat
    ghost var settled: seq<Settled>
    ghost var onDemand: set<nat>
    ghost var history: seq<Occurrence>
    ghost var attempt: nat
    ghost var sent: seq<Frame>
    ghost var pacts: seq<Pact>

    constructor (suite: Suite, localKey: bytes, json: Json, prefix: u32, wants: nat -> Awaited,
                 version: Version, persist: bool)
      requires suite.Lawful() && json.Lawful()
      ensures Valid() && State() == Initial(version, persist)
      ensures phase == Staggering && hand == None && queue == [] && conn == Disconnected && !cancelled
      ensures sessionKey == None && !readerUp && failureCount == 0 && successCount == 0 && seqno == 1
      ensures this.version == version && this.persist == persist && settled == [] && sent == [] && news == []
      ensures Cfg() == Config(suite, localKey, json, prefix, wants)
    {
      this.suite, this.localKey, this.version, this.persist := suite, localKey, version, persist;
      this.json, this.prefix, this.wants := json, prefix, wants;
      news, subscribed := [], 0;
      phase, hand, queue, conn := Staggering, None, [], Disconnected;
      cancelled, sessionKey, readerUp := false, None, false;
      failureCount, successCount, seqno := 0, 0, 1;
      submitted, settled, onDemand, history, attempt, sent, pacts := 0, [], {}, [], 0, [], [];
      new;
      InitialIsInvariant(Cfg(), version, persist);
    }

    ghost function Books(): Ledger
      reads this
    {
      Ledger(hand, queue, submitted, settled, onDemand)
    }

    ghost function Counts(): Tally
      reads this
    {
      Tally(Counters(failureCount, successCount), history)
    }

    ghost function State(): Task
      reads this
    {
      Task(phase, Books(), conn, persist, cancelled, version, sessionKey, readerUp, Counts(), Air(news, subscribed),
           Outbox(attempt, seqno, sent, pacts))
    }

    ghost function Cfg(): Config {
      Config(suite, localKey, json, prefix, wants)
    }

    ghost predicate Valid()
      reads this
    {
      suite.Lawful() && json.Lawful() && Invariant(Cfg(), State())
    }

    // -------------------------------------------------------------- requests

    /** The oneshot reply to the request in hand, or its being dropped. */
    method Respond(how: Resolution)
      modifies this`hand, this`settled
      ensures Books() == Settle(old(Books()), how)
    {
      if hand.Some? {
        settled := settled + [Settled(hand.value, how)];
        hand := None;
      }
    }

    /** `drain_rx`: takes and answers commands until the queue is empty. */
    method DrainRx(how: Resolution)
      modifies this`queue, this`settled
      ensures Books() == Drain(old(Books()), how)
    {
      while queue != []
        invariant settled + SettleAll(Requests(queue), how) == old(settled) + SettleAll(Requests(old(queue)), how)
        decreases |queue|
      {
        var cmd := queue[0];
        if cmd.Request? {
          assert SettleAll(Requests(queue), how) == [Settled(cmd.id, how)] + SettleAll(Requests(queue[1..]), how);
          settled := settled + [Settled(cmd.id, how)];
        }
        queue := queue[1..];
      }
      assert SettleAll(Requests([]), how) == [];
    }

    method Leave()
      modifies this
      ensures State() == Exit(old(State()))
    {
      Respond(Dropped);
      DrainRx(Dropped);
      phase := Exited;
      readerUp := false;
      cancelled := true;
    }

    // -------------------------------------------------------------- shared state

    method MarkDisconnected()
      modifies this`conn
      ensures State() == old(State()).(conn := ClosedState(old(conn)))
    {
      if conn != Stopped {
        conn := Disconnected;
      }
    }

    method RecordFailure()
      modifies this`failureCount, this`successCount, this`history
      ensures Counts() == Note(old(Counts()), Failed)
    {
      failureCount := (failureCount + 1) % WORD;
      successCount := 0;
      history := history + [Failed];
    }

    method ResetFailureCount()
      modifies this`failureCount, this`successCount, this`history
      ensures Counts() == Note(old(Counts()), Received)
    {
      successCount := (successCount + 1) % WORD;
      if failureCount > 0 && successCount >= 3 {
        failureCount := 0;
        successCount := 0;
      }
      history := history + [Received];
    }

    /** `build_message` and `pack_msg`: false if the current key cannot make a cipher. */
    method SendFrame(handshake: bool) returns (packed: bool)
      modifies this`seqno, this`sent
      ensures Outbox(attempt, seqno, sent, pacts) == Emit(Cfg(), old(State()), handshake)
      ensures packed == old(KeyUsable(Cfg(), State()))
    {
      var number := seqno;
      seqno := seqno + 1;
      var key := if sessionKey.Some? then sessionKey.value else localKey;
      var cipher := NewCipher(key);
      packed := cipher.Ok?;
      if packed {
        var request := if handshake then None else hand;
        sent := sent + [Frame(attempt, number, handshake, request, key, sessionKey.Some?, version)];
      }
    }

    // -------------------------------------------------------------- connecting

    method BeginConnecting()
      modifies this`phase, this`attempt
      ensures State() == StartConnecting(old(State()))
    {
      phase := Connecting;
      attempt := attempt + 1;
    }

    method EstablishConnection()
      modifies this`conn, this`phase, this`readerUp
      ensures State() == Establish(old(State()))
    {
      conn := Connected;
      if hand.None? {
        phase := Maintaining;
        readerUp := true;
      } else {
        phase := Processing;
      }
    }

    /** A failed attempt on the device's own account: the queue is refused, then it waits for a command or backs off. */
    method AttemptFailed(e: Error)
      modifies this
      ensures var was := old(State()).(ledger := Drain(old(Books()), Refused(e)));
              State() == if !old(persist) then was.(phase := OnDemand)
                         else was.(tally := Note(was.tally, Failed), phase := AttemptTop)
    {
      DrainRx(Refused(e));
      if !persist {
        phase := OnDemand;
      } else {
        RecordFailure();
        phase := AttemptTop;
      }
    }

    /** The failure branches of `try_connect_with_backoff`. */
    method ConnectionError(e: Error)
      modifies this
      ensures State() == Fail(old(State()), e)
    {
      MarkDisconnected();
      if hand.Some? {
        Respond(Refused(e));
        phase := OnDemand;
      } else {
        AttemptFailed(e);
      }
    }

    method TcpConnected(nonce: bytes, written: Option<Error>)
      modifies this
      ensures State() == TcpUpStep(Cfg(), old(State()), nonce, written)
    {
      var protocol := GetProtocol(version, DefaultType);
      if !RequiresSessionKey(protocol) {
        EstablishConnection();
        return;
      }
      var packed := SendFrame(true);
      if !packed {
        ConnectionError(EncryptionFailed);
      } else if written.Some? {
        ConnectionError(written.value);
      } else {
        phase := Negotiating(nonce);
      }
    }

    /** The second half of `negotiate_session_key`. */
    method NegotiationReply(reply: Option<Delivery>, written: Option<Error>)
      requires phase.Negotiating?
      modifies this
      ensures State() == NegotiatedStep(Cfg(), old(State()), reply, written)
    {
      var conclusion := Conclude(suite, GetProtocol(version, DefaultType), localKey, phase.nonce, reply);
      match conclusion
      case Err(e) => ConnectionError(e);
      case Crash => Leave();
      case Ok(agreement) => FinishNegotiation(reply, agreement.sessionKey, written);
    }

    /** The last message of the handshake goes out, then the session key is stored. */
    method FinishNegotiation(reply: Option<Delivery>, key: bytes, written: Option<Error>)
      requires phase.Negotiating?
      modifies this
      ensures var emitted := old(State()).(outbox := Emit(Cfg(), old(State()), true));
              State() == if !KeyUsable(Cfg(), old(State())) then Fail(emitted, EncryptionFailed)
                         else if written.Some? then Fail(emitted, written.value)
                         else Establish(Agree(emitted, reply, key))
    {
      var packed := SendFrame(true);
      if !packed {
        ConnectionError(EncryptionFailed);
      } else if written.Some? {
        ConnectionError(written.value);
      } else {
        StoreSessionKey(reply, key);
        EstablishConnection();
      }
    }

    method StoreSessionKey(reply: Option<Delivery>, key: bytes)
      requires phase.Negotiating?
      modifies this`sessionKey, this`pacts
      ensures State() == Agree(old(State()), reply, key)
    {
      sessionKey := Some(key);
      pacts := pacts + [Pact(attempt, version, phase.nonce, reply, key)];
    }

    // -------------------------------------------------------------- on the connection

    method HandleDisconnect()
      modifies this`conn, this`sessionKey, this`readerUp
      ensures State() == old(State()).(conn := ClosedState(old(conn)), sessionKey := None, readerUp := false)
    {
      MarkDisconnected();
      sessionKey := None;
      readerUp := false;
    }

    /** What the main loop does with an error out of `maintain_connection`. */
    method ConnectionLost(e: Error)
      modifies this
      ensures State() == Lose(old(State()), e)
    {
      HandleDisconnect();
      RecordFailure();
      DrainRx(Refused(e));
      phase := RunTop;
    }

    method Answer(how: Resolution)
      modifies this
      ensures State() == Answered(old(State()), how)
    {
      Respond(how);
      phase := Maintaining;
      readerUp := true;
    }

    /** The sending half of `process_command`. */
    method SendRequest(written: Option<Error>, waits: bool)
      modifies this
      ensures State() == SentStep(Cfg(), old(State()), written, waits)
    {
      var packed := SendFrame(false);
      if !packed {
        Answer(Refused(EncryptionFailed));
      } else if written.Some? {
        Answer(Refused(written.value));
      } else if waits {
        subscribed := |news|;
        phase := Replying;
      } else {
        Answer(Acknowledged);
      }
    }

    /** The waiting half of `process_command`, over what was broadcast so far. */
    method AwaitAnswer()
      modifies this
      ensures State() == LookStep(Cfg(), old(State()))
    {
      if hand.Some? {
        var at := AnswerFromNews(json, wants(hand.value), news, prefix, subscribed);
        if at < |news| {
          Answer(Replied(subscribed, at));
        }
      }
    }

    /** What the reader read is broadcast. */
    method ProcessSocketData(d: Delivery)
      modifies this
      ensures State() == Hear(old(State()), d)
    {
      ResetFailureCount();
      news := news + [Read(d)];
    }

    method SendHeartbeat(written: Option<Error>)
      modifies this
      ensures State() == HeartbeatStep(Cfg(), old(State()), written)
    {
      var packed := SendFrame(false);
      if !packed {
        ConnectionLost(EncryptionFailed);
      } else if written.Some? {
        ConnectionLost(written.value);
      }
    }

    // -------------------------------------------------------------- taking commands

    method RefuseAtOnce(id: nat)
      modifies this`hand, this`settled
      ensures Books() == Settle(old(Books()).(hand := Some(id)), Refused(Offline))
    {
      hand := Some(id);
      Respond(Refused(Offline));
    }

    /** A command that arrives in `wait_for_backoff`. */
    method CommandInBackoff()
      requires queue != [] && phase == BackingOff
      modifies this
      ensures State() == TakeStep(old(State()))
    {
      var cmd := queue[0];
      queue := queue[1..];
      if cmd == ConnectNow {
        BeginConnecting();
      } else if cmd.Request? {
        RefuseAtOnce(cmd.id);
      }
    }

    /** A command that arrives while a device that does not persist waits to be needed. */
    method CommandOnDemand()
      requires queue != [] && phase == OnDemand
      modifies this
      ensures State() == TakeStep(old(State()))
    {
      var cmd := queue[0];
      queue := queue[1..];
      match cmd
      case ConnectNow => phase := AttemptTop;
      case Disconnect => Leave();
      case Request(id) => ConnectFor(id);
    }

    method ConnectFor(id: nat)
      modifies this
      ensures var l := old(Books());
              State() == StartConnecting(old(State()).(ledger := l.(hand := Some(id), onDemand := l.onDemand + {id})))
    {
      hand := Some(id);
      onDemand := onDemand + {id};
      BeginConnecting();
    }

    /** A command that arrives on the connection, up to the sending in `process_command`. */
    method CommandOnConnection()
      requires queue != [] && phase == Maintaining
      modifies this
      ensures State() == TakeStep(old(State()))
    {
      var cmd := queue[0];
      queue := queue[1..];
      if cmd == Disconnect {
        ConnectionLost(Offline);
      } else if cmd.Request? {
        hand := Some(cmd.id);
        phase := Processing;
      }
    }

    // -------------------------------------------------------------- between connections

    method RefuseAndLeave()
      modifies this
      ensures State() == Exit(old(State()).(ledger := Drain(old(Books()), Refused(Offline))))
    {
      DrainRx(Refused(Offline));
      Leave();
    }

    /**
      How long the next attempt waits: not at all without failures since the device was last calm, and after `n` of them
      between 70 % and 100 % of 16 s, doubled with every further one up to 4096 s.
     */
    method NextWait(random: nat) returns (wait: Option<nat>)
      ensures wait.Some? <==> failureCount > 0
      ensures Counted(State()) && FailuresIn(history) < WORD ==>
                var n := FailuresSinceCalm(history);
                if n == 0 then wait == None
                else
                  var seconds := if n <= 8 then 16 * Pow2(n - 1) else 4096;
                  wait.Some? && 700 * seconds <= wait.value < 1000 * seconds
    {
      wait := if failureCount > 0 then Some(BackoffMillis(failureCount - 1, random)) else None;
      if Counted(State()) && FailuresIn(history) < WORD {
        FailureCountIsFailuresSinceCalm(history);
        if failureCount > 0 {
          BackoffBounds(failureCount - 1, random, random);
          BackoffBaseShape(failureCount - 1);
        }
      }
    }

    method BeginAttempt(random: nat)
      modifies this
      ensures State() == AttemptStep(old(State()))
    {
      if conn == Stopped {
        RefuseAndLeave();
        return;
      }
      seqno := 1;
      var wait := NextWait(random);
      if wait.Some? {
        phase := BackingOff;
      } else {
        BeginConnecting();
      }
    }

    // -------------------------------------------------------------- all steps

    method PerformCaller(e: CallerEvent)
      requires CallerEnabled(State(), e)
      modifies this
      ensures State() == CallerStep(old(State()), e)
    {
      match e
      case Submit =>
        if phase == Exited {
          settled := settled + [Settled(submitted, Dropped)];
        } else {
          queue := queue + [Request(submitted)];
        }
        submitted := submitted + 1;
      case SubmitControl(c) =>
        if phase != Exited {
          queue := queue + [c];
        }
      case MarkStopped => conn := Stopped;
      case CancelToken => cancelled := true;
      case Close => MarkDisconnected();
      case SetPersist(b) => persist := b;
    }

    method PerformLoop(e: LoopEvent)
      requires LoopEnabled(State(), e)
      modifies this
      ensures State() == LoopStep(old(State()), e)
    {
      match e
      case StaggerOver => phase := RunTop;
      case EnterRun =>
        if conn == Stopped {
          Leave();
        } else {
          seqno := 1;
          phase := AttemptTop;
        }
      case EnterAttempt =>
        var random: nat := *;
        BeginAttempt(random);
      case BackoffOver => BeginConnecting();
      case Take =>
        if phase == BackingOff {
          CommandInBackoff();
        } else if phase == OnDemand {
          CommandOnDemand();
        } else {
          CommandOnConnection();
        }
      case Cancelled => Leave();
      case CancelledInBackoff => RefuseAndLeave();
      case CancelledInLoop =>
        HandleDisconnect();
        Leave();
    }

    method PerformLink(e: LinkEvent)
      requires LinkEnabled(State(), e)
      modifies this
      ensures State() == LinkStep(Cfg(), old(State()), e)
    {
      match e
      case Discovered(v) => version := v;
      case ConnectFailed(error) => ConnectionError(error);
      case TcpUp(nonce, written) => TcpConnected(nonce, written);
      case Negotiated(reply, written) => NegotiationReply(reply, written);
      case Sent(written, waits) => SendRequest(written, waits);
      case LookForReply => AwaitAnswer();
      case ReplyTimedOut => Answer(Refused(Timeout));
      case ReplyMissed => Answer(Refused(Offline));
      case Heartbeat(written) => SendHeartbeat(written);
      case ReaderFailed(error) => ConnectionLost(error);
      case MessageIn(d) => ProcessSocketData(d);
    }

    /** Any step: the object is where the step system says, and keeps its invariant. */
    method Perform(e: Event)
      requires Valid() && Enabled(State(), e)
      modifies this
      ensures Valid() && State() == Step(Cfg(), old(State()), e)
    {
      ghost var before := State();
      match e {
        case ByCaller(c) => PerformCaller(c);
        case InLoop(l) => PerformLoop(l);
        case OnLink(l) => PerformLink(l);
      }
      StepKeepsInvariant(Cfg(), before, e);
    }

    /**
      After any run of a valid object: what was settled stays settled; requests were settled in order of submission, and
      at the end all of them; every good answer has its own frame; a request that brought up its connection got no
      reply; keys and numbers of all frames are right; and the failure count is that of the history.
     */
    method RunTask(events: seq<Event>)
      requires Valid() && Legal(Cfg(), State(), events)
      modifies this
      ensures Valid() && old(Legal(Cfg(), State(), events)) && State() == Run(Cfg(), old(State()), events)
      ensures old(settled) <= settled && Conserved(State()) && (phase == Exited ==> |settled| == submitted)
      ensures AnsweredBySending(State()) && RightlyReplied(Cfg(), State()) && DemandUnreplied(Books())
      ensures RightlyKeyed(Cfg(), sent) && RightlyNumbered(sent)
      ensures KeyInItsPlace(State()) && KeysAgreed(Cfg(), State().outbox) && Standing(State()) && FromOne(State())
      ensures RecordsOf(State()) == old(RecordsOf(State()).Then(RunLog(Cfg(), State(), events)))
      ensures FailuresIn(history) < WORD ==> failureCount == FailuresSinceCalm(history)
    {
      ghost var start := State();
      var rest := events;
      while rest != []
        invariant Valid() && Legal(Cfg(), State(), rest) && Run(Cfg(), State(), rest) == Run(Cfg(), start, events)
        decreases |rest|
      {
        Perform(rest[0]);
        rest := rest[1..];
      }
      SettledStaysSettled(Cfg(), start, events);
      RunIsLogged(Cfg(), start, events);
      InvariantMeans(Cfg(), State());
    }
  }
}
