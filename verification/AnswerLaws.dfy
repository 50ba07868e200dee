/**
  What a good answer is worth: over every run each request that was acknowledged or replied to went out in exactly one
  frame.
 */
module AnswerLaws {
  import opened Bytes
  import opened Payloads
  import opened Reader
  import opened Handshake
  import opened Connection
  import opened LedgerLaws

  predicate Good(how: Resolution) {
    how.Replied? || how == Acknowledged
  }

  /** Some frame carries request `id`. */
  predicate WasSent(sent: seq<Frame>, id: nat) {
    exists i | 0 <= i < |sent| :: sent[i].request == Some(id)
  }

  /** The requests that frames carry are numbered upwards, so none is carried twice. */
  predicate Ascending(sent: seq<Frame>) {
    forall i, j | 0 <= i < j < |sent| ::
      sent[i].request.Some? && sent[j].request.Some? ==> sent[i].request.value < sent[j].request.value
  }

  /** Frames carry settled requests only, or the one whose reply is awaited. */
  predicate Taken(t: Task) {
    forall i | 0 <= i < |t.outbox.sent| && t.outbox.sent[i].request.Some? ::
      t.outbox.sent[i].request.value < |t.ledger.settled| + if t.phase == Replying then 1 else 0
  }

  /** Every request that ended well was sent, and so was the one whose reply is awaited. */
  predicate Backed(t: Task) {
    && (forall k | 0 <= k < |t.ledger.settled| :: Good(t.ledger.settled[k].how) ==>
         WasSent(t.outbox.sent, t.ledger.settled[k].id))
    && (t.phase == Replying ==> t.ledger.hand.Some? && WasSent(t.outbox.sent, t.ledger.hand.value))
  }

  predicate HandshakesCarryNothing(sent: seq<Frame>) {
    forall i | 0 <= i < |sent| :: sent[i].handshake ==> sent[i].request.None?
  }

  predicate Carried(t: Task) {
    Ascending(t.outbox.sent) && HandshakesCarryNothing(t.outbox.sent) && Taken(t) && Backed(t)
  }

  // ---------------------------------------------------------------- steps that answer nothing well

  /** The books only grow, by requests that did not end well. */
  predicate GrewBadly(l: Ledger, m: Ledger) {
    && l.settled <= m.settled
    && (forall k | |l.settled| <= k < |m.settled| :: !Good(m.settled[k].how))
  }

  /** From `t` to `u` no request went out and none ended well; a reply that was awaited no longer is. */
  predicate Poor(t: Task, u: Task) {
    && u.outbox.sent == t.outbox.sent && GrewBadly(t.ledger, u.ledger) && u.phase != Replying
    && (t.phase == Replying ==> |u.ledger.settled| > |t.ledger.settled|)
  }

  lemma PoorKeepsCarried(t: Task, u: Task)
    requires Carried(t) && Poor(t, u)
    ensures Carried(u)
  {
    forall k | 0 <= k < |u.ledger.settled| && Good(u.ledger.settled[k].how)
      ensures WasSent(u.outbox.sent, u.ledger.settled[k].id)
    {
      assert k < |t.ledger.settled| && u.ledger.settled[k] == t.ledger.settled[k];
    }
  }

  lemma DropAllGrowsBadly(l: Ledger)
    ensures GrewBadly(l, DropAll(l)) && (l.hand.Some? ==> |DropAll(l).settled| > |l.settled|)
  {
  }

  lemma DrainGrowsBadly(l: Ledger, e: Error)
    ensures GrewBadly(l, Drain(l, Refused(e)))
  {
  }

  lemma ExitIsPoor(t: Task)
    requires Hands(t)
    ensures Poor(t, Exit(t))
  {
    DropAllGrowsBadly(t.ledger);
  }

  lemma FailIsPoor(t: Task, e: Error)
    requires t.phase != Replying
    ensures Poor(t, Fail(t, e))
  {
    DrainGrowsBadly(t.ledger, e);
  }

  lemma LoseIsPoor(t: Task, e: Error)
    requires t.phase != Replying
    ensures Poor(t, Lose(t, e))
  {
    DrainGrowsBadly(t.ledger, e);
  }

  lemma TakeIsPoor(t: Task)
    requires Accounted(t) && t.ledger.queue != []
    requires t.phase == BackingOff || t.phase == OnDemand || t.phase == Maintaining
    ensures Poor(t, TakeStep(t))
  {
    var rest := t.(ledger := t.ledger.(queue := t.ledger.queue[1..]));
    if t.ledger.queue[0] == Disconnect {
      if t.phase == OnDemand {
        ExitIsPoor(rest);
      } else {
        LoseIsPoor(rest, Offline);
      }
    }
  }

  lemma RefusedExitIsPoor(t: Task)
    requires Hands(t) && t.phase != Replying
    ensures Poor(t, Exit(t.(ledger := Drain(t.ledger, Refused(Offline)))))
  {
    var drained := t.(ledger := Drain(t.ledger, Refused(Offline)));
    DrainGrowsBadly(t.ledger, Offline);
    DropAllGrowsBadly(drained.ledger);
  }

  lemma LoopStepIsPoor(t: Task, e: LoopEvent)
    requires Accounted(t) && LoopEnabled(t, e)
    ensures Poor(t, LoopStep(t, e))
  {
    match e
    case StaggerOver =>
    case EnterRun => ExitIsPoor(t);
    case EnterAttempt => RefusedExitIsPoor(t);
    case BackoffOver =>
    case Take => TakeIsPoor(t);
    case Cancelled => ExitIsPoor(t);
    case CancelledInBackoff => RefusedExitIsPoor(t);
    case CancelledInLoop => ExitIsPoor(t.(conn := ClosedState(t.conn), sessionKey := None));
  }

  // ---------------------------------------------------------------- steps that send

  lemma SentStaysSent(t: Task, u: Task)
    requires Backed(t) && t.outbox.sent <= u.outbox.sent && u.ledger == t.ledger && t.phase != Replying
    requires u.phase == t.phase
    ensures Backed(u)
  {
    forall k | 0 <= k < |u.ledger.settled| && Good(u.ledger.settled[k].how)
      ensures WasSent(u.outbox.sent, u.ledger.settled[k].id)
    {
      var i :| 0 <= i < |t.outbox.sent| && t.outbox.sent[i].request == Some(t.ledger.settled[k].id);
      assert u.outbox.sent[i].request == Some(u.ledger.settled[k].id);
    }
  }

  /** A frame that carries no request changes nothing here. */
  lemma EmptyFrameKeepsCarried(cfg: Config, t: Task, handshake: bool)
    requires Carried(t) && t.phase != Replying && (handshake || t.ledger.hand.None?)
    ensures Carried(t.(outbox := Emit(cfg, t, handshake)))
  {
    var u := t.(outbox := Emit(cfg, t, handshake));
    SentStaysSent(t, u);
  }

  lemma FailedSendIsCarried(cfg: Config, t: Task, e: Error)
    requires Carried(t) && t.phase != Replying
    ensures Carried(Fail(t.(outbox := Emit(cfg, t, true)), e))
  {
    EmptyFrameKeepsCarried(cfg, t, true);
    var emitted := t.(outbox := Emit(cfg, t, true));
    FailIsPoor(emitted, e);
    PoorKeepsCarried(emitted, Fail(emitted, e));
  }

  lemma TcpUpIsCarried(cfg: Config, t: Task, nonce: bytes, written: Option<Error>)
    requires Carried(t) && t.phase == Connecting
    ensures Carried(TcpUpStep(cfg, t, nonce, written))
  {
    var u := TcpUpStep(cfg, t, nonce, written);
    if !NeedsSessionKey(t.version) {
      PoorKeepsCarried(t, u);
    } else if !KeyUsable(cfg, t) {
      FailedSendIsCarried(cfg, t, EncryptionFailed);
    } else if written.Some? {
      FailedSendIsCarried(cfg, t, written.value);
    } else {
      EmptyFrameKeepsCarried(cfg, t, true);
      PoorKeepsCarried(t.(outbox := Emit(cfg, t, true)), u);
    }
  }

  lemma NegotiatedIsCarried(cfg: Config, t: Task, reply: Option<Delivery>, written: Option<Error>)
    requires Carried(t) && Hands(t) && t.phase.Negotiating?
    ensures Carried(NegotiatedStep(cfg, t, reply, written))
  {
    var u := NegotiatedStep(cfg, t, reply, written);
    match Conclude(cfg.suite, GetProtocol(t.version, DefaultType), cfg.localKey, t.phase.nonce, reply)
    case Err(e) =>
      FailIsPoor(t, e);
      PoorKeepsCarried(t, u);
    case Crash =>
      ExitIsPoor(t);
      PoorKeepsCarried(t, u);
    case Ok(_) =>
      if !KeyUsable(cfg, t) {
        FailedSendIsCarried(cfg, t, EncryptionFailed);
      } else if written.Some? {
        FailedSendIsCarried(cfg, t, written.value);
      } else {
        EmptyFrameKeepsCarried(cfg, t, true);
        PoorKeepsCarried(t.(outbox := Emit(cfg, t, true)), u);
      }
  }

  lemma HeartbeatIsCarried(cfg: Config, t: Task, written: Option<Error>)
    requires Carried(t) && Hands(t) && t.phase == Maintaining
    ensures Carried(HeartbeatStep(cfg, t, written))
  {
    EmptyFrameKeepsCarried(cfg, t, false);
    var emitted := t.(outbox := Emit(cfg, t, false));
    var u := HeartbeatStep(cfg, t, written);
    if u != emitted {
      LoseIsPoor(emitted, if KeyUsable(cfg, t) then written.value else EncryptionFailed);
      PoorKeepsCarried(emitted, u);
    }
  }

  /** A request is sent: its frame is the last one, and carries a higher number than all before it. */
  lemma RequestGoesOut(cfg: Config, t: Task)
    requires Carried(t) && Accounted(t) && t.phase == Processing && KeyUsable(cfg, t)
    ensures Carried(t.(outbox := Emit(cfg, t, false), phase := Replying))
  {
    var u := t.(outbox := Emit(cfg, t, false));
    SentStaysSent(t, u);
    assert u.outbox.sent[|t.outbox.sent|].request == t.ledger.hand;
  }

  /** The awaited reply comes, or the wait is given up. */
  lemma AnswerKeepsCarried(t: Task, how: Resolution)
    requires Carried(t) && Accounted(t) && t.phase == Replying
    ensures Carried(Answered(t, how))
  {
    var u := Answered(t, how);
    forall k | 0 <= k < |u.ledger.settled| && Good(u.ledger.settled[k].how)
      ensures WasSent(u.outbox.sent, u.ledger.settled[k].id)
    {
      if k < |t.ledger.settled| {
        assert u.ledger.settled[k] == t.ledger.settled[k];
      }
    }
  }

  lemma SentIsCarried(cfg: Config, t: Task, written: Option<Error>, waits: bool)
    requires Carried(t) && Accounted(t) && t.phase == Processing
    ensures Carried(SentStep(cfg, t, written, waits))
  {
    var u := SentStep(cfg, t, written, waits);
    if !KeyUsable(cfg, t) {
      PoorKeepsCarried(t, u);
    } else {
      RequestGoesOut(cfg, t);
      var sent := t.(outbox := Emit(cfg, t, false), phase := Replying);
      if u != sent {
        AnswerKeepsCarried(sent, if written.Some? then Refused(written.value) else Acknowledged);
      }
    }
  }

  // ---------------------------------------------------------------- every step

  lemma LinkStepIsCarried(cfg: Config, t: Task, e: LinkEvent)
    requires Carried(t) && Accounted(t) && LinkEnabled(t, e)
    ensures Carried(LinkStep(cfg, t, e))
  {
    match e
    case Discovered(v) => PoorKeepsCarried(t, t.(version := v));
    case ConnectFailed(error) =>
      FailIsPoor(t, error);
      PoorKeepsCarried(t, Fail(t, error));
    case TcpUp(nonce, written) => TcpUpIsCarried(cfg, t, nonce, written);
    case Negotiated(reply, written) => NegotiatedIsCarried(cfg, t, reply, written);
    case Sent(written, waits) => SentIsCarried(cfg, t, written, waits);
    case LookForReply =>
      if ReplyHeard(cfg, t).Some? {
        AnswerKeepsCarried(t, ReplyHeard(cfg, t).value);
      }
    case ReplyTimedOut => AnswerKeepsCarried(t, Refused(Timeout));
    case ReplyMissed => AnswerKeepsCarried(t, Refused(Offline));
    case Heartbeat(written) => HeartbeatIsCarried(cfg, t, written);
    case ReaderFailed(error) =>
      LoseIsPoor(t, error);
      PoorKeepsCarried(t, Lose(t, error));
    case MessageIn(_) =>
  }

  lemma CallerStepIsCarried(t: Task, e: CallerEvent)
    requires Carried(t) && Accounted(t)
    ensures Carried(CallerStep(t, e))
  {
    var u := CallerStep(t, e);
    assert u.outbox == t.outbox && u.phase == t.phase && u.ledger.hand == t.ledger.hand
        && GrewBadly(t.ledger, u.ledger);
    forall k | 0 <= k < |u.ledger.settled| && Good(u.ledger.settled[k].how)
      ensures WasSent(u.outbox.sent, u.ledger.settled[k].id)
    {
      assert u.ledger.settled[k] == t.ledger.settled[k];
    }
  }

  lemma StepIsCarried(cfg: Config, t: Task, e: Event)
    requires Carried(t) && Accounted(t) && Enabled(t, e)
    ensures Carried(Step(cfg, t, e))
  {
    match e
    case ByCaller(c) => CallerStepIsCarried(t, c);
    case InLoop(l) =>
      LoopStepIsPoor(t, l);
      PoorKeepsCarried(t, LoopStep(t, l));
    case OnLink(l) => LinkStepIsCarried(cfg, t, l);
  }

  /** The frame of a request is out before its reply can come. */
  lemma ReplyFollowsItsFrame(cfg: Config, t: Task)
    requires Carried(t) && Accounted(t) && LinkEnabled(t, LookForReply) && ReplyHeard(cfg, t).Some?
    ensures t.ledger.hand.Some? && WasSent(t.outbox.sent, t.ledger.hand.value)
    ensures LinkStep(cfg, t, LookForReply).ledger.settled
            == t.ledger.settled + [Settled(t.ledger.hand.value, ReplyHeard(cfg, t).value)]
  {
  }
}
