/**
  Keys and frames of the connection task: when a session key exists, which key protects a frame, and how frames are
  numbered.
 */
module KeyLaws {
  import opened Bytes
  import opened Payloads
  import opened Reader
  import opened Handshake
  import opened Connection

  // ---------------------------------------------------------------- session keys

  /**
    A session key exists only while the connection task talks over an established connection, or is left over in a task
    that was cancelled there; a talking task has one, of 16 bytes, exactly if its version negotiates one.
   */
  predicate Keys(cfg: Config, t: Task) {
    && (t.sessionKey.Some? ==> (Talking(t.phase) || t.phase == Exited) && |t.sessionKey.value| == 16)
    && (Talking(t.phase) ==> (t.sessionKey.Some? <==> NeedsSessionKey(t.version)))
    && (t.phase.Negotiating? ==> NeedsSessionKey(t.version) && |t.phase.nonce| == 16 && |cfg.localKey| == 16)
  }

  lemma FailKeepsKeys(cfg: Config, t: Task, e: Error)
    requires Keys(cfg, t) && t.sessionKey.None?
    ensures Keys(cfg, Fail(t, e))
  {
  }

  lemma EstablishKeepsKeys(cfg: Config, t: Task)
    requires t.sessionKey.Some? <==> NeedsSessionKey(t.version)
    requires t.sessionKey.Some? ==> |t.sessionKey.value| == 16
    ensures Keys(cfg, Establish(t))
  {
  }

  lemma NegotiatedKeepsKeys(cfg: Config, t: Task, reply: Option<Delivery>, written: Option<Error>)
    requires cfg.suite.Lawful() && Keys(cfg, t) && t.phase.Negotiating?
    ensures Keys(cfg, NegotiatedStep(cfg, t, reply, written))
  {
    var emitted := t.(outbox := Emit(cfg, t, true));
    AgreementExactly(cfg.suite, GetProtocol(t.version, DefaultType), cfg.localKey, t.phase.nonce, reply);
    match Conclude(cfg.suite, GetProtocol(t.version, DefaultType), cfg.localKey, t.phase.nonce, reply)
    case Err(e) => FailKeepsKeys(cfg, t, e);
    case Ok(agreement) =>
      if written.Some? {
        FailKeepsKeys(cfg, emitted, written.value);
      } else {
        EstablishKeepsKeys(cfg, Agree(emitted, reply, agreement.sessionKey));
      }
  }

  lemma TcpUpKeepsKeys(cfg: Config, t: Task, nonce: bytes, written: Option<Error>)
    requires Keys(cfg, t) && t.phase == Connecting && |nonce| == 16
    ensures Keys(cfg, TcpUpStep(cfg, t, nonce, written))
  {
  }

  lemma TalkKeepsKeys(cfg: Config, t: Task, how: Resolution, e: Error)
    requires Keys(cfg, t) && Talking(t.phase)
    ensures Keys(cfg, Answered(t, how)) && Keys(cfg, Lose(t, e))
  {
  }

  lemma SentKeepsKeys(cfg: Config, t: Task, written: Option<Error>, waits: bool)
    requires Keys(cfg, t) && Talking(t.phase)
    ensures Keys(cfg, SentStep(cfg, t, written, waits)) && Keys(cfg, HeartbeatStep(cfg, t, written))
  {
  }

  lemma LinkStepKeepsKeys(cfg: Config, t: Task, e: LinkEvent)
    requires cfg.suite.Lawful() && Keys(cfg, t) && LinkEnabled(t, e)
    ensures Keys(cfg, LinkStep(cfg, t, e))
  {
    match e
    case Discovered(_) =>
    case MessageIn(_) =>
    case ConnectFailed(error) => FailKeepsKeys(cfg, t, error);
    case TcpUp(nonce, written) => TcpUpKeepsKeys(cfg, t, nonce, written);
    case Negotiated(reply, written) => NegotiatedKeepsKeys(cfg, t, reply, written);
    case Sent(written, waits) => SentKeepsKeys(cfg, t, written, waits);
    case Heartbeat(written) => SentKeepsKeys(cfg, t, written, false);
    case LookForReply =>
      if ReplyHeard(cfg, t).Some? {
        TalkKeepsKeys(cfg, t, ReplyHeard(cfg, t).value, Offline);
      }
    case ReplyTimedOut => TalkKeepsKeys(cfg, t, Refused(Timeout), Offline);
    case ReplyMissed => TalkKeepsKeys(cfg, t, Refused(Offline), Offline);
    case ReaderFailed(error) => TalkKeepsKeys(cfg, t, Dropped, error);
  }

  lemma ExitKeepsKeys(cfg: Config, t: Task)
    requires Keys(cfg, t)
    ensures Keys(cfg, Exit(t))
  {
  }

  lemma TakeKeepsKeys(cfg: Config, t: Task)
    requires Keys(cfg, t) && t.ledger.queue != [] && (t.phase == BackingOff || t.phase == OnDemand || t.phase
             == Maintaining)
    ensures Keys(cfg, TakeStep(t))
  {
  }

  lemma LoopStepKeepsKeys(cfg: Config, t: Task, e: LoopEvent)
    requires Keys(cfg, t) && LoopEnabled(t, e)
    ensures Keys(cfg, LoopStep(t, e))
  {
    match e
    case Take => TakeKeepsKeys(cfg, t);
    case Cancelled => ExitKeepsKeys(cfg, t);
    case CancelledInBackoff => ExitKeepsKeys(cfg, t.(ledger := Drain(t.ledger, Refused(Offline))));
    case CancelledInLoop => assert LoopStep(t, e).sessionKey.None?;
    case EnterRun => ExitKeepsKeys(cfg, t);
    case EnterAttempt => ExitKeepsKeys(cfg, t.(ledger := Drain(t.ledger, Refused(Offline))));
    case _ =>
  }

  lemma CallerStepKeepsKeys(cfg: Config, t: Task, e: CallerEvent)
    requires Keys(cfg, t)
    ensures Keys(cfg, CallerStep(t, e))
  {
    var u := CallerStep(t, e);
    assert u.sessionKey == t.sessionKey && u.phase == t.phase && u.version == t.version;
  }

  lemma StepKeepsKeys(cfg: Config, t: Task, e: Event)
    requires cfg.suite.Lawful() && Keys(cfg, t) && Enabled(t, e)
    ensures Keys(cfg, Step(cfg, t, e))
  {
    match e
    case ByCaller(c) => CallerStepKeepsKeys(cfg, t, c);
    case InLoop(l) => LoopStepKeepsKeys(cfg, t, l);
    case OnLink(l) => LinkStepKeepsKeys(cfg, t, l);
  }

  // ---------------------------------------------------------------- frames

  /**
    Handshake frames are protected with the local key; later frames with the session key exactly if the version has one.
   */
  predicate FrameKeyed(cfg: Config, f: Frame) {
    && |f.key| == 16
    && (!f.session ==> f.key == cfg.localKey)
    && (f.handshake ==> !f.session)
    && (!f.handshake ==> (f.session <==> NeedsSessionKey(f.version)))
  }

  /** Two frames of one connection, the first sent earlier: the numbers grow, and data frames share their key. */
  predicate InOrder(f: Frame, g: Frame) {
    && f.attempt <= g.attempt
    && (f.attempt == g.attempt ==> f.ordinal < g.ordinal)
    && (f.attempt == g.attempt && !f.handshake && !g.handshake ==> f.key == g.key)
  }

  predicate Live(p: Phase) {
    p == Connecting || p.Negotiating? || Talking(p)
  }

  /** How an earlier frame relates to the connection the connection task is working on. */
  predicate Precedes(cfg: Config, t: Task, f: Frame) {
    && f.attempt <= t.outbox.attempt
    && (Live(t.phase) && f.attempt == t.outbox.attempt ==>
          f.ordinal < t.outbox.seqno && (!f.handshake ==> Talking(t.phase) && f.key == CurrentKey(cfg, t)))
  }

  predicate Outgoing(cfg: Config, t: Task) {
    var sent := t.outbox.sent;
    && (forall i | 0 <= i < |sent| :: FrameKeyed(cfg, sent[i]) && Precedes(cfg, t, sent[i]))
    && (forall i, j | 0 <= i < j < |sent| :: InOrder(sent[i], sent[j]))
  }

  lemma EmitKeepsOutgoing(cfg: Config, t: Task, handshake: bool)
    requires Outgoing(cfg, t) && Keys(cfg, t)
    requires if handshake then t.phase == Connecting || t.phase.Negotiating? else Talking(t.phase)
    ensures Outgoing(cfg, t.(outbox := Emit(cfg, t, handshake)))
  {
  }

  /** On the same connection, no earlier in it, with the same key once data flows; or off it; or on the next one. */
  predicate Onward(cfg: Config, t: Task, u: Task) {
    || (u.outbox.attempt == t.outbox.attempt && !Live(u.phase))
    || (u.outbox.attempt == t.outbox.attempt && u.outbox.seqno == t.outbox.seqno && Live(t.phase)
        && (Talking(t.phase) ==> Talking(u.phase) && CurrentKey(cfg, u) == CurrentKey(cfg, t)))
    || u.outbox.attempt == t.outbox.attempt + 1
  }

  /** A step that sends nothing. */
  lemma QuietKeepsOutgoing(cfg: Config, t: Task, u: Task)
    requires Outgoing(cfg, t) && u.outbox.sent == t.outbox.sent && Onward(cfg, t, u)
    ensures Outgoing(cfg, u)
  {
    forall i | 0 <= i < |u.outbox.sent| ensures Precedes(cfg, u, u.outbox.sent[i]) {
      assert Precedes(cfg, t, t.outbox.sent[i]);
    }
  }

  lemma FailKeepsOutgoing(cfg: Config, t: Task, e: Error)
    requires Outgoing(cfg, t)
    ensures Outgoing(cfg, Fail(t, e))
  {
    assert !Live(Fail(t, e).phase);
    QuietKeepsOutgoing(cfg, t, Fail(t, e));
  }

  lemma NegotiatedKeepsOutgoing(cfg: Config, t: Task, reply: Option<Delivery>, written: Option<Error>)
    requires Outgoing(cfg, t) && Keys(cfg, t) && t.phase.Negotiating?
    ensures Outgoing(cfg, NegotiatedStep(cfg, t, reply, written))
  {
    var emitted := t.(outbox := Emit(cfg, t, true));
    EmitKeepsOutgoing(cfg, t, true);
    match Conclude(cfg.suite, GetProtocol(t.version, DefaultType), cfg.localKey, t.phase.nonce, reply)
    case Err(e) => FailKeepsOutgoing(cfg, t, e);
    case Crash => QuietKeepsOutgoing(cfg, t, Exit(t));
    case Ok(agreement) =>
      if !KeyUsable(cfg, t) {
        FailKeepsOutgoing(cfg, emitted, EncryptionFailed);
      } else if written.Some? {
        FailKeepsOutgoing(cfg, emitted, written.value);
      } else {
        QuietKeepsOutgoing(cfg, emitted, Establish(Agree(emitted, reply, agreement.sessionKey)));
      }
  }

  lemma SendKeepsOutgoing(cfg: Config, t: Task, u: Task, handshake: bool)
    requires Outgoing(cfg, t) && Keys(cfg, t)
    requires if handshake then t.phase == Connecting || t.phase.Negotiating? else Talking(t.phase)
    requires u.outbox == Emit(cfg, t, handshake)
    requires Live(u.phase) ==> (Talking(t.phase) ==> Talking(u.phase)) && CurrentKey(cfg, u) == CurrentKey(cfg, t)
    ensures Outgoing(cfg, u)
  {
    EmitKeepsOutgoing(cfg, t, handshake);
    QuietKeepsOutgoing(cfg, t.(outbox := Emit(cfg, t, handshake)), u);
  }

  lemma TcpUpKeepsOutgoing(cfg: Config, t: Task, nonce: bytes, written: Option<Error>)
    requires Outgoing(cfg, t) && Keys(cfg, t) && t.phase == Connecting
    ensures Outgoing(cfg, TcpUpStep(cfg, t, nonce, written))
  {
    var u := TcpUpStep(cfg, t, nonce, written);
    if NeedsSessionKey(t.version) {
      SendKeepsOutgoing(cfg, t, u, true);
    } else {
      QuietKeepsOutgoing(cfg, t, u);
    }
  }

  lemma AnsweredKeepsOutgoing(cfg: Config, t: Task, how: Resolution)
    requires Outgoing(cfg, t) && Talking(t.phase)
    ensures Outgoing(cfg, Answered(t, how))
  {
    QuietKeepsOutgoing(cfg, t, Answered(t, how));
  }

  lemma TalkKeepsOutgoing(cfg: Config, t: Task, written: Option<Error>, waits: bool)
    requires Outgoing(cfg, t) && Keys(cfg, t) && Talking(t.phase)
    ensures Outgoing(cfg, SentStep(cfg, t, written, waits)) && Outgoing(cfg, HeartbeatStep(cfg, t, written))
  {
    SendKeepsOutgoing(cfg, t, SentStep(cfg, t, written, waits), false);
    SendKeepsOutgoing(cfg, t, HeartbeatStep(cfg, t, written), false);
  }

  lemma LinkStepKeepsOutgoing(cfg: Config, t: Task, e: LinkEvent)
    requires Outgoing(cfg, t) && Keys(cfg, t) && LinkEnabled(t, e)
    ensures Outgoing(cfg, LinkStep(cfg, t, e))
  {
    match e
    case Negotiated(reply, written) => NegotiatedKeepsOutgoing(cfg, t, reply, written);
    case TcpUp(nonce, written) => TcpUpKeepsOutgoing(cfg, t, nonce, written);
    case Sent(written, waits) => TalkKeepsOutgoing(cfg, t, written, waits);
    case Heartbeat(written) => TalkKeepsOutgoing(cfg, t, written, false);
    case Discovered(v) => QuietKeepsOutgoing(cfg, t, t.(version := v));
    case ConnectFailed(error) => FailKeepsOutgoing(cfg, t, error);
    case LookForReply =>
      if ReplyHeard(cfg, t).Some? {
        AnsweredKeepsOutgoing(cfg, t, ReplyHeard(cfg, t).value);
      }
    case ReplyTimedOut => AnsweredKeepsOutgoing(cfg, t, Refused(Timeout));
    case ReplyMissed => AnsweredKeepsOutgoing(cfg, t, Refused(Offline));
    case ReaderFailed(error) => QuietKeepsOutgoing(cfg, t, Lose(t, error));
    case MessageIn(d) => QuietKeepsOutgoing(cfg, t, Hear(t, d));
  }

  lemma TakeKeepsOutgoing(cfg: Config, t: Task)
    requires Outgoing(cfg, t) && t.ledger.queue != [] && (t.phase == BackingOff || t.phase == OnDemand || t.phase
             == Maintaining)
    ensures Outgoing(cfg, TakeStep(t))
  {
    var u := TakeStep(t);
    assert u.outbox == t.outbox || u.outbox == t.outbox.(attempt := t.outbox.attempt + 1);
    assert Talking(u.phase) ==> t.phase == Maintaining && u.sessionKey == t.sessionKey;
    QuietKeepsOutgoing(cfg, t, u);
  }

  lemma RestKeepsOutgoing(cfg: Config, t: Task, u: Task)
    requires Outgoing(cfg, t) && u.outbox.sent == t.outbox.sent && u.outbox.attempt == t.outbox.attempt
    requires !Live(u.phase)
    ensures Outgoing(cfg, u)
  {
    QuietKeepsOutgoing(cfg, t, u);
  }

  lemma LoopStepKeepsOutgoing(cfg: Config, t: Task, e: LoopEvent)
    requires Outgoing(cfg, t) && LoopEnabled(t, e)
    ensures Outgoing(cfg, LoopStep(t, e))
  {
    match e
    case Take => TakeKeepsOutgoing(cfg, t);
    case EnterAttempt => QuietKeepsOutgoing(cfg, t, AttemptStep(t));
    case BackoffOver => QuietKeepsOutgoing(cfg, t, StartConnecting(t));
    case _ => RestKeepsOutgoing(cfg, t, LoopStep(t, e));
  }

  lemma CallerStepKeepsOutgoing(cfg: Config, t: Task, e: CallerEvent)
    requires Outgoing(cfg, t)
    ensures Outgoing(cfg, CallerStep(t, e))
  {
    var u := CallerStep(t, e);
    assert u.sessionKey == t.sessionKey && u.phase == t.phase && u.outbox == t.outbox;
    QuietKeepsOutgoing(cfg, t, u);
  }

  lemma StepKeepsOutgoing(cfg: Config, t: Task, e: Event)
    requires Outgoing(cfg, t) && Keys(cfg, t) && Enabled(t, e)
    ensures Outgoing(cfg, Step(cfg, t, e))
  {
    match e
    case ByCaller(c) => CallerStepKeepsOutgoing(cfg, t, c);
    case InLoop(l) => LoopStepKeepsOutgoing(cfg, t, l);
    case OnLink(l) => LinkStepKeepsOutgoing(cfg, t, l);
  }
}
