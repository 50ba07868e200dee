/**
  Where session keys come from: every frame under a session key uses the key that the handshake of its own connection
  agreed on.
 */
module PactLaws {
  import opened Bytes
  import opened Payloads
  import opened Reader
  import opened Handshake
  import opened Connection
  import opened KeyLaws

  /** The device proved in its reply that it knows the local key, and the key is the session key of the two nonces. */
  predicate Sound(cfg: Config, p: Pact) {
    && (p.version == V34 || p.version == V35) && |cfg.localKey| == 16 && |p.nonce| == 16
    && IsProof(cfg.suite, cfg.localKey, p.nonce, p.reply)
    && IsSessionKey(cfg.suite, p.version == V35, cfg.localKey, p.nonce, p.reply.value.msg.payload[..16], p.key)
  }

  predicate Covers(p: Pact, f: Frame) {
    p.attempt == f.attempt && p.key == f.key && p.version == f.version
  }

  predicate Opening(p: Phase) {
    p == Connecting || p.Negotiating?
  }

  /** Every pact is sound, and there is at most one for a connection, none while that is being made. */
  predicate Pacts(cfg: Config, o: Outbox, opening: bool) {
    && (forall i | 0 <= i < |o.pacts| :: Sound(cfg, o.pacts[i]) && o.pacts[i].attempt < o.attempt + if opening then 0
         else 1)
    && (forall i, j | 0 <= i < j < |o.pacts| :: o.pacts[i].attempt < o.pacts[j].attempt)
  }

  /** The current session key is that of the last pact, made on this connection. */
  predicate Bound(t: Task) {
    var pacts := t.outbox.pacts;
    Talking(t.phase) && t.sessionKey.Some? ==>
      && pacts != [] && pacts[|pacts| - 1].attempt == t.outbox.attempt
      && pacts[|pacts| - 1].key == t.sessionKey.value && pacts[|pacts| - 1].version == t.version
  }

  predicate Agreed(pacts: seq<Pact>, f: Frame) {
    f.session ==> exists i | 0 <= i < |pacts| :: Covers(pacts[i], f)
  }

  predicate AllAgreed(o: Outbox) {
    forall i | 0 <= i < |o.sent| :: Agreed(o.pacts, o.sent[i])
  }

  predicate Pacted(cfg: Config, t: Task) {
    Pacts(cfg, t.outbox, Opening(t.phase)) && Bound(t) && AllAgreed(t.outbox)
  }

  // ---------------------------------------------------------------- steps that send and agree on nothing

  /** On the same connection under the same key, or off it, or on the next one. */
  predicate Follows(t: Task, u: Task) {
    && u.outbox.sent == t.outbox.sent && u.outbox.pacts == t.outbox.pacts
    && if u.outbox.attempt == t.outbox.attempt then
         && (Opening(u.phase) ==> Opening(t.phase))
         && (Talking(u.phase) && u.sessionKey.Some? ==>
               Talking(t.phase) && u.sessionKey == t.sessionKey && u.version == t.version)
       else u.outbox.attempt == t.outbox.attempt + 1 && !Talking(u.phase)
  }

  lemma FollowingKeepsPacted(cfg: Config, t: Task, u: Task)
    requires Pacted(cfg, t) && Follows(t, u)
    ensures Pacted(cfg, u)
  {
    forall i | 0 <= i < |u.outbox.pacts|
      ensures Sound(cfg, u.outbox.pacts[i])
      ensures u.outbox.pacts[i].attempt < u.outbox.attempt + if Opening(u.phase) then 0 else 1
    {
      assert Sound(cfg, t.outbox.pacts[i]);
    }
  }

  lemma TakeFollows(t: Task)
    requires t.ledger.queue != [] && (t.phase == BackingOff || t.phase == OnDemand || t.phase == Maintaining)
    ensures Follows(t, TakeStep(t))
  {
  }

  lemma LoopStepFollows(t: Task, e: LoopEvent)
    requires LoopEnabled(t, e)
    ensures Follows(t, LoopStep(t, e))
  {
    match e
    case Take => TakeFollows(t);
    case EnterAttempt => assert Follows(t, AttemptStep(t));
    case _ =>
  }

  lemma FailFollows(t: Task, e: Error)
    ensures Follows(t, Fail(t, e))
  {
  }

  lemma LoseFollows(t: Task, e: Error)
    ensures Follows(t, Lose(t, e))
  {
  }

  // ---------------------------------------------------------------- steps that send

  lemma EmitKeepsPacted(cfg: Config, t: Task, handshake: bool)
    requires Pacted(cfg, t) && (Talking(t.phase) || t.sessionKey.None?)
    ensures Pacted(cfg, t.(outbox := Emit(cfg, t, handshake)))
  {
    var o := Emit(cfg, t, handshake);
    forall i | 0 <= i < |o.sent| ensures Agreed(o.pacts, o.sent[i]) {
      if i < |t.outbox.sent| {
        assert Agreed(t.outbox.pacts, t.outbox.sent[i]);
      } else if t.sessionKey.Some? {
        assert Covers(o.pacts[|o.pacts| - 1], o.sent[i]);
      }
    }
  }

  lemma FailedSendKeepsPacted(cfg: Config, t: Task, e: Error)
    requires Pacted(cfg, t) && t.sessionKey.None?
    ensures Pacted(cfg, Fail(t.(outbox := Emit(cfg, t, true)), e))
  {
    var emitted := t.(outbox := Emit(cfg, t, true));
    EmitKeepsPacted(cfg, t, true);
    FailFollows(emitted, e);
    FollowingKeepsPacted(cfg, emitted, Fail(emitted, e));
  }

  lemma TcpUpKeepsPacted(cfg: Config, t: Task, nonce: bytes, written: Option<Error>)
    requires Pacted(cfg, t) && t.phase == Connecting && t.sessionKey.None?
    ensures Pacted(cfg, TcpUpStep(cfg, t, nonce, written))
  {
    var u := TcpUpStep(cfg, t, nonce, written);
    if !NeedsSessionKey(t.version) {
      FollowingKeepsPacted(cfg, t, u);
    } else if !KeyUsable(cfg, t) {
      FailedSendKeepsPacted(cfg, t, EncryptionFailed);
    } else if written.Some? {
      FailedSendKeepsPacted(cfg, t, written.value);
    } else {
      EmitKeepsPacted(cfg, t, true);
      FollowingKeepsPacted(cfg, t.(outbox := Emit(cfg, t, true)), u);
    }
  }

  lemma PactIsAdded(cfg: Config, o: Outbox, pact: Pact)
    requires Pacts(cfg, o, true) && AllAgreed(o) && Sound(cfg, pact) && pact.attempt == o.attempt
    ensures Pacts(cfg, o.(pacts := o.pacts + [pact]), false) && AllAgreed(o.(pacts := o.pacts + [pact]))
  {
    var after := o.pacts + [pact];
    forall i | 0 <= i < |after| ensures Sound(cfg, after[i]) && after[i].attempt <= o.attempt {
      if i < |o.pacts| {
        assert after[i] == o.pacts[i] && Sound(cfg, o.pacts[i]);
      }
    }
    forall i | 0 <= i < |o.sent| ensures Agreed(after, o.sent[i]) {
      assert Agreed(o.pacts, o.sent[i]);
      if o.sent[i].session {
        var j :| 0 <= j < |o.pacts| && Covers(o.pacts[j], o.sent[i]);
        assert Covers(after[j], o.sent[i]);
      }
    }
  }

  /** The handshake completes: a pact for this connection, the first and last. */
  lemma AgreeingKeepsPacted(cfg: Config, t: Task, reply: Option<Delivery>, key: bytes)
    requires cfg.suite.Lawful() && Pacted(cfg, t) && t.phase.Negotiating?
    requires |t.phase.nonce| == 16 && NeedsSessionKey(t.version)
    requires var c := Conclude(cfg.suite, GetProtocol(t.version, DefaultType), cfg.localKey, t.phase.nonce, reply);
             c.Ok? && c.value.sessionKey == key
    ensures Pacted(cfg, Establish(Agree(t, reply, key)))
  {
    var u := Establish(Agree(t, reply, key));
    var pact := Pact(t.outbox.attempt, t.version, t.phase.nonce, reply, key);
    AgreementExactly(cfg.suite, GetProtocol(t.version, DefaultType), cfg.localKey, t.phase.nonce, reply);
    PactIsAdded(cfg, t.outbox, pact);
    assert u.outbox == t.outbox.(pacts := t.outbox.pacts + [pact]);
  }

  lemma NegotiatedKeepsPacted(cfg: Config, t: Task, reply: Option<Delivery>, written: Option<Error>)
    requires cfg.suite.Lawful() && Keys(cfg, t) && Pacted(cfg, t) && t.phase.Negotiating? && t.sessionKey.None?
    ensures Pacted(cfg, NegotiatedStep(cfg, t, reply, written))
  {
    match Conclude(cfg.suite, GetProtocol(t.version, DefaultType), cfg.localKey, t.phase.nonce, reply)
    case Err(e) =>
      FailFollows(t, e);
      FollowingKeepsPacted(cfg, t, Fail(t, e));
    case Crash => FollowingKeepsPacted(cfg, t, Exit(t));
    case Ok(agreement) =>
      if !KeyUsable(cfg, t) {
        FailedSendKeepsPacted(cfg, t, EncryptionFailed);
      } else if written.Some? {
        FailedSendKeepsPacted(cfg, t, written.value);
      } else {
        EmitKeepsPacted(cfg, t, true);
        AgreeingKeepsPacted(cfg, t.(outbox := Emit(cfg, t, true)), reply, agreement.sessionKey);
      }
  }

  lemma TalkKeepsPacted(cfg: Config, t: Task, written: Option<Error>, waits: bool)
    requires Pacted(cfg, t) && Talking(t.phase)
    ensures Pacted(cfg, SentStep(cfg, t, written, waits)) && Pacted(cfg, HeartbeatStep(cfg, t, written))
  {
    var emitted := t.(outbox := Emit(cfg, t, false));
    EmitKeepsPacted(cfg, t, false);
    FollowingKeepsPacted(cfg, emitted, SentStep(cfg, t, written, waits));
    var u := HeartbeatStep(cfg, t, written);
    if u != emitted {
      LoseFollows(emitted, if KeyUsable(cfg, t) then written.value else EncryptionFailed);
      FollowingKeepsPacted(cfg, emitted, u);
    }
  }

  // ---------------------------------------------------------------- every step

  lemma AnsweredKeepsPacted(cfg: Config, t: Task, how: Resolution)
    requires Pacted(cfg, t) && Talking(t.phase)
    ensures Pacted(cfg, Answered(t, how))
  {
    FollowingKeepsPacted(cfg, t, Answered(t, how));
  }

  lemma LookKeepsPacted(cfg: Config, t: Task)
    requires Pacted(cfg, t) && Talking(t.phase)
    ensures Pacted(cfg, LookStep(cfg, t))
  {
    if ReplyHeard(cfg, t).Some? {
      AnsweredKeepsPacted(cfg, t, ReplyHeard(cfg, t).value);
    }
  }

  lemma FailKeepsPacted(cfg: Config, t: Task, e: Error)
    requires Pacted(cfg, t)
    ensures Pacted(cfg, Fail(t, e))
  {
    FailFollows(t, e);
    FollowingKeepsPacted(cfg, t, Fail(t, e));
  }

  lemma LoseKeepsPacted(cfg: Config, t: Task, e: Error)
    requires Pacted(cfg, t)
    ensures Pacted(cfg, Lose(t, e))
  {
    LoseFollows(t, e);
    FollowingKeepsPacted(cfg, t, Lose(t, e));
  }

  lemma LinkStepKeepsPacted(cfg: Config, t: Task, e: LinkEvent)
    requires cfg.suite.Lawful() && Pacted(cfg, t) && Keys(cfg, t) && LinkEnabled(t, e)
    ensures Pacted(cfg, LinkStep(cfg, t, e))
  {
    match e
    case Discovered(v) => FollowingKeepsPacted(cfg, t, t.(version := v));
    case ConnectFailed(error) => FailKeepsPacted(cfg, t, error);
    case TcpUp(nonce, written) => TcpUpKeepsPacted(cfg, t, nonce, written);
    case Negotiated(reply, written) => NegotiatedKeepsPacted(cfg, t, reply, written);
    case Sent(written, waits) => TalkKeepsPacted(cfg, t, written, waits);
    case Heartbeat(written) => TalkKeepsPacted(cfg, t, written, false);
    case LookForReply => LookKeepsPacted(cfg, t);
    case ReplyTimedOut => AnsweredKeepsPacted(cfg, t, Refused(Timeout));
    case ReplyMissed => AnsweredKeepsPacted(cfg, t, Refused(Offline));
    case ReaderFailed(error) => LoseKeepsPacted(cfg, t, error);
    case MessageIn(d) => FollowingKeepsPacted(cfg, t, Hear(t, d));
  }

  lemma CallerStepFollows(t: Task, e: CallerEvent)
    ensures Follows(t, CallerStep(t, e))
  {
  }

  lemma StepKeepsPacted(cfg: Config, t: Task, e: Event)
    requires cfg.suite.Lawful() && Pacted(cfg, t) && Keys(cfg, t) && Enabled(t, e)
    ensures Pacted(cfg, Step(cfg, t, e))
  {
    match e
    case ByCaller(c) =>
      CallerStepFollows(t, c);
      FollowingKeepsPacted(cfg, t, CallerStep(t, c));
    case InLoop(l) =>
      LoopStepFollows(t, l);
      FollowingKeepsPacted(cfg, t, LoopStep(t, l));
    case OnLink(l) => LinkStepKeepsPacted(cfg, t, l);
  }
}
