/**
  Requests that had to bring the connection up themselves: they are sent before any reader runs.
 */
module DemandLaws {
  import opened Bytes
  import opened Payloads
  import opened Reader
  import opened Handshake
  import opened Connection
  import opened LedgerLaws

  // ---------------------------------------------------------------- requests that had to bring up the connection

  /** Requests taken on demand lie behind the queue, and none of them was answered with a reply of the device. */
  predicate Unreplied(l: Ledger) {
    && (forall x | x in l.onDemand :: x < |l.settled| + Held(l))
    && (forall i | 0 <= i < |l.settled| && l.settled[i].how.Replied? :: l.settled[i].id !in l.onDemand)
  }

  /**
    The reader runs only on an established connection, and never while a request taken on demand is in hand; so such a
    request has heard nothing since it began to listen.
   */
  predicate Demand(t: Task) {
    && Unreplied(t.ledger)
    && (t.readerUp ==> Talking(t.phase))
    && (t.phase == Maintaining ==> t.readerUp)
    && (t.ledger.hand.Some? && !Talking(t.phase) ==> t.ledger.hand.value in t.ledger.onDemand)
    && (t.ledger.hand.Some? && t.ledger.hand.value in t.ledger.onDemand ==>
          !t.readerUp && (t.phase == Replying ==> t.air.subscribed == |t.air.news|))
  }

  lemma SettlingIsUnreplied(l: Ledger, how: Resolution)
    requires Books(l) && Unreplied(l)
    requires how.Replied? && l.hand.Some? ==> l.hand.value !in l.onDemand
    ensures Unreplied(Settle(l, how))
    ensures !how.Replied? ==> Unreplied(Drain(Settle(l, how), how))
  {
  }

  lemma DrainingIsUnreplied(l: Ledger, how: Resolution)
    requires Unreplied(l) && !how.Replied?
    ensures Unreplied(Drain(l, how))
  {
  }

  lemma TakeUpIsUnreplied(l: Ledger, demand: bool)
    requires Books(l) && Unreplied(l) && l.hand.None? && l.queue != [] && l.queue[0].Request?
    ensures Unreplied(TakeUp(l, demand)) && l.queue[0].id == |l.settled| && l.queue[0].id !in l.onDemand
  {
    assert Requests(l.queue)[0] == l.queue[0].id;
  }

  lemma ExitKeepsDemand(t: Task)
    requires Books(t.ledger) && Unreplied(t.ledger)
    ensures Demand(Exit(t))
  {
    SettlingIsUnreplied(t.ledger, Dropped);
  }

  lemma FailKeepsDemand(t: Task, e: Error)
    requires Books(t.ledger) && Demand(t) && !t.readerUp
    ensures Demand(Fail(t, e))
  {
    SettlingIsUnreplied(t.ledger, Refused(e));
    DrainingIsUnreplied(t.ledger, Refused(e));
  }

  lemma LoseKeepsDemand(t: Task, e: Error)
    requires Demand(t) && t.ledger.hand.None?
    ensures Demand(Lose(t, e))
  {
    DrainingIsUnreplied(t.ledger, Refused(e));
  }

  lemma AnsweredKeepsDemand(t: Task, how: Resolution)
    requires Books(t.ledger) && Demand(t)
    requires how.Replied? && t.ledger.hand.Some? ==> t.ledger.hand.value !in t.ledger.onDemand
    ensures Demand(Answered(t, how))
  {
    SettlingIsUnreplied(t.ledger, how);
  }

  lemma TakeKeepsDemand(t: Task)
    requires Accounted(t) && Demand(t) && t.ledger.queue != [] && (t.phase == BackingOff || t.phase == OnDemand
             || t.phase == Maintaining)
    ensures Demand(TakeStep(t))
  {
    var l := t.ledger;
    var rest := t.(ledger := l.(queue := l.queue[1..]));
    match l.queue[0]
    case ConnectNow =>
    case Disconnect =>
      ControlKeepsBooks(l, Disconnect);
      ExitKeepsDemand(rest);
      LoseKeepsDemand(rest, Offline);
    case Request(id) =>
      TakeUpIsUnreplied(l, true);
      TakeUpIsUnreplied(l, false);
      TakeUpKeepsBooks(l, false);
      SettlingIsUnreplied(TakeUp(l, false), Refused(Offline));
  }

  lemma NegotiatedKeepsDemand(cfg: Config, t: Task, reply: Option<Delivery>, written: Option<Error>)
    requires Accounted(t) && Demand(t) && t.phase.Negotiating?
    ensures Demand(NegotiatedStep(cfg, t, reply, written))
  {
    match Conclude(cfg.suite, GetProtocol(t.version, DefaultType), cfg.localKey, t.phase.nonce, reply)
    case Err(e) => FailKeepsDemand(t, e);
    case Crash => ExitKeepsDemand(t);
    case Ok(_) =>
      FailKeepsDemand(t.(outbox := Emit(cfg, t, true)), if written.Some? && KeyUsable(cfg, t) then written.value
          else EncryptionFailed);
  }

  lemma LinkStepKeepsDemand(cfg: Config, t: Task, e: LinkEvent)
    requires Accounted(t) && Demand(t) && LinkEnabled(t, e)
    ensures Demand(LinkStep(cfg, t, e))
  {
    match e
    case Discovered(_) =>
    case MessageIn(_) =>
    case ConnectFailed(error) => FailKeepsDemand(t, error);
    case TcpUp(nonce, written) =>
      FailKeepsDemand(t.(outbox := Emit(cfg, t, true)), if written.Some? && KeyUsable(cfg, t) then written.value
          else EncryptionFailed);
    case Negotiated(reply, written) => NegotiatedKeepsDemand(cfg, t, reply, written);
    case Sent(written, waits) =>
      AnsweredKeepsDemand(t.(outbox := Emit(cfg, t, false)),
                          if !KeyUsable(cfg, t) then Refused(EncryptionFailed)
                          else if written.Some? then Refused(written.value) else Acknowledged);
    case LookForReply =>
      if ReplyHeard(cfg, t).Some? {
        AnsweredKeepsDemand(t, ReplyHeard(cfg, t).value);
      }
    case ReplyTimedOut => AnsweredKeepsDemand(t, Refused(Timeout));
    case ReplyMissed => AnsweredKeepsDemand(t, Refused(Offline));
    case Heartbeat(written) =>
      LoseKeepsDemand(t.(outbox := Emit(cfg, t, false)), if written.Some? && KeyUsable(cfg, t) then written.value
          else EncryptionFailed);
    case ReaderFailed(error) => LoseKeepsDemand(t, error);
  }

  lemma LoopStepKeepsDemand(t: Task, e: LoopEvent)
    requires Accounted(t) && Demand(t) && LoopEnabled(t, e)
    ensures Demand(LoopStep(t, e))
  {
    match e
    case Take => TakeKeepsDemand(t);
    case CancelledInLoop => ExitKeepsDemand(t.(conn := ClosedState(t.conn), sessionKey := None));
    case Cancelled => ExitKeepsDemand(t);
    case EnterRun => ExitKeepsDemand(t);
    case CancelledInBackoff =>
      DrainKeepsBooks(t.ledger, Refused(Offline));
      DrainingIsUnreplied(t.ledger, Refused(Offline));
      ExitKeepsDemand(t.(ledger := Drain(t.ledger, Refused(Offline))));
    case EnterAttempt =>
      DrainKeepsBooks(t.ledger, Refused(Offline));
      DrainingIsUnreplied(t.ledger, Refused(Offline));
      ExitKeepsDemand(t.(ledger := Drain(t.ledger, Refused(Offline))));
    case _ =>
  }

  lemma CallerStepKeepsDemand(t: Task, e: CallerEvent)
    requires Demand(t)
    ensures Demand(CallerStep(t, e))
  {
    var u := CallerStep(t, e);
    assert u.phase == t.phase && u.readerUp == t.readerUp && u.air == t.air;
    assert u.ledger.hand == t.ledger.hand && u.ledger.onDemand == t.ledger.onDemand;
    assert t.ledger.settled <= u.ledger.settled;
  }

  lemma StepKeepsDemand(cfg: Config, t: Task, e: Event)
    requires Accounted(t) && Demand(t) && Enabled(t, e)
    ensures Demand(Step(cfg, t, e))
  {
    match e
    case ByCaller(c) => CallerStepKeepsDemand(t, c);
    case InLoop(l) => LoopStepKeepsDemand(t, l);
    case OnLink(l) => LinkStepKeepsDemand(cfg, t, l);
  }
}
