/**
  Requests of the connection task: every step keeps them accounted for, in the order of submission.
 */
module LedgerLaws {
  import opened Bytes
  import opened Payloads
  import opened Reader
  import opened Handshake
  import opened Connection

  // ---------------------------------------------------------------- the books of requests

  function Held(l: Ledger): nat {
    if l.hand.Some? then 1 else 0
  }

  predicate Numbered(ids: seq<nat>, from: nat) {
    forall i | 0 <= i < |ids| :: ids[i] == from + i
  }

  /**
    The settled requests, then the one in hand, then the queued ones are all requests ever submitted, in the order
    of submission: each request is in exactly one of the three places.
   */
  predicate Books(l: Ledger) {
    && (forall i | 0 <= i < |l.settled| :: l.settled[i].id == i)
    && (l.hand.Some? ==> l.hand.value == |l.settled|)
    && Numbered(Requests(l.queue), |l.settled| + Held(l))
    && |l.settled| + Held(l) + |Requests(l.queue)| == l.submitted
  }

  lemma {:induction false} RequestsAppend(queue: seq<Command>, c: Command)
    ensures Requests(queue + [c]) == Requests(queue) + if c.Request? then [c.id] else []
  {
    if queue == [] {
      assert [c][1..] == [];
    } else {
      RequestsAppend(queue[1..], c);
      var longer := queue + [c];
      assert longer[0] == queue[0] && longer[1..] == queue[1..] + [c];
    }
  }

  /**
    Draining moves the queue behind the settled requests, in order; with a request still in hand it would overtake it.
   */
  lemma DrainKeepsBooks(l: Ledger, how: Resolution)
    requires Books(l) && l.hand.None?
    ensures Books(Drain(l, how))
  {
  }

  lemma SettleKeepsBooks(l: Ledger, how: Resolution)
    requires Books(l)
    ensures Books(Settle(l, how))
  {
  }

  lemma DropAllKeepsBooks(l: Ledger)
    requires Books(l)
    ensures Books(DropAll(l))
  {
    SettleKeepsBooks(l, Dropped);
    DrainKeepsBooks(Settle(l, Dropped), Dropped);
  }

  lemma EnterKeepsBooks(l: Ledger, open: bool)
    requires Books(l) && (!open ==> l.hand.None? && l.queue == [])
    ensures Books(Enter(l, open))
  {
    RequestsAppend(l.queue, Request(l.submitted));
  }

  lemma TakeUpKeepsBooks(l: Ledger, demand: bool)
    requires Books(l) && l.hand.None? && l.queue != [] && l.queue[0].Request?
    ensures Books(TakeUp(l, demand))
  {
    var rest := Requests(l.queue[1..]);
    assert Requests(l.queue) == [l.queue[0].id] + rest;
    assert Requests(l.queue)[0] == l.queue[0].id;
    forall i | 0 <= i < |rest| ensures rest[i] == |l.settled| + 1 + i {
      assert rest[i] == Requests(l.queue)[i + 1];
    }
  }

  lemma ControlKeepsBooks(l: Ledger, c: Command)
    requires Books(l) && !c.Request?
    ensures Books(l.(queue := l.queue + [c]))
    ensures l.queue != [] && !l.queue[0].Request? ==> Books(l.(queue := l.queue[1..]))
  {
    RequestsAppend(l.queue, c);
    if l.queue != [] && !l.queue[0].Request? {
      assert Requests(l.queue) == [] + Requests(l.queue[1..]) == Requests(l.queue[1..]);
    }
  }

  predicate HoldsRequest(p: Phase) {
    p == Connecting || p.Negotiating? || p == Processing || p == Replying
  }

  /**
    Only a task that is connecting or talking holds a request, a talking one always does, and an ended one holds and
    queues nothing.
   */
  predicate Hands(t: Task) {
    && (t.ledger.hand.Some? ==> HoldsRequest(t.phase))
    && (t.phase == Processing || t.phase == Replying ==> t.ledger.hand.Some?)
    && (t.phase == Exited ==> t.ledger.queue == [])
  }

  predicate Accounted(t: Task) {
    Books(t.ledger) && Hands(t)
  }

  lemma ExitIsAccounted(t: Task)
    requires Books(t.ledger)
    ensures Accounted(Exit(t))
  {
    DropAllKeepsBooks(t.ledger);
  }

  lemma FailIsAccounted(t: Task, e: Error)
    requires Books(t.ledger)
    ensures Accounted(Fail(t, e))
  {
    SettleKeepsBooks(t.ledger, Refused(e));
    if t.ledger.hand.None? {
      DrainKeepsBooks(t.ledger, Refused(e));
    }
  }

  lemma LoseIsAccounted(t: Task, e: Error)
    requires Books(t.ledger) && t.ledger.hand.None?
    ensures Accounted(Lose(t, e))
  {
    DrainKeepsBooks(t.ledger, Refused(e));
  }

  lemma TakeIsAccounted(t: Task)
    requires Accounted(t) && t.ledger.queue != [] && (t.phase == BackingOff || t.phase == OnDemand || t.phase
             == Maintaining)
    ensures Accounted(TakeStep(t))
  {
    var l := t.ledger;
    var rest := t.(ledger := l.(queue := l.queue[1..]));
    match l.queue[0]
    case ConnectNow => ControlKeepsBooks(l, ConnectNow);
    case Disconnect =>
      ControlKeepsBooks(l, Disconnect);
      ExitIsAccounted(rest);
      LoseIsAccounted(rest, Offline);
    case Request(id) =>
      TakeUpKeepsBooks(l, true);
      TakeUpKeepsBooks(l, false);
      SettleKeepsBooks(TakeUp(l, false), Refused(Offline));
  }

  lemma NegotiatedIsAccounted(cfg: Config, t: Task, reply: Option<Delivery>, written: Option<Error>)
    requires Accounted(t) && t.phase.Negotiating?
    ensures Accounted(NegotiatedStep(cfg, t, reply, written))
  {
    var emitted := t.(outbox := Emit(cfg, t, true));
    match Conclude(cfg.suite, GetProtocol(t.version, DefaultType), cfg.localKey, t.phase.nonce, reply)
    case Err(e) => FailIsAccounted(t, e);
    case Crash => ExitIsAccounted(t);
    case Ok(_) =>
      FailIsAccounted(emitted, if written.Some? && KeyUsable(cfg, t) then written.value else EncryptionFailed);
  }

  lemma TcpUpIsAccounted(cfg: Config, t: Task, nonce: bytes, written: Option<Error>)
    requires Accounted(t) && t.phase == Connecting
    ensures Accounted(TcpUpStep(cfg, t, nonce, written))
  {
    FailIsAccounted(t.(outbox := Emit(cfg, t, true)), if written.Some? && KeyUsable(cfg, t) then written.value
        else EncryptionFailed);
  }

  lemma AnsweredIsAccounted(t: Task, how: Resolution)
    requires Books(t.ledger)
    ensures Accounted(Answered(t, how))
  {
    SettleKeepsBooks(t.ledger, how);
  }

  lemma SentIsAccounted(cfg: Config, t: Task, written: Option<Error>, waits: bool)
    requires Accounted(t) && t.phase == Processing
    ensures Accounted(SentStep(cfg, t, written, waits))
  {
    AnsweredIsAccounted(t.(outbox := Emit(cfg, t, false)),
                        if !KeyUsable(cfg, t) then Refused(EncryptionFailed)
                        else if written.Some? then Refused(written.value) else Acknowledged);
  }

  lemma HeartbeatIsAccounted(cfg: Config, t: Task, written: Option<Error>)
    requires Accounted(t) && t.phase == Maintaining
    ensures Accounted(HeartbeatStep(cfg, t, written))
  {
    LoseIsAccounted(t.(outbox := Emit(cfg, t, false)), if written.Some? && KeyUsable(cfg, t) then written.value
        else EncryptionFailed);
  }

  lemma CallerStepIsAccounted(t: Task, e: CallerEvent)
    requires Accounted(t) && CallerEnabled(t, e)
    ensures Accounted(CallerStep(t, e))
  {
    match e
    case Submit => EnterKeepsBooks(t.ledger, t.phase != Exited);
    case SubmitControl(c) => ControlKeepsBooks(t.ledger, c);
    case _ =>
  }

  lemma LoopStepIsAccounted(t: Task, e: LoopEvent)
    requires Accounted(t) && LoopEnabled(t, e)
    ensures Accounted(LoopStep(t, e))
  {
    if t.ledger.hand.None? {
      DrainKeepsBooks(t.ledger, Refused(Offline));
      ExitIsAccounted(t.(ledger := Drain(t.ledger, Refused(Offline))));
    }
    match e
    case Take => TakeIsAccounted(t);
    case CancelledInLoop => ExitIsAccounted(t.(conn := ClosedState(t.conn), sessionKey := None));
    case _ => ExitIsAccounted(t);
  }

  lemma LinkStepIsAccounted(cfg: Config, t: Task, e: LinkEvent)
    requires Accounted(t) && LinkEnabled(t, e)
    ensures Accounted(LinkStep(cfg, t, e))
  {
    match e
    case Discovered(_) =>
    case MessageIn(_) =>
    case ConnectFailed(error) => FailIsAccounted(t, error);
    case TcpUp(nonce, written) => TcpUpIsAccounted(cfg, t, nonce, written);
    case Negotiated(reply, written) => NegotiatedIsAccounted(cfg, t, reply, written);
    case Sent(written, waits) => SentIsAccounted(cfg, t, written, waits);
    case LookForReply =>
      if ReplyHeard(cfg, t).Some? {
        AnsweredIsAccounted(t, ReplyHeard(cfg, t).value);
      }
    case ReplyTimedOut => AnsweredIsAccounted(t, Refused(Timeout));
    case ReplyMissed => AnsweredIsAccounted(t, Refused(Offline));
    case Heartbeat(written) => HeartbeatIsAccounted(cfg, t, written);
    case ReaderFailed(error) => LoseIsAccounted(t, error);
  }

  /** Every step keeps the books. */
  lemma StepIsAccounted(cfg: Config, t: Task, e: Event)
    requires Accounted(t) && Enabled(t, e)
    ensures Accounted(Step(cfg, t, e))
  {
    match e
    case ByCaller(c) => CallerStepIsAccounted(t, c);
    case InLoop(l) => LoopStepIsAccounted(t, l);
    case OnLink(l) => LinkStepIsAccounted(cfg, t, l);
  }
}
