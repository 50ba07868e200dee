/**
  What a reply is: over every run each request that was replied to got the first broadcast since it began to listen that
  answers it, and no broadcast answers two requests.
 */
module ReplyLaws {
  import opened Bytes
  import opened Payloads
  import opened Reader
  import opened Handshake
  import opened Replies
  import opened Connection

  predicate AcceptedAt(cfg: Config, id: nat, news: seq<News>, j: int)
    requires 0 <= j < |news|
  {
    Accepts(cfg.json, cfg.wants(id), Broadcast(cfg.json, news[j], cfg.prefix))
  }

  /** The reply is the first broadcast from where the request began to listen that the loop accepts. */
  predicate First(cfg: Config, news: seq<News>, s: Settled) {
    s.how.Replied? ==>
      && s.how.from <= s.how.at < |news| && AcceptedAt(cfg, s.id, news, s.how.at)
      && forall j | s.how.from <= j < s.how.at :: !AcceptedAt(cfg, s.id, news, j)
  }

  predicate AllFirst(cfg: Config, news: seq<News>, settled: seq<Settled>) {
    forall k | 0 <= k < |settled| :: First(cfg, news, settled[k])
  }

  /** Replies come in order: a request began to listen only after all replies to earlier ones. */
  predicate Consecutive(settled: seq<Settled>) {
    forall k, l | 0 <= k < l < |settled| ::
      settled[k].how.Replied? && settled[l].how.Replied? ==> settled[k].how.at < settled[l].how.from
  }

  /** All replies so far lie before `n`. */
  predicate RepliesBefore(settled: seq<Settled>, n: nat) {
    forall k | 0 <= k < |settled| :: settled[k].how.Replied? ==> settled[k].how.at < n
  }

  predicate Heard(cfg: Config, t: Task) {
    && AllFirst(cfg, t.air.news, t.ledger.settled) && Consecutive(t.ledger.settled)
    && RepliesBefore(t.ledger.settled, |t.air.news|)
    && (t.phase == Replying ==> t.air.subscribed <= |t.air.news| && RepliesBefore(t.ledger.settled, t.air.subscribed))
  }

  // ---------------------------------------------------------------- steps that reply to nothing

  /** Requests are settled without a reply. */
  predicate GrewMute(l: Ledger, m: Ledger) {
    && l.settled <= m.settled
    && (forall k | |l.settled| <= k < |m.settled| :: !m.settled[k].how.Replied?)
  }

  /** Nothing is broadcast and nothing replied to; whoever listens began before, or begins now. */
  predicate Mute(t: Task, u: Task) {
    && GrewMute(t.ledger, u.ledger) && u.air.news == t.air.news
    && (u.phase == Replying ==>
          (t.phase == Replying && u.air.subscribed == t.air.subscribed) || u.air.subscribed == |t.air.news|)
  }

  lemma MuteKeepsHeard(cfg: Config, t: Task, u: Task)
    requires Heard(cfg, t) && Mute(t, u)
    ensures Heard(cfg, u)
  {
    var before, after := t.ledger.settled, u.ledger.settled;
    forall k | 0 <= k < |after| && after[k].how.Replied? ensures k < |before| && after[k] == before[k] {
    }
  }

  lemma DropAllIsMute(l: Ledger)
    ensures GrewMute(l, DropAll(l))
  {
  }

  lemma DrainIsMute(l: Ledger, e: Error)
    ensures GrewMute(l, Drain(l, Refused(e)))
  {
  }

  lemma ExitIsMute(t: Task)
    ensures Mute(t, Exit(t))
  {
    DropAllIsMute(t.ledger);
  }

  lemma RefusedExitIsMute(t: Task)
    ensures Mute(t, Exit(t.(ledger := Drain(t.ledger, Refused(Offline)))))
  {
    DrainIsMute(t.ledger, Offline);
    DropAllIsMute(Drain(t.ledger, Refused(Offline)));
  }

  lemma FailIsMute(t: Task, e: Error)
    ensures Mute(t, Fail(t, e))
  {
    DrainIsMute(t.ledger, e);
  }

  lemma LoseIsMute(t: Task, e: Error)
    ensures Mute(t, Lose(t, e))
  {
    DrainIsMute(t.ledger, e);
  }

  lemma AnsweredIsMute(t: Task, how: Resolution)
    requires !how.Replied?
    ensures Mute(t, Answered(t, how))
  {
  }

  lemma TakeIsMute(t: Task)
    requires t.ledger.queue != [] && (t.phase == BackingOff || t.phase == OnDemand || t.phase == Maintaining)
    ensures Mute(t, TakeStep(t))
  {
    var rest := t.(ledger := t.ledger.(queue := t.ledger.queue[1..]));
    if t.ledger.queue[0] == Disconnect {
      ExitIsMute(rest);
      LoseIsMute(rest, Offline);
    }
  }

  lemma LoopStepIsMute(t: Task, e: LoopEvent)
    requires LoopEnabled(t, e)
    ensures Mute(t, LoopStep(t, e))
  {
    match e
    case StaggerOver =>
    case EnterRun => ExitIsMute(t);
    case EnterAttempt => RefusedExitIsMute(t);
    case BackoffOver =>
    case Take => TakeIsMute(t);
    case Cancelled => ExitIsMute(t);
    case CancelledInBackoff => RefusedExitIsMute(t);
    case CancelledInLoop => ExitIsMute(t.(conn := ClosedState(t.conn), sessionKey := None));
  }

  lemma TcpUpIsMute(cfg: Config, t: Task, nonce: bytes, written: Option<Error>)
    ensures Mute(t, TcpUpStep(cfg, t, nonce, written))
  {
    var emitted := t.(outbox := Emit(cfg, t, true));
    FailIsMute(emitted, EncryptionFailed);
    if written.Some? {
      FailIsMute(emitted, written.value);
    }
  }

  lemma NegotiatedIsMute(cfg: Config, t: Task, reply: Option<Delivery>, written: Option<Error>)
    requires t.phase.Negotiating?
    ensures Mute(t, NegotiatedStep(cfg, t, reply, written))
  {
    var emitted := t.(outbox := Emit(cfg, t, true));
    match Conclude(cfg.suite, GetProtocol(t.version, DefaultType), cfg.localKey, t.phase.nonce, reply)
    case Err(e) => FailIsMute(t, e);
    case Crash => ExitIsMute(t);
    case Ok(_) =>
      FailIsMute(emitted, EncryptionFailed);
      if written.Some? {
        FailIsMute(emitted, written.value);
      }
  }

  lemma SentIsMute(cfg: Config, t: Task, written: Option<Error>, waits: bool)
    ensures Mute(t, SentStep(cfg, t, written, waits))
  {
    var emitted := t.(outbox := Emit(cfg, t, false));
    AnsweredIsMute(emitted, Refused(EncryptionFailed));
    AnsweredIsMute(emitted, Acknowledged);
    if written.Some? {
      AnsweredIsMute(emitted, Refused(written.value));
    }
  }

  lemma HeartbeatIsMute(cfg: Config, t: Task, written: Option<Error>)
    ensures Mute(t, HeartbeatStep(cfg, t, written))
  {
    var emitted := t.(outbox := Emit(cfg, t, false));
    LoseIsMute(emitted, EncryptionFailed);
    if written.Some? {
      LoseIsMute(emitted, written.value);
    }
  }

  // ---------------------------------------------------------------- a broadcast, and a reply

  lemma HearingKeepsHeard(cfg: Config, t: Task, d: Delivery)
    requires Heard(cfg, t)
    ensures Heard(cfg, Hear(t, d))
  {
    var u := Hear(t, d);
    forall k | 0 <= k < |u.ledger.settled| ensures First(cfg, u.air.news, u.ledger.settled[k]) {
      var s := u.ledger.settled[k];
      assert First(cfg, t.air.news, s);
      if s.how.Replied? {
        assert forall j | 0 <= j < |t.air.news| ::
            AcceptedAt(cfg, s.id, u.air.news, j) == AcceptedAt(cfg, s.id, t.air.news, j);
      }
    }
  }

  lemma LookingKeepsHeard(cfg: Config, t: Task)
    requires Heard(cfg, t) && t.phase == Replying
    ensures Heard(cfg, LookStep(cfg, t))
  {
    if ReplyHeard(cfg, t).Some? {
      var id, how := t.ledger.hand.value, ReplyHeard(cfg, t).value;
      var u := LookStep(cfg, t);
      assert u.ledger.settled == t.ledger.settled + [Settled(id, how)];
      assert how.from == t.air.subscribed && First(cfg, t.air.news, Settled(id, how));
    }
  }

  // ---------------------------------------------------------------- every step

  lemma LinkStepIsMute(cfg: Config, t: Task, e: LinkEvent)
    requires LinkEnabled(t, e) && !e.MessageIn? && !e.LookForReply?
    ensures Mute(t, LinkStep(cfg, t, e))
  {
    match e
    case Discovered(_) =>
    case ConnectFailed(error) => FailIsMute(t, error);
    case TcpUp(nonce, written) => TcpUpIsMute(cfg, t, nonce, written);
    case Negotiated(reply, written) => NegotiatedIsMute(cfg, t, reply, written);
    case Sent(written, waits) => SentIsMute(cfg, t, written, waits);
    case ReplyTimedOut => AnsweredIsMute(t, Refused(Timeout));
    case ReplyMissed => AnsweredIsMute(t, Refused(Offline));
    case Heartbeat(written) => HeartbeatIsMute(cfg, t, written);
    case ReaderFailed(error) => LoseIsMute(t, error);
  }

  lemma LinkStepKeepsHeard(cfg: Config, t: Task, e: LinkEvent)
    requires Heard(cfg, t) && LinkEnabled(t, e)
    ensures Heard(cfg, LinkStep(cfg, t, e))
  {
    match e {
      case MessageIn(d) => HearingKeepsHeard(cfg, t, d);
      case LookForReply => LookingKeepsHeard(cfg, t);
      case _ =>
        LinkStepIsMute(cfg, t, e);
        MuteKeepsHeard(cfg, t, LinkStep(cfg, t, e));
    }
  }

  lemma CallerStepIsMute(t: Task, e: CallerEvent)
    ensures Mute(t, CallerStep(t, e))
  {
  }

  lemma StepKeepsHeard(cfg: Config, t: Task, e: Event)
    requires Heard(cfg, t) && Enabled(t, e)
    ensures Heard(cfg, Step(cfg, t, e))
  {
    match e
    case ByCaller(c) =>
      CallerStepIsMute(t, c);
      MuteKeepsHeard(cfg, t, CallerStep(t, c));
    case InLoop(l) =>
      LoopStepIsMute(t, l);
      MuteKeepsHeard(cfg, t, LoopStep(t, l));
    case OnLink(l) => LinkStepKeepsHeard(cfg, t, l);
  }

  ghost predicate MeetsAt(cfg: Config, id: nat, news: seq<News>, j: int)
    requires 0 <= j < |news|
  {
    Meets(cfg.json, cfg.wants(id), news[j])
  }

  /** What the caller is handed: the device's own message as it came, if it can be broadcast, and otherwise an error. */
  ghost predicate Handed(cfg: Config, n: News) {
    var msg := Broadcast(cfg.json, n, cfg.prefix);
    if n.Read? && n.delivery.Plain? && Sendable(cfg.json, n.delivery.msg.payload) then msg == n.delivery.msg
    else msg.cmd == 0 && cfg.json.parse(msg.payload).Some?
  }

  /**
    Every reply is the first news since its request began to listen that meets the request, handed over as it came; and
    every piece of news is the reply to one request at most.
   */
  ghost predicate RightlyReplied(cfg: Config, t: Task) {
    var news, settled := t.air.news, t.ledger.settled;
    && (forall k | 0 <= k < |settled| && settled[k].how.Replied? ::
          && settled[k].how.from <= settled[k].how.at < |news|
          && MeetsAt(cfg, settled[k].id, news, settled[k].how.at) && Handed(cfg, news[settled[k].how.at])
          && forall j | settled[k].how.from <= j < settled[k].how.at :: !MeetsAt(cfg, settled[k].id, news, j))
    && Consecutive(settled)
  }

  lemma HeardIsRight(cfg: Config, t: Task)
    requires cfg.json.Lawful() && Heard(cfg, t)
    ensures RightlyReplied(cfg, t)
  {
    var news, settled := t.air.news, t.ledger.settled;
    forall k, j | 0 <= k < |settled| && 0 <= j < |news|
      ensures AcceptedAt(cfg, settled[k].id, news, j) == MeetsAt(cfg, settled[k].id, news, j)
    {
      AcceptedExactly(cfg.json, cfg.wants(settled[k].id), news[j], cfg.prefix);
    }
    forall j | 0 <= j < |news| ensures Handed(cfg, news[j]) {
      BroadcastExactly(cfg.json, news[j], cfg.prefix);
      BroadcastIsEmptyOrJson(cfg.json, news[j], cfg.prefix);
      assert forall code: nat, d: Detail :: cfg.json.parse(cfg.json.render(code, d)).Some?;
    }
    forall k | 0 <= k < |settled| ensures First(cfg, news, settled[k]) {
    }
  }
}
