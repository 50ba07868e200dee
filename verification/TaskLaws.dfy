/**
  What every run of the connection task guarantees, whatever the callers, the network and the device do:
  requests are settled exactly once and in order, session keys live from handshake to disconnect, frames of a
  connection are numbered upwards, and the failure count is that of the history.
 */
module TaskLaws {
  import opened Bytes
  import opened Payloads
  import opened Reader
  import opened Handshake
  import opened Retry
  import opened Connection
  import opened LedgerLaws
  import opened KeyLaws
  import opened DemandLaws
  import opened AnswerLaws
  import opened PactLaws
  import opened Replies
  import opened ReplyLaws
  import opened Conduct

  // ---------------------------------------------------------------- counters, and what steps never undo

  predicate Counted(t: Task) {
    t.tally.counters == CountAll(t.tally.history)
  }

  lemma NoteIsCounted(t: Tally, o: Occurrence)
    requires t.counters == CountAll(t.history)
    ensures Note(t, o).counters == CountAll(Note(t, o).history)
  {
    assert (t.history + [o])[..|t.history|] == t.history;
  }

  /** A step settles requests, sends frames and notes occurrences, but never takes any of that back. */
  ghost predicate Extends(t: Task, u: Task) {
    && t.ledger.settled <= u.ledger.settled
    && t.outbox.sent <= u.outbox.sent && t.air.news <= u.air.news
    && (u.tally == t.tally || u.tally == Note(t.tally, Failed) || u.tally == Note(t.tally, Received))
  }

  lemma FailExtends(t: Task, e: Error)
    ensures Extends(t, Fail(t, e))
  {
  }

  lemma NegotiatedExtends(cfg: Config, t: Task, reply: Option<Delivery>, written: Option<Error>)
    requires t.phase.Negotiating?
    ensures Extends(t, NegotiatedStep(cfg, t, reply, written))
  {
    var emitted := t.(outbox := Emit(cfg, t, true));
    FailExtends(emitted, if written.Some? && KeyUsable(cfg, t) then written.value else EncryptionFailed);
    match Conclude(cfg.suite, GetProtocol(t.version, DefaultType), cfg.localKey, t.phase.nonce, reply)
    case Err(e) => FailExtends(t, e);
    case _ =>
  }

  lemma TcpUpExtends(cfg: Config, t: Task, nonce: bytes, written: Option<Error>)
    ensures Extends(t, TcpUpStep(cfg, t, nonce, written))
  {
    var emitted := t.(outbox := Emit(cfg, t, true));
    FailExtends(emitted, if written.Some? && KeyUsable(cfg, t) then written.value else EncryptionFailed);
  }

  lemma SentExtends(cfg: Config, t: Task, written: Option<Error>, waits: bool)
    ensures Extends(t, SentStep(cfg, t, written, waits)) && Extends(t, HeartbeatStep(cfg, t, written))
  {
  }

  lemma LinkStepExtends(cfg: Config, t: Task, e: LinkEvent)
    requires LinkEnabled(t, e)
    ensures Extends(t, LinkStep(cfg, t, e))
  {
    match e
    case ConnectFailed(error) => FailExtends(t, error);
    case TcpUp(nonce, written) => TcpUpExtends(cfg, t, nonce, written);
    case Negotiated(reply, written) => NegotiatedExtends(cfg, t, reply, written);
    case Sent(written, waits) => SentExtends(cfg, t, written, waits);
    case Heartbeat(written) => SentExtends(cfg, t, written, false);
    case LookForReply =>
      if ReplyHeard(cfg, t).Some? {
        assert Extends(t, Answered(t, ReplyHeard(cfg, t).value));
      }
    case ReplyTimedOut => assert Extends(t, Answered(t, Refused(Timeout)));
    case ReplyMissed => assert Extends(t, Answered(t, Refused(Offline)));
    case ReaderFailed(error) => assert Extends(t, Lose(t, error));
    case Discovered(v) => assert Extends(t, t.(version := v));
    case MessageIn(d) => assert Extends(t, Hear(t, d));
  }

  lemma TakeExtends(t: Task)
    requires t.ledger.queue != []
    ensures Extends(t, TakeStep(t))
  {
  }

  lemma LoopStepExtends(t: Task, e: LoopEvent)
    requires LoopEnabled(t, e)
    ensures Extends(t, LoopStep(t, e))
  {
    match e
    case Take => TakeExtends(t);
    case _ =>
  }

  lemma StepExtends(cfg: Config, t: Task, e: Event)
    requires Enabled(t, e)
    ensures Extends(t, Step(cfg, t, e))
  {
    match e
    case ByCaller(c) => assert Extends(t, CallerStep(t, c));
    case InLoop(l) => LoopStepExtends(t, l);
    case OnLink(l) => LinkStepExtends(cfg, t, l);
  }

  // ---------------------------------------------------------------- all runs

  ghost predicate Invariant(cfg: Config, t: Task) {
    && Accounted(t) && Demand(t) && Carried(t) && Heard(cfg, t)
    && Keys(cfg, t) && Outgoing(cfg, t) && Pacted(cfg, t)
    && Counted(t) && Orderly(cfg, t)
  }

  lemma StepKeepsCount(cfg: Config, t: Task, e: Event)
    requires Counted(t) && Enabled(t, e)
    ensures Counted(Step(cfg, t, e))
  {
    StepExtends(cfg, t, e);
    NoteIsCounted(t.tally, Failed);
    NoteIsCounted(t.tally, Received);
  }

  lemma StepKeepsInvariant(cfg: Config, t: Task, e: Event)
    requires cfg.suite.Lawful() && Invariant(cfg, t) && Enabled(t, e)
    ensures Invariant(cfg, Step(cfg, t, e))
  {
    StepIsAccounted(cfg, t, e);
    StepKeepsDemand(cfg, t, e);
    StepIsCarried(cfg, t, e);
    StepKeepsHeard(cfg, t, e);
    StepKeepsKeys(cfg, t, e);
    StepKeepsOutgoing(cfg, t, e);
    StepKeepsPacted(cfg, t, e);
    StepKeepsCount(cfg, t, e);
    StepKeepsOrderly(cfg, t, e);
  }

  lemma {:induction false} RunKeepsInvariant(cfg: Config, t: Task, events: seq<Event>)
    requires cfg.suite.Lawful() && Invariant(cfg, t) && Legal(cfg, t, events)
    ensures Invariant(cfg, Run(cfg, t, events))
    decreases |events|
  {
    if events != [] {
      StepKeepsInvariant(cfg, t, events[0]);
      RunKeepsInvariant(cfg, Step(cfg, t, events[0]), events[1..]);
    }
  }

  lemma InitialIsInvariant(cfg: Config, version: Version, persist: bool)
    ensures Invariant(cfg, Initial(version, persist))
  {
  }

  /** The records after a run are those before it and, event by event, what each step adds to them. */
  lemma {:induction false} RunIsLogged(cfg: Config, t: Task, events: seq<Event>)
    requires cfg.suite.Lawful() && Invariant(cfg, t) && Legal(cfg, t, events)
    ensures RecordsOf(Run(cfg, t, events)) == RecordsOf(t).Then(RunLog(cfg, t, events))
    decreases |events|
  {
    if events == [] {
      NothingAdds(RecordsOf(t));
    } else {
      var u := Step(cfg, t, events[0]);
      StepKeepsInvariant(cfg, t, events[0]);
      RunIsLogged(cfg, u, events[1..]);
      FirstIsLogged(cfg, t, events, u);
    }
  }

  /** What was settled stays settled, in the same way: no request is answered twice. */
  lemma {:induction false} SettledStaysSettled(cfg: Config, t: Task, events: seq<Event>)
    requires Legal(cfg, t, events)
    ensures t.ledger.settled <= Run(cfg, t, events).ledger.settled
    decreases |events|
  {
    if events != [] {
      var u := Step(cfg, t, events[0]);
      StepExtends(cfg, t, events[0]);
      SettledStaysSettled(cfg, u, events[1..]);
      assert t.ledger.settled <= u.ledger.settled <= Run(cfg, u, events[1..]).ledger.settled;
    }
  }

  lemma RunIsInvariant(cfg: Config, version: Version, persist: bool, events: seq<Event>)
    requires cfg.suite.Lawful() && Legal(cfg, Initial(version, persist), events)
    ensures Invariant(cfg, Run(cfg, Initial(version, persist), events))
  {
    InitialIsInvariant(cfg, version, persist);
    RunKeepsInvariant(cfg, Initial(version, persist), events);
  }

  /**
    Each request submitted is either settled, or in hand, or queued; they were settled in the order of submission; and
    once the connection task has ended all of them are settled.
   */
  predicate Conserved(t: Task) {
    var l := t.ledger;
    && (forall i | 0 <= i < |l.settled| :: l.settled[i].id == i)
    && (l.hand.Some? ==> l.hand.value == |l.settled|)
    && Numbered(Requests(l.queue), |l.settled| + Held(l))
    && |l.settled| + Held(l) + |Requests(l.queue)| == l.submitted
    && (t.phase == Exited ==> |l.settled| == l.submitted)
  }

  /** Conservation and order, after any run. */
  lemma RequestsAreSettledInOrder(cfg: Config, version: Version, persist: bool, events: seq<Event>)
    requires cfg.suite.Lawful() && Legal(cfg, Initial(version, persist), events)
    ensures Conserved(Run(cfg, Initial(version, persist), events)) && Roomy(Run(cfg, Initial(version, persist), events))
  {
    RunIsInvariant(cfg, version, persist, events);
  }

  /**
    Every request that was acknowledged or replied to went out in a frame of its own, and no request in more than one;
    frames carry requests in the order of submission.
   */
  predicate AnsweredBySending(t: Task) {
    var sent, settled := t.outbox.sent, t.ledger.settled;
    && (forall k | 0 <= k < |settled| :: settled[k].how.Replied? || settled[k].how == Acknowledged ==>
          exists i | 0 <= i < |sent| :: sent[i].request == Some(k) && !sent[i].handshake)
    && (forall i, j | 0 <= i < j < |sent| ::
          sent[i].request.Some? && sent[j].request.Some? ==> sent[i].request.value < sent[j].request.value)
  }

  lemma CarriedIsAnswered(t: Task)
    requires Accounted(t) && Carried(t)
    ensures AnsweredBySending(t)
  {
    forall k | 0 <= k < |t.ledger.settled| && Good(t.ledger.settled[k].how)
      ensures exists i | 0 <= i < |t.outbox.sent| :: t.outbox.sent[i].request == Some(k) && !t.outbox.sent[i].handshake
    {
      assert WasSent(t.outbox.sent, t.ledger.settled[k].id);
      var i :| 0 <= i < |t.outbox.sent| && t.outbox.sent[i].request == Some(k);
      assert !t.outbox.sent[i].handshake;
    }
  }

  /** Over every run, hence at every moment of one: no good answer without the request's own frame. */
  lemma GoodAnswersWereSent(cfg: Config, version: Version, persist: bool, events: seq<Event>)
    requires cfg.suite.Lawful() && Legal(cfg, Initial(version, persist), events)
    ensures AnsweredBySending(Run(cfg, Initial(version, persist), events))
  {
    RunIsInvariant(cfg, version, persist, events);
    CarriedIsAnswered(Run(cfg, Initial(version, persist), events));
  }

  /** Over every run: each reply is the first answer since its request began to listen, and answers no other request. */
  lemma RepliesAreFirstAnswers(cfg: Config, version: Version, persist: bool, events: seq<Event>)
    requires cfg.suite.Lawful() && cfg.json.Lawful() && Legal(cfg, Initial(version, persist), events)
    ensures RightlyReplied(cfg, Run(cfg, Initial(version, persist), events))
  {
    RunIsInvariant(cfg, version, persist, events);
    HeardIsRight(cfg, Run(cfg, Initial(version, persist), events));
  }

  /**
    There is a session key only on an established connection, or as a leftover after the end; on a connection exactly
    for v3.4 and v3.5; and it has 16 bytes.
   */
  predicate KeyInItsPlace(t: Task) {
    && (t.sessionKey.Some? ==> Talking(t.phase) || t.phase == Exited)
    && (Talking(t.phase) ==> (t.sessionKey.Some? <==> t.version == V34 || t.version == V35))
    && (t.sessionKey.Some? ==> |t.sessionKey.value| == 16)
  }

  /** The session key after any run, and when the device counts as connected. */
  lemma SessionKeyFollowsHandshake(cfg: Config, version: Version, persist: bool, events: seq<Event>)
    requires cfg.suite.Lawful() && Legal(cfg, Initial(version, persist), events)
    ensures KeyInItsPlace(Run(cfg, Initial(version, persist), events))
    ensures Standing(Run(cfg, Initial(version, persist), events))
  {
    RunIsInvariant(cfg, version, persist, events);
  }

  /**
    Handshake frames use the local key, later frames of a v3.4 or v3.5 connection use its one session key of 16 bytes,
    and all other frames the local key.
   */
  predicate RightlyKeyed(cfg: Config, sent: seq<Frame>) {
    && (forall i | 0 <= i < |sent| ::
          && |sent[i].key| == 16
          && (sent[i].session <==> !sent[i].handshake && (sent[i].version == V34 || sent[i].version == V35))
          && (!sent[i].session ==> sent[i].key == cfg.localKey))
    && (forall i, j | 0 <= i < j < |sent| ::
          sent[i].attempt == sent[j].attempt && sent[i].session && sent[j].session ==> sent[i].key == sent[j].key)
  }

  /**
    On one connection the sequence numbers grow from frame to frame, up to the wrap of the 32-bit counter, and leave
    none out.
   */
  predicate RightlyNumbered(sent: seq<Frame>) {
    && (forall i, j | 0 <= i < j < |sent| ::
          sent[i].attempt == sent[j].attempt && sent[j].ordinal < 0x1_0000_0000 ==> sent[i].Seqno() < sent[j].Seqno())
    && Gapless(sent)
  }

  lemma SmallSeqno(f: Frame)
    ensures f.ordinal < WORD ==> f.Seqno() == f.ordinal
  {
  }

  lemma OutgoingIsRight(cfg: Config, t: Task)
    requires Outgoing(cfg, t) && Gapless(t.outbox.sent)
    ensures RightlyKeyed(cfg, t.outbox.sent) && RightlyNumbered(t.outbox.sent)
  {
    var sent := t.outbox.sent;
    forall i | 0 <= i < |sent| ensures FrameKeyed(cfg, sent[i]) {
    }
    forall i, j | 0 <= i < j < |sent| ensures InOrder(sent[i], sent[j]) {
    }
    forall i, j | 0 <= i < j < |sent| && sent[i].attempt == sent[j].attempt && sent[j].ordinal < WORD
      ensures sent[i].Seqno() < sent[j].Seqno()
    {
      SmallSeqno(sent[i]);
      SmallSeqno(sent[j]);
    }
  }

  /** All frames of any run have the right key. */
  lemma FramesUseTheRightKey(cfg: Config, version: Version, persist: bool, events: seq<Event>)
    requires cfg.suite.Lawful() && Legal(cfg, Initial(version, persist), events)
    ensures RightlyKeyed(cfg, Run(cfg, Initial(version, persist), events).outbox.sent)
  {
    RunIsInvariant(cfg, version, persist, events);
    OutgoingIsRight(cfg, Run(cfg, Initial(version, persist), events));
  }

  /** All frames of any run are numbered upwards on their connection, and a reconnection starts again from 1. */
  lemma SequenceNumbersGrow(cfg: Config, version: Version, persist: bool, events: seq<Event>)
    requires cfg.suite.Lawful() && Legal(cfg, Initial(version, persist), events)
    ensures RightlyNumbered(Run(cfg, Initial(version, persist), events).outbox.sent)
    ensures FromOne(Run(cfg, Initial(version, persist), events))
  {
    RunIsInvariant(cfg, version, persist, events);
    OutgoingIsRight(cfg, Run(cfg, Initial(version, persist), events));
  }

  /**
    Every frame under a session key uses the very key the client concluded from its own nonce and the device's reply in
    the one handshake of that connection.
   */
  predicate KeysAgreed(cfg: Config, o: Outbox) {
    && (forall i | 0 <= i < |o.sent| && o.sent[i].session ::
          exists j | 0 <= j < |o.pacts| :: Covers(o.pacts[j], o.sent[i]) && Sound(cfg, o.pacts[j]))
    && (forall j, k | 0 <= j < k < |o.pacts| :: o.pacts[j].attempt != o.pacts[k].attempt)
  }

  lemma PactedIsAgreed(cfg: Config, t: Task)
    requires Pacted(cfg, t)
    ensures KeysAgreed(cfg, t.outbox)
  {
    var o := t.outbox;
    forall i | 0 <= i < |o.sent| && o.sent[i].session
      ensures exists j | 0 <= j < |o.pacts| :: Covers(o.pacts[j], o.sent[i]) && Sound(cfg, o.pacts[j])
    {
      assert Agreed(o.pacts, o.sent[i]);
      var j :| 0 <= j < |o.pacts| && Covers(o.pacts[j], o.sent[i]);
      assert Sound(cfg, o.pacts[j]);
    }
  }

  /** The origin of all session keys of any run. */
  lemma SessionKeysWereAgreed(cfg: Config, version: Version, persist: bool, events: seq<Event>)
    requires cfg.suite.Lawful() && Legal(cfg, Initial(version, persist), events)
    ensures KeysAgreed(cfg, Run(cfg, Initial(version, persist), events).outbox)
  {
    RunIsInvariant(cfg, version, persist, events);
    PactedIsAgreed(cfg, Run(cfg, Initial(version, persist), events));
  }

  /** From the start, the records of a run are its log and nothing else. */
  lemma RecordsAreTheLog(cfg: Config, version: Version, persist: bool, events: seq<Event>)
    requires cfg.suite.Lawful() && Legal(cfg, Initial(version, persist), events)
    ensures RecordsOf(Run(cfg, Initial(version, persist), events)) == RunLog(cfg, Initial(version, persist), events)
  {
    InitialIsInvariant(cfg, version, persist);
    RunIsLogged(cfg, Initial(version, persist), events);
    NothingAdds(RunLog(cfg, Initial(version, persist), events));
  }

  /**
    The failure count after any run is the number of its failures since the device was last calm: of the steps of the
    run that lose a connection or end an attempt to be repeated, since the last three messages without one in between.
   */
  lemma FailureCountOverRuns(cfg: Config, version: Version, persist: bool, events: seq<Event>)
    requires cfg.suite.Lawful() && Legal(cfg, Initial(version, persist), events)
    requires FailuresIn(RunLog(cfg, Initial(version, persist), events).history) < WORD
    ensures Run(cfg, Initial(version, persist), events).tally.counters.failures
            == FailuresSinceCalm(RunLog(cfg, Initial(version, persist), events).history)
  {
    RunIsInvariant(cfg, version, persist, events);
    RecordsAreTheLog(cfg, version, persist, events);
    FailureCountIsFailuresSinceCalm(Run(cfg, Initial(version, persist), events).tally.history);
  }

  /**
    A next attempt waits before it connects exactly if there have been failures since the device was last calm; a
    stopped device makes none.
   */
  lemma AttemptsWaitAfterFailures(cfg: Config, version: Version, persist: bool, events: seq<Event>)
    requires cfg.suite.Lawful() && Legal(cfg, Initial(version, persist), events)
    requires FailuresIn(RunLog(cfg, Initial(version, persist), events).history) < WORD
    requires Run(cfg, Initial(version, persist), events).phase == AttemptTop
    ensures var t := Run(cfg, Initial(version, persist), events);
            Step(cfg, t, InLoop(EnterAttempt)).phase ==
            if t.conn == Stopped then Exited
            else if FailuresSinceCalm(RunLog(cfg, Initial(version, persist), events).history) > 0 then BackingOff
            else Connecting
  {
    RunIsInvariant(cfg, version, persist, events);
    FailureCountOverRuns(cfg, version, persist, events);
    StepIsConducted(cfg, Run(cfg, Initial(version, persist), events), InLoop(EnterAttempt));
  }

  /** No request that brought up its own connection was replied to. */
  predicate DemandUnreplied(l: Ledger) {
    forall i | 0 <= i < |l.settled| :: l.settled[i].id in l.onDemand ==> !l.settled[i].how.Replied?
  }

  /** The invariant gives all of this in every state. */
  lemma InvariantMeans(cfg: Config, t: Task)
    requires Invariant(cfg, t)
    ensures Conserved(t) && AnsweredBySending(t) && DemandUnreplied(t.ledger)
    ensures cfg.json.Lawful() ==> RightlyReplied(cfg, t)
    ensures RightlyKeyed(cfg, t.outbox.sent) && RightlyNumbered(t.outbox.sent)
    ensures KeyInItsPlace(t) && KeysAgreed(cfg, t.outbox)
    ensures Standing(t) && FromOne(t) && Roomy(t)
    ensures FailuresIn(t.tally.history) < WORD ==> t.tally.counters.failures == FailuresSinceCalm(t.tally.history)
  {
    CarriedIsAnswered(t);
    if cfg.json.Lawful() {
      HeardIsRight(cfg, t);
    }
    OutgoingIsRight(cfg, t);
    PactedIsAgreed(cfg, t);
    if FailuresIn(t.tally.history) < WORD {
      FailureCountIsFailuresSinceCalm(t.tally.history);
    }
  }

  // ---------------------------------------------------------------- runs that exist

  lemma FirstStep(cfg: Config, t: Task, e: Event, rest: seq<Event>, end: Task)
    requires Enabled(t, e) && Legal(cfg, Step(cfg, t, e), rest) && Run(cfg, Step(cfg, t, e), rest) == end
    ensures Legal(cfg, t, [e] + rest) && Run(cfg, t, [e] + rest) == end
  {
    assert ([e] + rest)[1..] == rest;
  }

  /** From any state with an empty queue, 64 submissions fill it, and a 65th has to wait. */
  lemma {:induction false} QueueFills(cfg: Config, t: Task, n: nat) returns (events: seq<Event>)
    requires t.phase != Exited && |t.ledger.queue| + n <= 64
    ensures Legal(cfg, t, events) && |Run(cfg, t, events).ledger.queue| == |t.ledger.queue| + n
    ensures Enabled(Run(cfg, t, events), ByCaller(Submit)) <==> |t.ledger.queue| + n < 64
    decreases n
  {
    events := [];
    if n > 0 {
      var u := Step(cfg, t, ByCaller(Submit));
      var rest := QueueFills(cfg, u, n - 1);
      FirstStep(cfg, t, ByCaller(Submit), rest, Run(cfg, u, rest));
      events := [ByCaller(Submit)] + rest;
    }
  }

  // ---------------------------------------------------------------- replies

  /** A request on an established connection is sent, the reader broadcasts an answer, and the request is replied to. */
  lemma ReplyArrives(cfg: Config, t: Task, d: Delivery) returns (events: seq<Event>)
    requires t.phase == Maintaining && t.readerUp && KeyUsable(cfg, t) && t.ledger == Ledger(None, [], 0, [], {})
    requires Accepts(cfg.json, cfg.wants(0), Broadcast(cfg.json, Read(d), cfg.prefix))
    ensures Legal(cfg, t, events)
    ensures Run(cfg, t, events).ledger.settled == [Settled(0, Replied(|t.air.news|, |t.air.news|))]
  {
    var asked := CallerStep(t, Submit);
    assert asked.ledger.queue == [Request(0)];
    var processing := TakeStep(asked);
    var replying := SentStep(cfg, processing, None, true);
    var heard := Hear(replying, d);
    assert FirstAccepted(cfg.json, cfg.wants(0), cfg.prefix, heard.air.news, |t.air.news|) == |t.air.news|;
    var end := LookStep(cfg, heard);
    FirstStep(cfg, heard, OnLink(LookForReply), [], end);
    events := [OnLink(LookForReply)] + [];
    FirstStep(cfg, replying, OnLink(MessageIn(d)), events, end);
    events := [OnLink(MessageIn(d))] + events;
    FirstStep(cfg, processing, OnLink(Sent(None, true)), events, end);
    events := [OnLink(Sent(None, true))] + events;
    FirstStep(cfg, asked, InLoop(Take), events, end);
    events := [InLoop(Take)] + events;
    FirstStep(cfg, t, ByCaller(Submit), events, end);
    events := [ByCaller(Submit)] + events;
  }

  /** A run from the start in which that happens. */
  lemma ReplyCanArrive(cfg: Config, d: Delivery) returns (events: seq<Event>)
    requires |cfg.localKey| == 16 && Accepts(cfg.json, cfg.wants(0), Broadcast(cfg.json, Read(d), cfg.prefix))
    ensures Legal(cfg, Initial(V33, true), events)
    ensures Run(cfg, Initial(V33, true), events).ledger.settled == [Settled(0, Replied(0, 0))]
  {
    var e4 := OnLink(TcpUp(Repeat(0, 16), None));
    var t1 := LoopStep(Initial(V33, true), StaggerOver);
    var t2 := LoopStep(t1, EnterRun);
    var t3 := LoopStep(t2, EnterAttempt);
    var t4 := Establish(t3);
    var tail := ReplyArrives(cfg, t4, d);
    var end := Run(cfg, t4, tail);
    FirstStep(cfg, t3, e4, tail, end);
    FirstStep(cfg, t2, InLoop(EnterAttempt), [e4] + tail, end);
    FirstStep(cfg, t1, InLoop(EnterRun), [InLoop(EnterAttempt)] + ([e4] + tail), end);
    events := [InLoop(StaggerOver)] + ([InLoop(EnterRun)] + ([InLoop(EnterAttempt)] + ([e4] + tail)));
    FirstStep(cfg, Initial(V33, true), InLoop(StaggerOver), events[1..], end);
    assert [InLoop(StaggerOver)] + events[1..] == events;
  }

  // ---------------------------------------------------------------- on demand

  /**
    A request that had to bring up the connection is sent before the reader starts, so no run ever answers it with the
    device's reply: it is acknowledged without one, refused or dropped.
   */
  lemma OnDemandRequestsGetNoReply(cfg: Config, version: Version, persist: bool, events: seq<Event>, i: nat)
    requires cfg.suite.Lawful() && Legal(cfg, Initial(version, persist), events)
    requires var l := Run(cfg, Initial(version, persist), events).ledger;
             i < |l.settled| && l.settled[i].id in l.onDemand
    ensures !Run(cfg, Initial(version, persist), events).ledger.settled[i].how.Replied?
  {
    RunIsInvariant(cfg, version, persist, events);
  }

  /** The request in hand is sent on the connection it asked for, and waits in vain. */
  lemma DemandTimesOut(cfg: Config, t: Task)
    requires t.phase == Connecting && !NeedsSessionKey(t.version) && t.ledger.hand.Some? && KeyUsable(cfg, t)
    ensures var events := [OnLink(TcpUp(Repeat(0, 16), None))] + ([OnLink(Sent(None,
            true))] + ([OnLink(ReplyTimedOut)] + []));
            Legal(cfg, t, events) && Run(cfg, t, events).ledger == Settle(t.ledger, Refused(Timeout))
  {
    var processing := Step(cfg, t, OnLink(TcpUp(Repeat(0, 16), None)));
    var replying := Step(cfg, processing, OnLink(Sent(None, true)));
    var end := Step(cfg, replying, OnLink(ReplyTimedOut));
    FirstStep(cfg, replying, OnLink(ReplyTimedOut), [], end);
    FirstStep(cfg, processing, OnLink(Sent(None, true)), [OnLink(ReplyTimedOut)] + [], end);
    FirstStep(cfg, t, OnLink(TcpUp(Repeat(0, 16), None)), [OnLink(Sent(None, true))] + ([OnLink(ReplyTimedOut)] + []),
        end);
  }

  /** An idle device is asked for something. */
  lemma DemandIsTaken(cfg: Config, t: Task, rest: seq<Event>, end: Task)
    requires t.phase == OnDemand && t.ledger.queue == []
    requires var u := StartConnecting(t.(ledger := TakeUp(Enter(t.ledger, true), true)));
             Legal(cfg, u, rest) && Run(cfg, u, rest) == end
    ensures var events := [ByCaller(Submit)] + ([InLoop(Take)] + rest);
            Legal(cfg, t, events) && Run(cfg, t, events) == end
  {
    var asked := Step(cfg, t, ByCaller(Submit));
    assert asked.ledger == Enter(t.ledger, true) && asked.ledger.queue[0].Request?;
    FirstStep(cfg, asked, InLoop(Take), rest, end);
    FirstStep(cfg, t, ByCaller(Submit), [InLoop(Take)] + rest, end);
  }

  /** A v3.3 device that is not to be kept connected, idle after its first attempt. */
  function Idle33(): Task {
    Initial(V33, false).(phase := OnDemand, outbox := Outbox(1, 1, [], []))
  }

  lemma TurnsIdle(cfg: Config, rest: seq<Event>, end: Task)
    requires Legal(cfg, Idle33(), rest) && Run(cfg, Idle33(), rest) == end
    ensures var tail := [InLoop(EnterAttempt)] + ([OnLink(ConnectFailed(Offline))] + rest);
            var events := [InLoop(StaggerOver)] + ([InLoop(EnterRun)] + tail);
            Legal(cfg, Initial(V33, false), events) && Run(cfg, Initial(V33, false), events) == end
  {
    var t1 := LoopStep(Initial(V33, false), StaggerOver);
    var t2 := LoopStep(t1, EnterRun);
    var t3 := LoopStep(t2, EnterAttempt);
    var e4 := OnLink(ConnectFailed(Offline));
    assert Fail(t3, Offline) == Idle33();
    FirstStep(cfg, t3, e4, rest, end);
    FirstStep(cfg, t2, InLoop(EnterAttempt), [e4] + rest, end);
    FirstStep(cfg, t1, InLoop(EnterRun), [InLoop(EnterAttempt)] + ([e4] + rest), end);
    FirstStep(cfg, Initial(V33, false), InLoop(StaggerOver),
        [InLoop(EnterRun)] + ([InLoop(EnterAttempt)] + ([e4] + rest)), end);
  }

  /** The idle device is asked for its first request, which times out. */
  lemma IdleTimesOut(cfg: Config) returns (events: seq<Event>)
    requires |cfg.localKey| == 16
    ensures Legal(cfg, Idle33(), events)
    ensures Run(cfg, Idle33(), events).ledger == Ledger(None, [], 1, [Settled(0, Refused(Timeout))], {0})
  {
    var asked := StartConnecting(Idle33().(ledger := TakeUp(Enter(Idle33().ledger, true), true)));
    assert asked.ledger == Ledger(Some(0), [], 1, [], {0});
    DemandTimesOut(cfg, asked);
    var tail := [OnLink(TcpUp(Repeat(0, 16), None))] + ([OnLink(Sent(None, true))] + ([OnLink(ReplyTimedOut)] + []));
    DemandIsTaken(cfg, Idle33(), tail, Run(cfg, asked, tail));
    events := [ByCaller(Submit)] + ([InLoop(Take)] + tail);
  }

  /** A run from the start in which the very first request brings up its own connection, is sent and is timed out. */
  lemma OnDemandRequestTimesOut(cfg: Config) returns (events: seq<Event>)
    requires |cfg.localKey| == 16
    ensures Legal(cfg, Initial(V33, false), events)
    ensures var l := Run(cfg, Initial(V33, false), events).ledger;
            l.settled == [Settled(0, Refused(Timeout))] && 0 in l.onDemand
  {
    var rest := IdleTimesOut(cfg);
    TurnsIdle(cfg, rest, Run(cfg, Idle33(), rest));
    var tail := [InLoop(EnterAttempt)] + ([OnLink(ConnectFailed(Offline))] + rest);
    events := [InLoop(StaggerOver)] + ([InLoop(EnterRun)] + tail);
  }

  /**
    A v3.4 device that fails to answer the handshake is asked again, on demand: the new connection counts on from 2.
   */
  lemma DemandCountsOn(cfg: Config, t: Task, nonce: bytes) returns (events: seq<Event>)
    requires t.phase == Connecting && t.version == V34 && !t.persist && t.sessionKey.None? && |cfg.localKey| == 16
    requires |nonce| == 16 && t.ledger == Ledger(None, [], 0, [], {}) && t.outbox.seqno == 1
    ensures Legal(cfg, t, events)
    ensures var sent := Run(cfg, t, events).outbox.sent;
            var n := |t.outbox.sent|;
            && |sent| == n + 2 && sent[n].attempt < sent[n + 1].attempt
            && sent[n].ordinal == 1 && sent[n + 1].ordinal == 2
  {
    var e1, e4 := OnLink(TcpUp(nonce, Some(Timeout))), OnLink(TcpUp(nonce, None));
    var failed := Step(cfg, t, e1);
    assert failed.phase == OnDemand && failed.ledger == Ledger(None, [], 0, [], {}) && failed.outbox.seqno == 2;
    var asked := StartConnecting(failed.(ledger := TakeUp(Enter(failed.ledger, true), true)));
    var end := Step(cfg, asked, e4);
    FirstStep(cfg, asked, e4, [], end);
    DemandIsTaken(cfg, failed, [e4] + [], end);
    var rest := [ByCaller(Submit)] + ([InLoop(Take)] + ([e4] + []));
    FirstStep(cfg, t, e1, rest, end);
    events := [e1] + rest;
  }

  /** A run from the start in which that happens. */
  lemma DemandCanCountOn(cfg: Config) returns (events: seq<Event>)
    requires |cfg.localKey| == 16
    ensures Legal(cfg, Initial(V34, false), events)
    ensures var sent := Run(cfg, Initial(V34, false), events).outbox.sent;
            |sent| == 2 && sent[0].attempt < sent[1].attempt && sent[0].ordinal == 1 && sent[1].ordinal == 2
  {
    var t1 := LoopStep(Initial(V34, false), StaggerOver);
    var t2 := LoopStep(t1, EnterRun);
    var t3 := LoopStep(t2, EnterAttempt);
    var tail := DemandCountsOn(cfg, t3, Repeat(0, 16));
    var end := Run(cfg, t3, tail);
    FirstStep(cfg, t2, InLoop(EnterAttempt), tail, end);
    FirstStep(cfg, t1, InLoop(EnterRun), [InLoop(EnterAttempt)] + tail, end);
    events := [InLoop(StaggerOver)] + ([InLoop(EnterRun)] + ([InLoop(EnterAttempt)] + tail));
    FirstStep(cfg, Initial(V34, false), InLoop(StaggerOver), [InLoop(EnterRun)] + ([InLoop(EnterAttempt)] + tail), end);
  }

  // ---------------------------------------------------------------- stopping

  /**
    The step completes a connection: TCP is up where no session key is needed, or the handshake has been concluded and
    answered.
   */
  predicate Completes(cfg: Config, t: Task, e: Event) {
    match e
    case OnLink(TcpUp(_, _)) => !NeedsSessionKey(t.version)
    case OnLink(Negotiated(reply, written)) =>
      && t.phase.Negotiating? && written.None? && KeyUsable(cfg, t)
      && Conclude(cfg.suite, GetProtocol(t.version, DefaultType), cfg.localKey, t.phase.nonce, reply).Ok?
    case _ => false
  }

  lemma StoppedTaking(t: Task)
    requires t.conn == Stopped && t.ledger.queue != []
    ensures TakeStep(t).conn == Stopped
  {
  }

  lemma StoppedInLoop(t: Task, e: LoopEvent)
    requires t.conn == Stopped && LoopEnabled(t, e)
    ensures LoopStep(t, e).conn == Stopped
  {
    if e.Take? {
      StoppedTaking(t);
    }
  }

  lemma StoppedTalking(cfg: Config, t: Task, written: Option<Error>, waits: bool)
    requires t.conn == Stopped
    ensures SentStep(cfg, t, written, waits).conn == Stopped && HeartbeatStep(cfg, t, written).conn == Stopped
  {
  }

  lemma StoppedTcpUp(cfg: Config, t: Task, nonce: bytes, written: Option<Error>)
    requires t.conn == Stopped
    ensures TcpUpStep(cfg, t, nonce, written).conn != Stopped <==> !NeedsSessionKey(t.version)
  {
  }

  lemma StoppedFails(t: Task, e: Error)
    requires t.conn == Stopped
    ensures Fail(t, e).conn == Stopped
  {
  }

  lemma StoppedNegotiated(cfg: Config, t: Task, reply: Option<Delivery>, written: Option<Error>)
    requires t.conn == Stopped && t.phase.Negotiating?
    ensures NegotiatedStep(cfg, t, reply, written).conn != Stopped
            <==> Completes(cfg, t, OnLink(Negotiated(reply, written)))
  {
    var emitted := t.(outbox := Emit(cfg, t, true));
    match Conclude(cfg.suite, GetProtocol(t.version, DefaultType), cfg.localKey, t.phase.nonce, reply)
    case Err(e) => StoppedFails(t, e);
    case Crash =>
    case Ok(agreement) =>
      StoppedFails(emitted, EncryptionFailed);
      if written.Some? {
        StoppedFails(emitted, written.value);
      }
      assert Establish(Agree(emitted, reply, agreement.sessionKey)).conn == Connected;
  }

  lemma StoppedOnLink(cfg: Config, t: Task, e: LinkEvent)
    requires t.conn == Stopped && LinkEnabled(t, e)
    ensures LinkStep(cfg, t, e).conn != Stopped <==> Completes(cfg, t, OnLink(e))
  {
    match e
    case TcpUp(nonce, written) => StoppedTcpUp(cfg, t, nonce, written);
    case Negotiated(reply, written) => StoppedNegotiated(cfg, t, reply, written);
    case Sent(written, waits) => StoppedTalking(cfg, t, written, waits);
    case Heartbeat(written) => StoppedTalking(cfg, t, written, false);
    case _ =>
  }

  /** `stop` is undone by exactly the steps that complete a connection. */
  lemma StoppedIsLeftExactly(cfg: Config, t: Task, e: Event)
    requires t.conn == Stopped && Enabled(t, e)
    ensures Step(cfg, t, e).conn != Stopped <==> Completes(cfg, t, e)
  {
    match e
    case ByCaller(c) =>
    case InLoop(l) => StoppedInLoop(t, l);
    case OnLink(l) => StoppedOnLink(cfg, t, l);
  }

  /** Stopped here and after every step of the run. */
  ghost predicate StaysStopped(cfg: Config, t: Task, events: seq<Event>)
    requires Legal(cfg, t, events)
    decreases |events|
  {
    t.conn == Stopped && (events == [] || StaysStopped(cfg, Step(cfg, t, events[0]), events[1..]))
  }

  /** No step of the run completes a connection. */
  ghost predicate NoneCompletes(cfg: Config, t: Task, events: seq<Event>)
    requires Legal(cfg, t, events)
    decreases |events|
  {
    events == [] || (!Completes(cfg, t, events[0]) && NoneCompletes(cfg, Step(cfg, t, events[0]), events[1..]))
  }

  /** A stopped device stays stopped throughout a run if and only if no step of the run completes a connection. */
  lemma {:induction false} StopHoldsExactly(cfg: Config, t: Task, events: seq<Event>)
    requires t.conn == Stopped && Legal(cfg, t, events)
    ensures StaysStopped(cfg, t, events) <==> NoneCompletes(cfg, t, events)
    decreases |events|
  {
    if events != [] {
      StoppedIsLeftExactly(cfg, t, events[0]);
      if !Completes(cfg, t, events[0]) {
        StopHoldsExactly(cfg, Step(cfg, t, events[0]), events[1..]);
      }
    }
  }

  /**
    Stop is called while the TCP connection is being made, no session key is to be agreed, and the device ends up
    connected.
   */
  lemma StopIsUndone(cfg: Config, t: Task)
    requires t.phase == Connecting && !NeedsSessionKey(t.version)
    ensures var events := [ByCaller(MarkStopped)] + ([OnLink(TcpUp(Repeat(0, 16), None))] + []);
            Legal(cfg, t, events) && Run(cfg, t, events).conn == Connected
  {
    var e1, e2 := ByCaller(MarkStopped), OnLink(TcpUp(Repeat(0, 16), None));
    var stopped := Step(cfg, t, e1);
    var end := Step(cfg, stopped, e2);
    FirstStep(cfg, stopped, e2, [], end);
    FirstStep(cfg, t, e1, [e2] + [], end);
  }

  /** A run from the start in which that happens. */
  lemma StopCanBeUndone(cfg: Config)
    ensures exists events :: Legal(cfg, Initial(V33, true), events) && ByCaller(MarkStopped) in events
              && Run(cfg, Initial(V33, true), events).conn == Connected
  {
    var tail := [ByCaller(MarkStopped)] + ([OnLink(TcpUp(Repeat(0, 16), None))] + []);
    var t1 := LoopStep(Initial(V33, true), StaggerOver);
    var t2 := LoopStep(t1, EnterRun);
    var t3 := LoopStep(t2, EnterAttempt);
    StopIsUndone(cfg, t3);
    var end := Run(cfg, t3, tail);
    FirstStep(cfg, t2, InLoop(EnterAttempt), tail, end);
    FirstStep(cfg, t1, InLoop(EnterRun), [InLoop(EnterAttempt)] + tail, end);
    var events := [InLoop(StaggerOver)] + ([InLoop(EnterRun)] + ([InLoop(EnterAttempt)] + tail));
    FirstStep(cfg, Initial(V33, true), InLoop(StaggerOver), [InLoop(EnterRun)] + ([InLoop(EnterAttempt)] + tail), end);
    assert events[3] == ByCaller(MarkStopped);
  }
}
