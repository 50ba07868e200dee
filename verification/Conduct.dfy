/**
  How the connection task conducts itself: what makes a step the end of an attempt, of a connection or of all of it, and
  what each field is afterwards, over all events at once.

  `Connection` defines a step event by event, as the code runs. Here each law takes one field and says, from the event
  and the state before it alone, exactly when and to what it changes.
 */
module Conduct {
  import opened Bytes
  import opened Payloads
  import opened Reader
  import opened Handshake
  import opened Retry
  import opened Replies
  import opened Connection
  import opened LedgerLaws
  import opened KeyLaws

  // ---------------------------------------------------------------- what a step amounts to

  /** What a step does to the attempt, the connection, the request in hand, or the connection task as a whole. */
  datatype Cause =
    | AttemptFails(error: Error)
    | Established(key: Option<bytes>)
    | ConnectionLost(error: Error)
    | Answers(how: Resolution)
    | Ends(told: Resolution)
    | Routine

  predicate Negotiates(version: Version) {
    version == V34 || version == V35
  }

  /** There is no key of 16 bytes to protect a frame with. */
  predicate Keyless(cfg: Config, t: Task) {
    t.sessionKey.None? && |cfg.localKey| != 16
  }

  /** What comes of writing: an error where there is no usable key, and otherwise that of the socket, if any. */
  function WriteError(cfg: Config, t: Task, written: Option<Error>): Option<Error> {
    if Keyless(cfg, t) then Some(EncryptionFailed) else written
  }

  /** What the handshake concludes from the reply. */
  function ConclusionOf(cfg: Config, t: Task, reply: Option<Delivery>): Result<Agreement>
    requires t.phase.Negotiating?
  {
    Conclude(cfg.suite, GetProtocol(t.version, DefaultType), cfg.localKey, t.phase.nonce, reply)
  }

  /** On a connection. */
  function LinkCause(cfg: Config, t: Task, e: LinkEvent): Cause
    requires LinkEnabled(t, e)
  {
    match e
    case ConnectFailed(error) => AttemptFails(error)
    case TcpUp(_, written) =>
      if !Negotiates(t.version) then Established(None)
      else if WriteError(cfg, t, written).Some? then AttemptFails(WriteError(cfg, t, written).value)
      else Routine
    case Negotiated(reply, written) =>
      (match ConclusionOf(cfg, t, reply)
       case Err(error) => AttemptFails(error)
       case Crash => Ends(Dropped)
       case Ok(agreement) =>
         if written.Some? then AttemptFails(written.value) else Established(Some(agreement.sessionKey)))
    case Sent(written, waits) =>
      if WriteError(cfg, t, written).Some? then Answers(Refused(WriteError(cfg, t, written).value))
      else if waits then Routine
      else Answers(Acknowledged)
    case LookForReply =>
      if t.ledger.hand.None? then Routine
      else
        var k := FirstAccepted(cfg.json, cfg.wants(t.ledger.hand.value), cfg.prefix, t.air.news, t.air.subscribed);
        if k < |t.air.news| then Answers(Replied(t.air.subscribed, k)) else Routine
    case ReplyTimedOut => Answers(Refused(Timeout))
    case ReplyMissed => Answers(Refused(Offline))
    case Heartbeat(written) =>
      if WriteError(cfg, t, written).Some? then ConnectionLost(WriteError(cfg, t, written).value) else Routine
    case ReaderFailed(error) => ConnectionLost(error)
    case _ => Routine
  }

  /** Between connections. */
  function LoopCause(t: Task, e: LoopEvent): Cause
    requires LoopEnabled(t, e)
  {
    match e
    case EnterRun => if t.conn == Stopped then Ends(Dropped) else Routine
    case EnterAttempt => if t.conn == Stopped then Ends(Refused(Offline)) else Routine
    case Take =>
      if t.ledger.queue[0] != Disconnect || t.phase == BackingOff then Routine
      else if t.phase == OnDemand then Ends(Dropped)
      else ConnectionLost(Offline)
    case Cancelled => Ends(Dropped)
    case CancelledInBackoff => Ends(Refused(Offline))
    case CancelledInLoop => Ends(Dropped)
    case _ => Routine
  }

  function CauseOf(cfg: Config, t: Task, e: Event): Cause
    requires Enabled(t, e)
  {
    match e
    case ByCaller(_) => Routine
    case InLoop(l) => LoopCause(t, l)
    case OnLink(l) => LinkCause(cfg, t, l)
  }

  // ---------------------------------------------------------------- frames

  /** The step packs a frame: half of the handshake, the request in hand, or a heartbeat. */
  predicate Packs(cfg: Config, t: Task, e: Event)
    requires Enabled(t, e)
  {
    match e
    case OnLink(TcpUp(_, _)) => Negotiates(t.version)
    case OnLink(Negotiated(reply, _)) => ConclusionOf(cfg, t, reply).Ok?
    case OnLink(Sent(_, _)) => true
    case OnLink(Heartbeat(_)) => true
    case _ => false
  }

  /** The frame, with the number it has. */
  function FrameOf(cfg: Config, t: Task, e: Event): Frame {
    var handshake := e.OnLink? && (e.link.TcpUp? || e.link.Negotiated?);
    Frame(t.outbox.attempt, t.outbox.seqno, handshake, if handshake then None else t.ledger.hand,
          if t.sessionKey.Some? then t.sessionKey.value else cfg.localKey, t.sessionKey.Some?, t.version)
  }

  /** A frame packed is handed to the socket, but for want of a key. */
  function Posted(cfg: Config, t: Task, packs: bool, e: Event): Outbox {
    var o := t.outbox;
    if !packs then o
    else o.(seqno := o.seqno + 1, sent := if Keyless(cfg, t) then o.sent else o.sent + [FrameOf(cfg, t, e)])
  }

  // ---------------------------------------------------------------- failures and messages

  /** The step counts as a failure: a connection is lost, or an attempt no request waits for fails and is repeated. */
  predicate IsFailure(t: Task, c: Cause) {
    c.ConnectionLost? || (c.AttemptFails? && t.ledger.hand.None? && t.persist)
  }

  predicate IsMessage(e: Event) {
    e.OnLink? && e.link.MessageIn?
  }

  /** What the step adds to the history. */
  function Occurs(t: Task, c: Cause, e: Event): seq<Occurrence> {
    if IsFailure(t, c) then [Failed] else if IsMessage(e) then [Received] else []
  }

  /** What the step adds to the broadcasts. */
  function Broadcasts(e: Event): seq<News> {
    if IsMessage(e) then [Read(e.link.delivery)] else []
  }

  /** Failures are counted, messages counted and broadcast, and a request that waits listens from now on. */
  predicate Recorded(t: Task, c: Cause, e: Event, u: Task) {
    && u.tally.history == t.tally.history + Occurs(t, c, e)
    && u.air.news == t.air.news + Broadcasts(e)
    && u.air.subscribed == if c == Routine && e.OnLink? && e.link.Sent? then |t.air.news| else t.air.subscribed
  }

  // ---------------------------------------------------------------- requests

  predicate TakesRequest(t: Task, e: Event) {
    e == InLoop(Take) && t.ledger.queue != [] && t.ledger.queue[0].Request?
  }

  /** The requests the step settles, in order: the one in hand, all queued ones, or the one met while backing off. */
  function Finished(t: Task, c: Cause, e: Event): seq<nat> {
    var l := t.ledger;
    var held := if l.hand.Some? then [l.hand.value] else [];
    match c
    case ConnectionLost(_) => Requests(l.queue)
    case AttemptFails(_) => if l.hand.Some? then held else Requests(l.queue)
    case Ends(_) => held + Requests(l.queue)
    case Answers(_) => held
    case _ =>
      if TakesRequest(t, e) && t.phase == BackingOff then [l.queue[0].id]
      else if e == ByCaller(Submit) && t.phase == Exited then [l.submitted]
      else []
  }

  /** What they are told. */
  function Verdict(c: Cause, e: Event): Resolution {
    match c
    case ConnectionLost(error) => Refused(error)
    case AttemptFails(error) => Refused(error)
    case Ends(told) => told
    case Answers(how) => how
    case _ => if e.ByCaller? then Dropped else Refused(Offline)
  }

  /** Exactly these requests have been settled in between, in this order and all in this way. */
  predicate SettledBetween(before: seq<Settled>, after: seq<Settled>, ids: seq<nat>, how: Resolution) {
    && before <= after && |after| == |before| + |ids|
    && (forall i | 0 <= i < |ids| :: after[|before| + i] == Settled(ids[i], how))
  }

  /** The request in hand afterwards. */
  function HandAfter(t: Task, c: Cause, e: Event): Option<nat> {
    if c != Routine && !c.Established? then None
    else if TakesRequest(t, e) && t.phase != BackingOff then Some(t.ledger.queue[0].id)
    else t.ledger.hand
  }

  /** The queue afterwards. */
  function QueueAfter(t: Task, c: Cause, e: Event): seq<Command> {
    var queue := t.ledger.queue;
    if c.ConnectionLost? || c.Ends? || (c.AttemptFails? && t.ledger.hand.None?) then []
    else if e == InLoop(Take) && queue != [] then queue[1..]
    else if t.phase == Exited then queue
    else if e == ByCaller(Submit) then queue + [Request(t.ledger.submitted)]
    else if e.ByCaller? && e.caller.SubmitControl? then queue + [e.caller.control]
    else queue
  }

  /** Requests are settled, held and queued as they should. */
  predicate Booked(t: Task, c: Cause, e: Event, u: Task) {
    && SettledBetween(t.ledger.settled, u.ledger.settled, Finished(t, c, e), Verdict(c, e))
    && u.ledger.hand == HandAfter(t, c, e)
    && u.ledger.queue == QueueAfter(t, c, e)
    && u.ledger.submitted == t.ledger.submitted + (if e == ByCaller(Submit) then 1 else 0)
    && u.ledger.onDemand == t.ledger.onDemand
                            + if TakesRequest(t, e) && t.phase == OnDemand then {t.ledger.queue[0].id} else {}
  }

  // ---------------------------------------------------------------- connections

  /** The connection state, the session key, the reader, and the settings. */
  predicate Connects(t: Task, c: Cause, e: Event, u: Task) {
    var closes := c.AttemptFails? || c.ConnectionLost? || e == ByCaller(Close) || e == InLoop(CancelledInLoop);
    && u.conn == (if e == ByCaller(MarkStopped) then Stopped
                  else if c.Established? then Connected
                  else if closes && t.conn == Connected then Disconnected
                  else t.conn)
    && u.sessionKey == (if c.Established? && c.key.Some? then c.key
                        else if c.ConnectionLost? || e == InLoop(CancelledInLoop) then None
                        else t.sessionKey)
    && u.readerUp == (if c.ConnectionLost? || c.Ends? then false
                      else t.readerUp || c.Answers? || (c.Established? && t.ledger.hand.None?))
    && u.cancelled == (t.cancelled || c.Ends? || e == ByCaller(CancelToken))
    && u.persist == (if e.ByCaller? && e.caller.SetPersist? then e.caller.persist else t.persist)
    && u.version == if e.OnLink? && e.link.Discovered? then e.link.version else t.version
  }

  /** Where a routine step leads. */
  function RoutinePhase(t: Task, e: Event): Phase {
    match e
    case InLoop(StaggerOver) => RunTop
    case InLoop(EnterRun) => AttemptTop
    case InLoop(EnterAttempt) => if t.tally.counters.failures > 0 then BackingOff else Connecting
    case InLoop(BackoffOver) => Connecting
    case InLoop(Take) =>
      var asksForConnection := t.ledger.queue != [] && t.ledger.queue[0] == ConnectNow;
      if t.phase == BackingOff && asksForConnection then Connecting
      else if t.phase == OnDemand && asksForConnection then AttemptTop
      else if t.phase == OnDemand && TakesRequest(t, e) then Connecting
      else if t.phase == Maintaining && TakesRequest(t, e) then Processing
      else t.phase
    case OnLink(TcpUp(nonce, _)) => Negotiating(nonce)
    case OnLink(Sent(_, _)) => Replying
    case _ => t.phase
  }

  /** Where the step leads. */
  function PhaseAfter(t: Task, c: Cause, e: Event): Phase {
    match c
    case ConnectionLost(_) => RunTop
    case AttemptFails(_) => if t.ledger.hand.None? && t.persist then AttemptTop else OnDemand
    case Established(_) => if t.ledger.hand.None? then Maintaining else Processing
    case Answers(_) => Maintaining
    case Ends(_) => Exited
    case Routine => RoutinePhase(t, e)
  }

  // ---------------------------------------------------------------- frames sent

  /** Connections and frames are numbered, and completed handshakes remembered. */
  predicate Sends(cfg: Config, t: Task, c: Cause, packs: bool, e: Event, u: Task) {
    var o := t.outbox;
    && u.outbox.attempt == o.attempt + (if u.phase == Connecting && t.phase != Connecting then 1 else 0)
    && u.outbox.seqno == (if packs then o.seqno + 1
                          else if c == Routine && (e == InLoop(EnterRun) || e == InLoop(EnterAttempt)) then 1
                          else o.seqno)
    && u.outbox.sent == o.sent + (if packs && !Keyless(cfg, t) then [FrameOf(cfg, t, e)] else [])
    && u.outbox.pacts == o.pacts + if t.phase.Negotiating? && e.OnLink? && e.link.Negotiated? && c.Established?
                                      && c.key.Some?
                                   then [Pact(o.attempt, t.version, t.phase.nonce, e.link.reply, c.key.value)]
                                   else []
  }

  // ---------------------------------------------------------------- the whole step

  /** All of that, for a step with this cause that packs a frame or does not. */
  predicate ConductedAs(cfg: Config, t: Task, c: Cause, packs: bool, e: Event, u: Task) {
    && Recorded(t, c, e, u) && Booked(t, c, e, u) && Connects(t, c, e, u)
    && u.phase == PhaseAfter(t, c, e) && Sends(cfg, t, c, packs, e, u)
  }

  /** The step from `t` to `u` is right in every field. */
  predicate Conducted(cfg: Config, t: Task, e: Event, u: Task)
    requires Enabled(t, e)
  {
    ConductedAs(cfg, t, CauseOf(cfg, t, e), Packs(cfg, t, e), e, u)
  }

  // ---------------------------------------------------------------- steps by cause

  lemma EmitIsPosted(cfg: Config, t: Task, e: LinkEvent)
    requires Keys(cfg, t) && LinkEnabled(t, e) && Packs(cfg, t, OnLink(e))
    ensures Emit(cfg, t, e.TcpUp? || e.Negotiated?) == Posted(cfg, t, true, OnLink(e))
    ensures KeyUsable(cfg, t) <==> !Keyless(cfg, t)
  {
  }

  function AfterPost(cfg: Config, t: Task, e: LinkEvent): Task
    requires LinkEnabled(t, e)
  {
    t.(outbox := Posted(cfg, t, Packs(cfg, t, OnLink(e)), OnLink(e)))
  }

  lemma TcpUpByCause(cfg: Config, t: Task, e: LinkEvent)
    requires Keys(cfg, t) && LinkEnabled(t, e) && e.TcpUp?
    ensures var c, u, posted := LinkCause(cfg, t, e), LinkStep(cfg, t, e), AfterPost(cfg, t, e);
            match c
            case AttemptFails(error) => u == Fail(posted, error)
            case Established(key) => key == None && u == Establish(t)
            case _ => c == Routine && u == posted.(phase := Negotiating(e.nonce))
  {
    if Negotiates(t.version) {
      EmitIsPosted(cfg, t, e);
    }
  }

  lemma NegotiatedByCause(cfg: Config, t: Task, e: LinkEvent)
    requires Keys(cfg, t) && LinkEnabled(t, e) && e.Negotiated?
    ensures var c, u, posted := LinkCause(cfg, t, e), LinkStep(cfg, t, e), AfterPost(cfg, t, e);
            match c
            case AttemptFails(error) => u == Fail(posted, error)
            case Established(key) => key.Some? && u == Establish(Agree(posted, e.reply, key.value))
            case _ => c == Ends(Dropped) && u == Exit(t)
  {
    if ConclusionOf(cfg, t, e.reply).Ok? {
      EmitIsPosted(cfg, t, e);
    }
  }

  lemma SentByCause(cfg: Config, t: Task, e: LinkEvent)
    requires Keys(cfg, t) && LinkEnabled(t, e) && e.Sent?
    ensures var c, u, posted := LinkCause(cfg, t, e), LinkStep(cfg, t, e), AfterPost(cfg, t, e);
            match c
            case Answers(how) => u == Answered(posted, how)
            case _ => c == Routine && u == posted.(phase := Replying, air := t.air.(subscribed := |t.air.news|))
  {
    EmitIsPosted(cfg, t, e);
  }

  lemma HeartbeatByCause(cfg: Config, t: Task, e: LinkEvent)
    requires Keys(cfg, t) && LinkEnabled(t, e) && e.Heartbeat?
    ensures var c, u, posted := LinkCause(cfg, t, e), LinkStep(cfg, t, e), AfterPost(cfg, t, e);
            match c
            case ConnectionLost(error) => u == Lose(posted, error)
            case _ => c == Routine && u == posted
  {
    EmitIsPosted(cfg, t, e);
  }

  lemma LookByCause(cfg: Config, t: Task, e: LinkEvent)
    requires LinkEnabled(t, e) && e.LookForReply?
    ensures var c, u := LinkCause(cfg, t, e), LinkStep(cfg, t, e);
            match c
            case Answers(how) => u == Answered(t, how)
            case _ => c == Routine && u == t
  {
  }

  // ---------------------------------------------------------------- proofs, cause by cause

  lemma DrainSettles(l: Ledger, how: Resolution)
    ensures SettledBetween(l.settled, Drain(l, how).settled, Requests(l.queue), how)
  {
  }

  lemma DropAllSettles(l: Ledger)
    ensures SettledBetween(l.settled, DropAll(l).settled,
                           (if l.hand.Some? then [l.hand.value] else []) + Requests(l.queue), Dropped)
  {
  }

  /** Once the queue has been refused there is nothing left to drop. */
  lemma RefusalSettles(l: Ledger, how: Resolution)
    requires l.hand.None?
    ensures SettledBetween(l.settled, DropAll(Drain(l, how)).settled, Requests(l.queue), how)
    ensures DropAll(Drain(l, how)) == Drain(l, how)
  {
    DrainSettles(l, how);
    assert SettleAll([], Dropped) == [];
  }

  lemma FailBooks(t: Task, o: Outbox, e: Event, error: Error)
    requires e.OnLink?
    ensures Booked(t, AttemptFails(error), e, Fail(t.(outbox := o), error))
  {
    DrainSettles(t.ledger, Refused(error));
  }

  lemma FailLeaves(t: Task, o: Outbox, error: Error)
    ensures var u := Fail(t.(outbox := o), error);
            && u.air == t.air && u.outbox == o && u.sessionKey == t.sessionKey && u.readerUp == t.readerUp
            && u.cancelled == t.cancelled && u.persist == t.persist && u.version == t.version
            && u.conn == (if t.conn == Connected then Disconnected else t.conn)
            && u.phase == (if t.ledger.hand.None? && t.persist then AttemptTop else OnDemand)
            && u.tally.history == t.tally.history + if t.ledger.hand.None? && t.persist then [Failed] else []
  {
  }

  /** An attempt fails, after the frame has been handed to the socket if the step packs one. */
  lemma FailIsConducted(cfg: Config, t: Task, packs: bool, e: Event, error: Error)
    requires e.OnLink? && (e.link.ConnectFailed? || e.link.TcpUp? || e.link.Negotiated?)
    ensures ConductedAs(cfg, t, AttemptFails(error), packs, e, Fail(t.(outbox := Posted(cfg, t, packs, e)), error))
  {
    FailBooks(t, Posted(cfg, t, packs, e), e, error);
    FailLeaves(t, Posted(cfg, t, packs, e), error);
  }

  lemma LossIsConducted(cfg: Config, t: Task, packs: bool, e: Event, error: Error)
    requires t.ledger.hand.None? && e.OnLink? && (e.link.Heartbeat? || e.link.ReaderFailed?)
    ensures ConductedAs(cfg, t, ConnectionLost(error), packs, e, Lose(t.(outbox := Posted(cfg, t, packs, e)), error))
  {
    DrainSettles(t.ledger, Refused(error));
  }

  lemma AnswerIsConducted(cfg: Config, t: Task, packs: bool, e: Event, how: Resolution)
    requires t.ledger.hand.Some? && e.OnLink?
    requires e.link.Sent? || e.link.LookForReply? || e.link.ReplyTimedOut? || e.link.ReplyMissed?
    ensures ConductedAs(cfg, t, Answers(how), packs, e, Answered(t.(outbox := Posted(cfg, t, packs, e)), how))
  {
  }

  /** No session key is to be agreed: the connection stands. */
  lemma ConnectionIsConducted(cfg: Config, t: Task, e: Event)
    requires e.OnLink? && e.link.TcpUp? && t.phase == Connecting
    ensures ConductedAs(cfg, t, Established(None), false, e, Establish(t))
  {
  }

  lemma OpeningIsConducted(cfg: Config, t: Task, e: Event)
    requires e.OnLink? && e.link.TcpUp? && t.phase == Connecting
    ensures ConductedAs(cfg, t, Routine, true, e,
                        t.(outbox := Posted(cfg, t, true, e), phase := Negotiating(e.link.nonce)))
  {
  }

  lemma TcpUpIsConducted(cfg: Config, t: Task, e: LinkEvent)
    requires Keys(cfg, t) && LinkEnabled(t, e) && e.TcpUp?
    ensures Conducted(cfg, t, OnLink(e), LinkStep(cfg, t, e))
  {
    TcpUpByCause(cfg, t, e);
    match LinkCause(cfg, t, e)
    case AttemptFails(error) => FailIsConducted(cfg, t, true, OnLink(e), error);
    case Established(_) => ConnectionIsConducted(cfg, t, OnLink(e));
    case _ => OpeningIsConducted(cfg, t, OnLink(e));
  }

  lemma AgreementIsConducted(cfg: Config, t: Task, packs: bool, e: Event, key: bytes)
    requires t.phase.Negotiating? && e.OnLink? && e.link.Negotiated?
    ensures ConductedAs(cfg, t, Established(Some(key)), packs, e,
                        Establish(Agree(t.(outbox := Posted(cfg, t, packs, e)), e.link.reply, key)))
  {
  }

  /** The connection task ends, without having packed anything. */
  lemma CrashIsConducted(cfg: Config, t: Task, e: Event)
    requires e.OnLink? && e.link.Negotiated?
    ensures ConductedAs(cfg, t, Ends(Dropped), false, e, Exit(t))
  {
    DropAllSettles(t.ledger);
  }

  lemma NegotiatedIsConducted(cfg: Config, t: Task, e: LinkEvent)
    requires Keys(cfg, t) && LinkEnabled(t, e) && e.Negotiated?
    ensures Conducted(cfg, t, OnLink(e), LinkStep(cfg, t, e))
  {
    NegotiatedByCause(cfg, t, e);
    var packs := Packs(cfg, t, OnLink(e));
    match LinkCause(cfg, t, e)
    case AttemptFails(error) => FailIsConducted(cfg, t, packs, OnLink(e), error);
    case Established(key) => AgreementIsConducted(cfg, t, packs, OnLink(e), key.value);
    case _ => CrashIsConducted(cfg, t, OnLink(e));
  }

  lemma SentIsConducted(cfg: Config, t: Task, e: LinkEvent)
    requires Accounted(t) && Keys(cfg, t) && LinkEnabled(t, e) && e.Sent?
    ensures Conducted(cfg, t, OnLink(e), LinkStep(cfg, t, e))
  {
    SentByCause(cfg, t, e);
    if LinkCause(cfg, t, e).Answers? {
      AnswerIsConducted(cfg, t, true, OnLink(e), LinkCause(cfg, t, e).how);
    }
  }

  lemma HeartbeatIsConducted(cfg: Config, t: Task, e: LinkEvent)
    requires Accounted(t) && Keys(cfg, t) && LinkEnabled(t, e) && e.Heartbeat?
    ensures Conducted(cfg, t, OnLink(e), LinkStep(cfg, t, e))
  {
    HeartbeatByCause(cfg, t, e);
    if LinkCause(cfg, t, e).ConnectionLost? {
      LossIsConducted(cfg, t, true, OnLink(e), LinkCause(cfg, t, e).error);
    }
  }

  lemma LookIsConducted(cfg: Config, t: Task, e: LinkEvent)
    requires Accounted(t) && LinkEnabled(t, e) && e.LookForReply?
    ensures Conducted(cfg, t, OnLink(e), LinkStep(cfg, t, e))
  {
    LookByCause(cfg, t, e);
    if LinkCause(cfg, t, e).Answers? {
      AnswerIsConducted(cfg, t, false, OnLink(e), LinkCause(cfg, t, e).how);
    }
  }

  lemma WordIsConducted(cfg: Config, t: Task, e: LinkEvent)
    requires LinkEnabled(t, e) && (e.Discovered? || e.MessageIn?)
    ensures ConductedAs(cfg, t, Routine, false, OnLink(e), LinkStep(cfg, t, e))
  {
  }

  lemma LinkStepIsConducted(cfg: Config, t: Task, e: LinkEvent)
    requires Accounted(t) && Keys(cfg, t) && LinkEnabled(t, e)
    ensures Conducted(cfg, t, OnLink(e), LinkStep(cfg, t, e))
  {
    match e
    case Discovered(_) => WordIsConducted(cfg, t, e);
    case MessageIn(_) => WordIsConducted(cfg, t, e);
    case ConnectFailed(error) => FailIsConducted(cfg, t, false, OnLink(e), error);
    case TcpUp(_, _) => TcpUpIsConducted(cfg, t, e);
    case Negotiated(_, _) => NegotiatedIsConducted(cfg, t, e);
    case Sent(_, _) => SentIsConducted(cfg, t, e);
    case LookForReply => LookIsConducted(cfg, t, e);
    case ReplyTimedOut => AnswerIsConducted(cfg, t, false, OnLink(e), Refused(Timeout));
    case ReplyMissed => AnswerIsConducted(cfg, t, false, OnLink(e), Refused(Offline));
    case Heartbeat(_) => HeartbeatIsConducted(cfg, t, e);
    case ReaderFailed(error) => LossIsConducted(cfg, t, false, OnLink(e), error);
  }

  /** A command that is not a request settles none. */
  lemma ControlIsNoRequest(queue: seq<Command>)
    requires queue != [] && !queue[0].Request?
    ensures Requests(queue) == Requests(queue[1..])
  {
  }

  lemma DisconnectEnds(cfg: Config, t: Task, rest: Task)
    requires LoopEnabled(t, Take) && t.ledger.queue[0] == Disconnect
    requires rest == t.(ledger := t.ledger.(queue := t.ledger.queue[1..]))
    ensures ConductedAs(cfg, t, Ends(Dropped), false, InLoop(Take), Exit(rest))
  {
    DropAllSettles(rest.ledger);
    ControlIsNoRequest(t.ledger.queue);
  }

  lemma DisconnectLoses(cfg: Config, t: Task, rest: Task)
    requires Accounted(t) && LoopEnabled(t, Take) && t.ledger.queue[0] == Disconnect && t.phase == Maintaining
    requires rest == t.(ledger := t.ledger.(queue := t.ledger.queue[1..]))
    ensures ConductedAs(cfg, t, ConnectionLost(Offline), false, InLoop(Take), Lose(rest, Offline))
  {
    DrainSettles(rest.ledger, Refused(Offline));
    ControlIsNoRequest(t.ledger.queue);
  }

  lemma ControlIsConducted(cfg: Config, t: Task)
    requires LoopEnabled(t, Take)
    requires t.ledger.queue[0] == ConnectNow || (t.ledger.queue[0] == Disconnect && t.phase == BackingOff)
    ensures ConductedAs(cfg, t, Routine, false, InLoop(Take), TakeStep(t))
  {
  }

  lemma RequestIsConducted(cfg: Config, t: Task)
    requires Accounted(t) && LoopEnabled(t, Take) && t.ledger.queue[0].Request?
    ensures ConductedAs(cfg, t, Routine, false, InLoop(Take), TakeStep(t))
  {
  }

  lemma TakeIsConducted(cfg: Config, t: Task)
    requires Accounted(t) && LoopEnabled(t, Take)
    ensures Conducted(cfg, t, InLoop(Take), TakeStep(t))
  {
    var rest := t.(ledger := t.ledger.(queue := t.ledger.queue[1..]));
    match t.ledger.queue[0]
    case Request(_) => RequestIsConducted(cfg, t);
    case ConnectNow => ControlIsConducted(cfg, t);
    case Disconnect =>
      if t.phase == OnDemand {
        DisconnectEnds(cfg, t, rest);
      } else if t.phase == Maintaining {
        DisconnectLoses(cfg, t, rest);
      } else {
        ControlIsConducted(cfg, t);
      }
  }

  /** The connection task ends, and drops what it holds. */
  lemma EndIsConducted(cfg: Config, t: Task, e: LoopEvent)
    requires e == EnterRun || e == Cancelled
    ensures ConductedAs(cfg, t, Ends(Dropped), false, InLoop(e), Exit(t))
  {
    DropAllSettles(t.ledger);
  }

  lemma CancellationIsConducted(cfg: Config, t: Task)
    ensures ConductedAs(cfg, t, Ends(Dropped), false, InLoop(CancelledInLoop),
                        Exit(t.(conn := ClosedState(t.conn), sessionKey := None)))
  {
    DropAllSettles(t.ledger);
  }

  /** The connection task ends, having refused what is queued. */
  lemma RefusalIsConducted(cfg: Config, t: Task, e: LoopEvent)
    requires t.ledger.hand.None? && (e == EnterAttempt || e == CancelledInBackoff)
    ensures ConductedAs(cfg, t, Ends(Refused(Offline)), false, InLoop(e),
                        Exit(t.(ledger := Drain(t.ledger, Refused(Offline)))))
  {
    RefusalSettles(t.ledger, Refused(Offline));
  }

  lemma RoundIsConducted(cfg: Config, t: Task, e: LoopEvent)
    requires LoopEnabled(t, e) && t.conn != Stopped
    requires e == StaggerOver || e == EnterRun || e == EnterAttempt || e == BackoffOver
    ensures ConductedAs(cfg, t, Routine, false, InLoop(e), LoopStep(t, e))
  {
  }

  lemma LoopStepIsConducted(cfg: Config, t: Task, e: LoopEvent)
    requires Accounted(t) && LoopEnabled(t, e)
    ensures Conducted(cfg, t, InLoop(e), LoopStep(t, e))
  {
    match e
    case Take => TakeIsConducted(cfg, t);
    case EnterRun =>
      if t.conn == Stopped {
        EndIsConducted(cfg, t, e);
      } else {
        RoundIsConducted(cfg, t, e);
      }
    case EnterAttempt =>
      if t.conn == Stopped {
        RefusalIsConducted(cfg, t, e);
      } else {
        RoundIsConducted(cfg, t, e);
      }
    case Cancelled => EndIsConducted(cfg, t, e);
    case CancelledInBackoff => RefusalIsConducted(cfg, t, e);
    case CancelledInLoop => CancellationIsConducted(cfg, t);
    case _ =>
  }

  lemma CallerStepIsConducted(cfg: Config, t: Task, e: CallerEvent)
    requires CallerEnabled(t, e)
    ensures Conducted(cfg, t, ByCaller(e), CallerStep(t, e))
  {
  }

  /**
    Every step of every kind: its cause, read off the event and the state before it, decides what is recorded, which
    requests are settled and how, what becomes of the connection, where the connection task goes, and what is sent.
   */
  lemma StepIsConducted(cfg: Config, t: Task, e: Event)
    requires Accounted(t) && Keys(cfg, t) && Enabled(t, e)
    ensures Conducted(cfg, t, e, Step(cfg, t, e))
  {
    match e
    case ByCaller(c) => CallerStepIsConducted(cfg, t, c);
    case InLoop(l) => LoopStepIsConducted(cfg, t, l);
    case OnLink(l) => LinkStepIsConducted(cfg, t, l);
  }

  // ---------------------------------------------------------------- standing connections

  /**
    The device counts as connected only while the connection task talks, or as a leftover of one that was cancelled.
   */
  predicate Standing(t: Task) {
    t.conn == Connected ==> Talking(t.phase) || t.phase == Exited
  }

  lemma StepKeepsStanding(cfg: Config, t: Task, e: Event)
    requires Accounted(t) && Keys(cfg, t) && Standing(t) && Enabled(t, e)
    ensures Standing(Step(cfg, t, e))
  {
    StepIsConducted(cfg, t, e);
  }

  /** No more than 64 commands are ever queued. */
  predicate Roomy(t: Task) {
    |t.ledger.queue| <= 64
  }

  lemma StepKeepsRoom(cfg: Config, t: Task, e: Event)
    requires Accounted(t) && Keys(cfg, t) && Roomy(t) && Enabled(t, e)
    ensures Roomy(Step(cfg, t, e))
  {
    StepIsConducted(cfg, t, e);
  }

  // ---------------------------------------------------------------- numbers without gaps

  /** The numbers of the frames of one connection follow each other without a gap. */
  predicate Gapless(sent: seq<Frame>) {
    forall i | 0 < i < |sent| :: sent[i].attempt == sent[i - 1].attempt ==> sent[i].ordinal == sent[i - 1].ordinal + 1
  }

  /** A connection that no request asked for begins with the number 1. */
  predicate FromOne(t: Task) {
    t.phase == BackingOff || (t.phase == Connecting && t.ledger.hand.None?) ==> t.outbox.seqno == 1
  }

  /** Only a local key of 16 bytes leads to a session key. */
  predicate Rooted(cfg: Config, t: Task) {
    t.sessionKey.Some? ==> |cfg.localKey| == 16
  }

  predicate Open(p: Phase) {
    p.Negotiating? || Talking(p)
  }

  /** No frame of the connection that is being made has been sent; on an open one, the next number follows the last. */
  predicate InLine(key: bytes, o: Outbox, p: Phase) {
    o.sent != [] ==>
      && |key| == 16
      && o.sent[|o.sent| - 1].attempt <= o.attempt
      && (p == Connecting ==> o.sent[|o.sent| - 1].attempt < o.attempt)
      && (Open(p) && o.sent[|o.sent| - 1].attempt == o.attempt ==> o.seqno == o.sent[|o.sent| - 1].ordinal + 1)
  }

  lemma StepKeepsFromOne(cfg: Config, t: Task, e: Event)
    requires Accounted(t) && Keys(cfg, t) && Enabled(t, e)
    ensures FromOne(t) ==> FromOne(Step(cfg, t, e))
    ensures Rooted(cfg, t) ==> Rooted(cfg, Step(cfg, t, e))
  {
    StepIsConducted(cfg, t, e);
  }

  /** A new connection begins with 1 exactly if it is not made on demand, or nothing was packed in this round so far. */
  lemma StartsAtOneExactly(cfg: Config, t: Task, e: Event)
    requires Accounted(t) && Keys(cfg, t) && FromOne(t) && Enabled(t, e)
    requires t.phase != Connecting && Step(cfg, t, e).phase == Connecting
    ensures Step(cfg, t, e).outbox.seqno == 1 <==> t.phase != OnDemand || t.outbox.seqno == 1
  {
    StepIsConducted(cfg, t, e);
  }

  /** How a step that sends nothing moves on. */
  lemma QuietStep(cfg: Config, t: Task, e: Event, u: Task)
    requires Accounted(t) && Keys(cfg, t) && Enabled(t, e) && Conducted(cfg, t, e, u)
    requires !Packs(cfg, t, e)
    ensures u.outbox.sent == t.outbox.sent && (Open(u.phase) ==> u.outbox.seqno == t.outbox.seqno)
    ensures Open(u.phase) ==> Open(t.phase) || t.phase == Connecting
  {
  }

  lemma PackingStep(cfg: Config, t: Task, e: Event, u: Task)
    requires Accounted(t) && Keys(cfg, t) && Enabled(t, e) && Conducted(cfg, t, e, u)
    requires Packs(cfg, t, e)
    ensures u.outbox.attempt == t.outbox.attempt && u.outbox.seqno == t.outbox.seqno + 1
    ensures Open(t.phase) || t.phase == Connecting
    ensures u.phase != Connecting
    ensures if Keyless(cfg, t) then u.outbox.sent == t.outbox.sent
            else u.outbox.sent == t.outbox.sent + [FrameOf(cfg, t, e)]
  {
  }

  lemma StepKeepsInLine(cfg: Config, t: Task, e: Event)
    requires Accounted(t) && Keys(cfg, t) && Rooted(cfg, t) && Enabled(t, e)
    requires InLine(cfg.localKey, t.outbox, t.phase) && Gapless(t.outbox.sent)
    ensures var u := Step(cfg, t, e);
            InLine(cfg.localKey, u.outbox, u.phase) && Gapless(u.outbox.sent)
  {
    var u := Step(cfg, t, e);
    StepIsConducted(cfg, t, e);
    if Packs(cfg, t, e) {
      PackingStep(cfg, t, e, u);
    } else {
      QuietStep(cfg, t, e, u);
    }
  }

  /** What the steps keep about connections and numbers. */
  predicate Orderly(cfg: Config, t: Task) {
    && Standing(t) && Roomy(t) && FromOne(t) && Rooted(cfg, t)
    && InLine(cfg.localKey, t.outbox, t.phase) && Gapless(t.outbox.sent)
  }

  lemma StepKeepsOrderly(cfg: Config, t: Task, e: Event)
    requires Accounted(t) && Keys(cfg, t) && Orderly(cfg, t) && Enabled(t, e)
    ensures Orderly(cfg, Step(cfg, t, e))
  {
    StepKeepsStanding(cfg, t, e);
    StepKeepsRoom(cfg, t, e);
    StepKeepsFromOne(cfg, t, e);
    StepKeepsInLine(cfg, t, e);
  }

  // ---------------------------------------------------------------- logs

  /** What steps add to the four records that only grow. */
  datatype Log = Log(history: seq<Occurrence>, news: seq<News>, settled: seq<Settled>, sent: seq<Frame>)
  {
    function Then(next: Log): Log {
      Log(history + next.history, news + next.news, settled + next.settled, sent + next.sent)
    }
  }

  /** The records of the connection task. */
  function RecordsOf(t: Task): Log {
    Log(t.tally.history, t.air.news, t.ledger.settled, t.outbox.sent)
  }

  /** What one step adds to them. */
  function StepLog(cfg: Config, t: Task, e: Event): Log
    requires Enabled(t, e)
  {
    var c := CauseOf(cfg, t, e);
    Log(Occurs(t, c, e), Broadcasts(e), SettleAll(Finished(t, c, e), Verdict(c, e)),
        if Packs(cfg, t, e) && !Keyless(cfg, t) then [FrameOf(cfg, t, e)] else [])
  }

  /** The log of a run, event by event. */
  ghost function RunLog(cfg: Config, t: Task, events: seq<Event>): Log
    requires Legal(cfg, t, events)
    decreases |events|
  {
    if events == [] then Log([], [], [], [])
    else StepLog(cfg, t, events[0]).Then(RunLog(cfg, Step(cfg, t, events[0]), events[1..]))
  }

  lemma SettledIsAppended(before: seq<Settled>, after: seq<Settled>, ids: seq<nat>, how: Resolution)
    requires SettledBetween(before, after, ids, how)
    ensures after == before + SettleAll(ids, how)
  {
  }

  lemma StepIsLogged(cfg: Config, t: Task, e: Event)
    requires Accounted(t) && Keys(cfg, t) && Enabled(t, e)
    ensures RecordsOf(Step(cfg, t, e)) == RecordsOf(t).Then(StepLog(cfg, t, e))
  {
    StepIsConducted(cfg, t, e);
    var c := CauseOf(cfg, t, e);
    SettledIsAppended(t.ledger.settled, Step(cfg, t, e).ledger.settled, Finished(t, c, e), Verdict(c, e));
  }

  lemma LogsJoin(start: Log, first: Log, middle: Log, rest: Log, end: Log)
    requires middle == start.Then(first) && end == middle.Then(rest)
    ensures end == start.Then(first.Then(rest))
  {
  }

  /** The first step of a run and the rest of it. */
  lemma FirstIsLogged(cfg: Config, t: Task, events: seq<Event>, u: Task)
    requires Accounted(t) && Keys(cfg, t) && Legal(cfg, t, events) && events != [] && u == Step(cfg, t, events[0])
    requires RecordsOf(Run(cfg, u, events[1..])) == RecordsOf(u).Then(RunLog(cfg, u, events[1..]))
    ensures RecordsOf(Run(cfg, t, events)) == RecordsOf(t).Then(RunLog(cfg, t, events))
  {
    StepIsLogged(cfg, t, events[0]);
    LogsJoin(RecordsOf(t), StepLog(cfg, t, events[0]), RecordsOf(u), RunLog(cfg, u, events[1..]),
             RecordsOf(Run(cfg, u, events[1..])));
  }

  lemma NothingAdds(log: Log)
    ensures Log([], [], [], []).Then(log) == log == log.Then(Log([], [], [], []))
  {
  }
}
