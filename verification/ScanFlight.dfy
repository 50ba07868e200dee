/**
  Who may start a discovery loop, from `src/scanner.rs`: callers of `ensure_scan_started` and `scan_stream_instance`
  interleaved one atomic operation at a time. Times are milliseconds.
 */
module ScanFlight {
  import opened Bytes
  import opened Scanner

  /** Where a caller stands: the next shared operation it performs. */
  datatype Caller =
    | EnsureRead(force: bool)
    | EnsureCheck(force: bool, seen: Option<nat>)
    | EnsureSwap(force: bool, seen: Option<nat>)
    | EnsureWrite(force: bool, seen: Option<nat>)
    | StreamLoad
    | StreamRead
    | StreamStore(seen: Option<nat>)
    | StreamWrite(seen: Option<nat>)
    | Looping
    | Done

  /**
    A scan start: when, the gap its caller asks for since the last scan, the last scan time as its caller read it, and
    as it is when the scan starts.
   */
  datatype Start = Start(time: nat, gap: nat, seen: Option<nat>, since: Option<nat>)

  datatype Flight = Flight(active: bool, last: Option<nat>, now: nat, callers: map<nat, Caller>, starts: seq<Start>)

  const Idle := Flight(false, None, 0, map[], [])

  datatype Event = Arrive(id: nat, stream: bool, force: bool) | Act(id: nat) | Tick(millis: nat)

  predicate Enabled(s: Flight, e: Event) {
    match e
    case Arrive(id, _, _) => id !in s.callers
    case Act(id) => id in s.callers && s.callers[id] != Done
    case Tick(_) => true
  }

  function Begin(s: Flight, id: nat, gap: nat, seen: Option<nat>): Flight {
    s.(last := Some(s.now), callers := s.callers[id := Looping], starts := s.starts + [Start(s.now, gap, seen, s.last)])
  }

  function Move(s: Flight, id: nat, c: Caller): Flight {
    s.(callers := s.callers[id := c])
  }

  /** One shared operation of caller `id`. */
  function ActStep(s: Flight, id: nat): Flight
    requires Enabled(s, Act(id))
  {
    match s.callers[id]
    case EnsureRead(force) => Move(s, id, EnsureCheck(force, s.last))
    case EnsureCheck(force, seen) => Move(s, id, if Waited(s.now, seen, Gap(force)) then EnsureSwap(force, seen)
        else Done)
    case EnsureSwap(force, seen) => Move(s, id, if s.active then Done else EnsureWrite(force, seen)).(active := true)
    case EnsureWrite(force, seen) => Begin(s, id, Gap(force), seen)
    case StreamLoad => Move(s, id, if s.active then Done else StreamRead)
    case StreamRead => Move(s, id, if Waited(s.now, s.last, GLOBAL_SCAN_COOLDOWN) then StreamStore(s.last) else Done)
    case StreamStore(seen) => Move(s, id, StreamWrite(seen)).(active := true)
    case StreamWrite(seen) => Begin(s, id, GLOBAL_SCAN_COOLDOWN, seen)
    case Looping => Move(s, id, Done).(active := false)
  }

  function Step(s: Flight, e: Event): Flight
    requires Enabled(s, e)
  {
    match e
    case Arrive(id, stream, force) => Move(s, id, if stream then StreamLoad else EnsureRead(force))
    case Act(id) => ActStep(s, id)
    case Tick(millis) => s.(now := s.now + millis)
  }

  predicate Legal(s: Flight, events: seq<Event>)
    decreases |events|
  {
    events == [] || (Enabled(s, events[0]) && Legal(Step(s, events[0]), events[1..]))
  }

  function Run(s: Flight, events: seq<Event>): Flight
    requires Legal(s, events)
    decreases |events|
  {
    if events == [] then s else Run(Step(s, events[0]), events[1..])
  }

  // ---------------------------------------------------------------- single flight

  /** Between setting the flag and clearing it: about to start a loop, or in it. */
  predicate Committed(c: Caller) {
    c.EnsureWrite? || c.StreamWrite? || c.Looping?
  }

  function Busy(s: Flight): set<nat> {
    set id | id in s.callers && Committed(s.callers[id])
  }

  /** At most one caller runs a discovery loop or is about to, and the flag tells whether one does. */
  ghost predicate Single(s: Flight) {
    |Busy(s)| == if s.active then 1 else 0
  }

  /** A stream caller sets the flag although it is set already. */
  predicate Careless(s: Flight, e: Event) {
    e.Act? && e.id in s.callers && s.callers[e.id].StreamStore? && s.active
  }

  /** No caller in the run sets a flag that is set. */
  predicate Careful(s: Flight, events: seq<Event>)
    requires Legal(s, events)
    decreases |events|
  {
    events == [] || (!Careless(s, events[0]) && Careful(Step(s, events[0]), events[1..]))
  }

  /** In this state and throughout the run at most one loop is running or about to. */
  ghost predicate AlwaysAtMostOne(s: Flight, events: seq<Event>)
    requires Legal(s, events)
    decreases |events|
  {
    |Busy(s)| <= 1 && (events == [] || AlwaysAtMostOne(Step(s, events[0]), events[1..]))
  }

  function Weight(c: Caller): nat {
    if Committed(c) then 1 else 0
  }

  lemma BusyAfterMove(s: Flight, id: nat, c: Caller)
    ensures |Busy(Move(s, id, c))| == |Busy(s)| + Weight(c) - (if id in s.callers then Weight(s.callers[id]) else 0)
  {
    var rest := Busy(s) - {id};
    assert Busy(s) == if id in Busy(s) then rest + {id} else rest;
    assert Busy(Move(s, id, c)) == if Committed(c) then rest + {id} else rest;
  }

  lemma BusyAfterAct(s: Flight, id: nat)
    requires Enabled(s, Act(id))
    ensures |Busy(ActStep(s, id))| == |Busy(s)| + Weight(ActStep(s, id).callers[id]) - Weight(s.callers[id])
  {
    var next := ActStep(s, id);
    BusyAfterMove(s, id, next.callers[id]);
    assert next.callers == Move(s, id, next.callers[id]).callers;
    assert Busy(next) == Busy(Move(s, id, next.callers[id]));
  }

  lemma CarefulStepKeepsSingle(s: Flight, e: Event)
    requires Single(s) && Enabled(s, e) && !Careless(s, e)
    ensures Single(Step(s, e))
  {
    match e
    case Arrive(id, stream, force) =>
      BusyAfterMove(s, id, if stream then StreamLoad else EnsureRead(force));
    case Tick(_) =>
      assert Busy(Step(s, e)) == Busy(s);
    case Act(id) =>
      BusyAfterAct(s, id);
      if Committed(s.callers[id]) {
        assert id in Busy(s);
      }
  }

  /** The one store that is not guarded by the flag's old value starts a second loop. */
  lemma CarelessStepStartsASecond(s: Flight, e: Event)
    requires Single(s) && Enabled(s, e) && Careless(s, e)
    ensures |Busy(Step(s, e))| == 2
  {
    BusyAfterAct(s, e.id);
  }

  /**
    Over every interleaving: at most one caller is committed, running its loop or about to, at every point of the run,
    exactly when no stream caller stores the flag while it is set; and then the flag at the end tells whether one is.
   */
  lemma {:induction false} SingleFlightExactly(s: Flight, events: seq<Event>)
    requires Single(s) && Legal(s, events)
    ensures AlwaysAtMostOne(s, events) <==> Careful(s, events)
    ensures Careful(s, events) ==> Single(Run(s, events))
    decreases |events|
  {
    if events != [] {
      var next, rest := Step(s, events[0]), events[1..];
      if Careless(s, events[0]) {
        CarelessStepStartsASecond(s, events[0]);
        assert !AlwaysAtMostOne(next, rest);
      } else {
        CarefulStepKeepsSingle(s, events[0]);
        SingleFlightExactly(next, rest);
      }
    }
  }

  predicate NoStreams(s: Flight) {
    forall id | id in s.callers :: !s.callers[id].StreamLoad? && !s.callers[id].StreamRead?
        && !s.callers[id].StreamStore?
  }

  predicate OnlyEnsure(events: seq<Event>) {
    forall i | 0 <= i < |events| :: events[i].Arrive? ==> !events[i].stream
  }

  lemma {:induction false} OnlyEnsureIsCareful(s: Flight, events: seq<Event>)
    requires NoStreams(s) && Legal(s, events) && OnlyEnsure(events)
    ensures Careful(s, events)
    decreases |events|
  {
    if events != [] {
      assert !Careless(s, events[0]);
      assert NoStreams(Step(s, events[0]));
      OnlyEnsureIsCareful(Step(s, events[0]), events[1..]);
    }
  }

  /**
    `ensure_scan_started` alone is single-flight: the atomic swap admits one loop at a time, and the flag falls when it
    ends.
   */
  lemma EnsureIsSingleFlight(events: seq<Event>)
    requires Legal(Idle, events) && OnlyEnsure(events)
    ensures AlwaysAtMostOne(Idle, events) && Single(Run(Idle, events))
  {
    assert Busy(Idle) == {};
    OnlyEnsureIsCareful(Idle, events);
    SingleFlightExactly(Idle, events);
  }

  // ---------------------------------------------------------------- throttling

  /** A start keeps the gap its caller asked for since every earlier start. */
  ghost predicate Spaced(starts: seq<Start>, i: int)
    requires 0 <= i < |starts|
  {
    forall j | 0 <= j < i :: starts[j].time + starts[i].gap <= starts[i].time
  }

  /** The caller has seen that the last scan it knows of is far enough back. */
  predicate Patient(c: Caller, now: nat) {
    match c
    case EnsureSwap(force, seen) => Waited(now, seen, Gap(force))
    case EnsureWrite(force, seen) => Waited(now, seen, Gap(force))
    case StreamStore(seen) => Waited(now, seen, GLOBAL_SCAN_COOLDOWN)
    case StreamWrite(seen) => Waited(now, seen, GLOBAL_SCAN_COOLDOWN)
    case _ => true
  }

  /** The time of the start before the `i`th, if there is one. */
  function Before(starts: seq<Start>, i: nat): Option<nat>
    requires i <= |starts|
  {
    if i == 0 then None else Some(starts[i - 1].time)
  }

  /**
    What a start records: it is not in the future, what it found as the last scan, and that its caller waited for what
    it read.
   */
  predicate Recorded(starts: seq<Start>, now: nat, i: int)
    requires 0 <= i < |starts|
  {
    starts[i].time <= now && starts[i].since == Before(starts, i)
        && Waited(starts[i].time, starts[i].seen, starts[i].gap)
  }

  /**
    The last scan time is that of the latest start, starts are in order, and every caller waits for what it has read.
   */
  ghost predicate Throttled(s: Flight) {
    && s.last == Before(s.starts, |s.starts|)
    && (forall i {:trigger Recorded(s.starts, s.now, i)} | 0 <= i < |s.starts| :: Recorded(s.starts, s.now, i))
    && (forall i, j | 0 <= i < j < |s.starts| :: s.starts[i].time <= s.starts[j].time)
    && (forall id | id in s.callers :: Patient(s.callers[id], s.now))
  }

  lemma BeginKeepsThrottle(s: Flight, id: nat, gap: nat, seen: Option<nat>)
    requires Throttled(s) && Waited(s.now, seen, gap)
    ensures Throttled(Begin(s, id, gap, seen))
  {
    var next := Begin(s, id, gap, seen);
    var n := |s.starts|;
    forall i | 0 <= i <= n ensures Recorded(next.starts, next.now, i) {
      if i < n {
        assert Recorded(s.starts, s.now, i);
      }
    }
    forall i | 0 <= i < n ensures next.starts[i].time <= s.now {
      assert Recorded(s.starts, s.now, i);
    }
  }

  lemma MoveKeepsThrottle(s: Flight, next: Flight, id: nat, c: Caller)
    requires Throttled(s) && Patient(c, s.now) && next == Move(s, id, c).(active := next.active)
    ensures Throttled(next)
  {
  }

  lemma ActKeepsThrottle(s: Flight, id: nat)
    requires Throttled(s) && Enabled(s, Act(id))
    ensures Throttled(ActStep(s, id))
  {
    var c, next := s.callers[id], ActStep(s, id);
    assert Patient(c, s.now);
    if c.EnsureWrite? {
      BeginKeepsThrottle(s, id, Gap(c.force), c.seen);
    } else if c.StreamWrite? {
      BeginKeepsThrottle(s, id, GLOBAL_SCAN_COOLDOWN, c.seen);
    } else {
      MoveKeepsThrottle(s, next, id, next.callers[id]);
    }
  }

  lemma StepKeepsThrottle(s: Flight, e: Event)
    requires Throttled(s) && Enabled(s, e)
    ensures Throttled(Step(s, e))
  {
    match e
    case Arrive(id, stream, force) =>
      MoveKeepsThrottle(s, Step(s, e), id, if stream then StreamLoad else EnsureRead(force));
    case Act(id) =>
      ActKeepsThrottle(s, id);
    case Tick(_) =>
      forall i | 0 <= i < |s.starts| ensures Recorded(s.starts, Step(s, e).now, i) {
        assert Recorded(s.starts, s.now, i);
      }
      forall id | id in s.callers ensures Patient(s.callers[id], Step(s, e).now) {
        assert Patient(s.callers[id], s.now);
      }
  }

  lemma {:induction false} RunKeepsThrottle(s: Flight, events: seq<Event>)
    requires Throttled(s) && Legal(s, events)
    ensures Throttled(Run(s, events))
    decreases |events|
  {
    if events != [] {
      StepKeepsThrottle(s, events[0]);
      RunKeepsThrottle(Step(s, events[0]), events[1..]);
    }
  }

  lemma SpacedSinceBefore(s: Flight, i: nat)
    requires Throttled(s) && i < |s.starts|
    ensures Spaced(s.starts, i) <==> Waited(s.starts[i].time, s.starts[i].since, s.starts[i].gap)
  {
    assert Recorded(s.starts, s.now, i);
    if i > 0 {
      assert s.starts[i - 1].time <= s.starts[i].time;
    }
  }

  /**
    Over every interleaving, streams included: a start comes 60 s (unforced) or 30 min (stream) after every earlier
    start if and only if the last scan time, read again at that moment, would still let its caller pass. So it does
    whenever no scan started since the caller read it.
   */
  lemma StartsAreSpacedExactly(events: seq<Event>, i: nat)
    requires Legal(Idle, events) && i < |Run(Idle, events).starts|
    ensures var starts := Run(Idle, events).starts;
            && (Spaced(starts, i) <==> Waited(starts[i].time, starts[i].since, starts[i].gap))
            && (starts[i].seen == starts[i].since ==> Spaced(starts, i))
  {
    RunKeepsThrottle(Idle, events);
    SpacedSinceBefore(Run(Idle, events), i);
    assert Recorded(Run(Idle, events).starts, Run(Idle, events).now, i);
  }

  predicate Together(s: Flight, a: nat, b: nat) {
    a in s.callers && b in s.callers && s.callers[a] == Looping && s.callers[b] == Looping
  }

  lemma RunOfTwo(end: Flight, rest: seq<Event>, events: seq<Event>, s: Flight)
    requires |events| == |rest| + 2 && events[2..] == rest
    requires Enabled(s, events[0]) && Enabled(Step(s, events[0]), events[1])
    requires Legal(Step(Step(s, events[0]), events[1]), rest) && Run(Step(Step(s, events[0]), events[1]), rest) == end
    ensures Legal(s, events) && Run(s, events) == end
  {
    assert events[1..][1..] == rest;
  }

  /** Two callers that have set the flag may come to run their loops at the same time. */
  lemma BothMayLoop(s: Flight, a: nat, b: nat) returns (events: seq<Event>)
    requires a != b && a in Busy(s) && b in Busy(s)
    ensures Legal(s, events) && Together(Run(s, events), a, b)
  {
    var s1 := if s.callers[a].Looping? then s else ActStep(s, a);
    var s2 := if s.callers[b].Looping? then s1 else ActStep(s1, b);
    var e1, e2 := if s.callers[a].Looping? then Tick(0) else Act(a), if s.callers[b].Looping? then Tick(0) else Act(b);
    assert Step(s, e1) == s1 && Step(s1, e2) == s2;
    events := [e1, e2];
    RunOfTwo(s2, [], events, s);
  }

  /** Two streams that have each found the flag clear and then each set it. */
  function BothSet(a: nat, b: nat): Flight {
    Flight(true, None, 0, map[a := StreamWrite(None), b := StreamWrite(None)], [])
  }

  lemma ReachBothSet(a: nat, b: nat, tail: seq<Event>, end: Flight) returns (events: seq<Event>)
    requires a != b && Legal(BothSet(a, b), tail) && Run(BothSet(a, b), tail) == end
    ensures Legal(Idle, events) && Run(Idle, events) == end
  {
    var s0 := Step(Step(Idle, Arrive(a, true, false)), Arrive(b, true, false));
    var s1 := Step(Step(s0, Act(a)), Act(b));
    var s2 := Step(Step(s1, Act(a)), Act(b));
    assert Step(Step(s2, Act(a)), Act(b)) == BothSet(a, b);
    events := [Arrive(a, true, false), Arrive(b, true, false), Act(a), Act(b), Act(a), Act(b), Act(a), Act(b)] + tail;
    RunOfTwo(end, tail, events[6..], s2);
    RunOfTwo(end, events[6..], events[4..], s1);
    RunOfTwo(end, events[4..], events[2..], s0);
    RunOfTwo(end, events[2..], events, Idle);
  }

  /** The condition is needed: a run from the start in which two streams run their loops at the same time. */
  lemma TwoStreamsMayLoop(a: nat, b: nat) returns (events: seq<Event>)
    requires a != b
    ensures Legal(Idle, events) && Together(Run(Idle, events), a, b)
  {
    assert {a, b} <= Busy(BothSet(a, b));
    var tail := BothMayLoop(BothSet(a, b), a, b);
    events := ReachBothSet(a, b, tail, Run(BothSet(a, b), tail));
  }

  /** Both callers have found the last scan long past; `a` starts, loops and ends, and then `b` starts. */
  lemma OneAfterTheOther(s: Flight, a: nat, b: nat)
    requires a != b && s == Flight(false, None, 0, map[a := EnsureSwap(false, None), b := EnsureSwap(false, None)], [])
    ensures Legal(s, [Act(a), Act(a), Act(a), Act(b), Act(b), Tick(0)])
    ensures Run(s, [Act(a), Act(a), Act(a), Act(b), Act(b), Tick(0)]).starts
            == [Start(0, SCAN_THROTTLE_INTERVAL, None, None), Start(0, SCAN_THROTTLE_INTERVAL, None, Some(0))]
  {
    var s1 := Step(Step(s, Act(a)), Act(a));
    var s2 := Step(Step(s1, Act(a)), Act(b));
    var s3 := Step(Step(s2, Act(b)), Tick(0));
    var events := [Act(a), Act(a), Act(a), Act(b), Act(b), Tick(0)];
    RunOfTwo(s3, [], events[4..], s2);
    RunOfTwo(s3, events[4..], events[2..], s1);
    RunOfTwo(s3, events[2..], events, s);
  }

  /** An unforced start may follow another at once when that one began after the time was read. */
  lemma LateReaderMayStart(a: nat, b: nat)
    requires a != b
    ensures exists events ::
              && Legal(Idle, events) && OnlyEnsure(events)
              && Run(Idle, events).starts == [Start(0, SCAN_THROTTLE_INTERVAL, None, None), Start(0,
                   SCAN_THROTTLE_INTERVAL, None, Some(0))]
  {
    var s1 := Step(Step(Idle, Arrive(a, false, false)), Arrive(b, false, false));
    var s2 := Step(Step(s1, Act(a)), Act(b));
    var s3 := Step(Step(s2, Act(a)), Act(b));
    OneAfterTheOther(s3, a, b);
    var tail := [Act(a), Act(a), Act(a), Act(b), Act(b), Tick(0)];
    var events := [Arrive(a, false, false), Arrive(b, false, false), Act(a), Act(b), Act(a), Act(b)] + tail;
    var end := Run(s3, tail);
    RunOfTwo(end, tail, events[4..], s2);
    RunOfTwo(end, events[4..], events[2..], s1);
    RunOfTwo(end, events[2..], events, Idle);
  }

  /**
    Caller `id` performs operations, at most `n`, with nobody in between, until it runs its loop or has nothing to
    start.
   */
  function Advance(s: Flight, id: nat, n: nat): Flight
    requires id in s.callers
    decreases n
  {
    if n == 0 || s.callers[id].Looping? || s.callers[id].Done? then s else Advance(ActStep(s, id), id, n - 1)
  }

  /**
    How long a caller entering with `c` leaves the last scan alone: not at all if forced, 60 s, or 30 min for a stream.
   */
  function GapOf(c: Caller): nat {
    if c == EnsureRead(true) then 0 else if c == EnsureRead(false) then 60_000 else 1_800_000
  }

  /** No scan runs, and the last start is far enough back for a caller entering with `c`. */
  predicate MayStart(s: Flight, c: Caller) {
    !s.active && (s.starts == [] || s.starts[|s.starts| - 1].time + GapOf(c) <= s.now)
  }

  lemma {:induction false} AdvanceKeepsThrottle(s: Flight, id: nat, n: nat)
    requires Throttled(s) && id in s.callers
    ensures Throttled(Advance(s, id, n)) && id in Advance(s, id, n).callers
    decreases n
  {
    if n != 0 && !s.callers[id].Looping? && !s.callers[id].Done? {
      ActKeepsThrottle(s, id);
      AdvanceKeepsThrottle(ActStep(s, id), id, n - 1);
    }
  }

  /** The state after a call of caller `id` that nobody interrupts. */
  function AfterCall(s: Flight, id: nat, gap: nat): Flight {
    if !s.active && Waited(s.now, s.last, gap) then Begin(s.(active := true), id, gap, s.last) else Move(s, id, Done)
  }

  lemma EnsureDecides(s: Flight, id: nat)
    requires id in s.callers && s.callers[id].EnsureRead?
    ensures Advance(s, id, 4) == AfterCall(s, id, GapOf(s.callers[id]))
  {
    var s1 := ActStep(s, id);
    assert Advance(s, id, 4) == Advance(s1, id, 3);
    if s1.callers[id] != Done {
      var s2 := ActStep(s1, id);
      assert Advance(s1, id, 3) == Advance(s2, id, 2);
      if s2.callers[id] != Done {
        var s3 := ActStep(s2, id);
        assert Advance(s2, id, 2) == Advance(s3, id, 1);
      }
    }
  }

  lemma StreamDecides(s: Flight, id: nat)
    requires id in s.callers && s.callers[id].StreamLoad?
    ensures Advance(s, id, 4) == AfterCall(s, id, GapOf(s.callers[id]))
  {
    var s1 := ActStep(s, id);
    assert Advance(s, id, 4) == Advance(s1, id, 3);
    if s1.callers[id] != Done {
      var s2 := ActStep(s1, id);
      assert Advance(s1, id, 3) == Advance(s2, id, 2);
      if s2.callers[id] != Done {
        var s3 := ActStep(s2, id);
        assert Advance(s2, id, 2) == Advance(s3, id, 1);
      }
    }
  }

  lemma MayStartAfterItsGap(s: Flight, c: Caller)
    requires Throttled(s)
    ensures MayStart(s, c) <==> !s.active && Waited(s.now, s.last, GapOf(c))
  {
    if |s.starts| > 0 {
      assert Recorded(s.starts, s.now, |s.starts| - 1);
    }
  }

  /**
    A call taken as one step starts a scan exactly when none runs and its gap has passed since the last start, and the
    new start keeps that gap to every earlier one; otherwise no scan starts and the flag stays as it was.
   */
  lemma UninterruptedCall(s: Flight, id: nat)
    requires Throttled(s) && id in s.callers && (s.callers[id].EnsureRead? || s.callers[id].StreamLoad?)
    ensures if MayStart(s, s.callers[id]) then
              && Advance(s, id, 4).active && Advance(s, id, 4).callers == s.callers[id := Looping]
              && Advance(s, id, 4).starts == s.starts + [Start(s.now, GapOf(s.callers[id]), s.last, s.last)]
              && Spaced(Advance(s, id, 4).starts, |s.starts|)
            else
              && Advance(s, id, 4).active == s.active && Advance(s, id, 4).callers == s.callers[id := Done]
              && Advance(s, id, 4).starts == s.starts
  {
    if s.callers[id].EnsureRead? {
      EnsureDecides(s, id);
    } else {
      StreamDecides(s, id);
    }
    MayStartAfterItsGap(s, s.callers[id]);
    if MayStart(s, s.callers[id]) {
      AdvanceKeepsThrottle(s, id, 4);
      SpacedSinceBefore(Advance(s, id, 4), |s.starts|);
    }
  }
}
