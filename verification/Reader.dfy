/**
  The stream reader of `src/device.rs`: the shift register that hunts for a prefix, the read of exactly
  one frame, and the decoding that may switch the device type.

  `ReadOne` and `ReadAll` say what one read and a whole connection do to the bytes that arrive;
  `Receiver` is the device object that does it byte by byte.
 */
module Reader {
  import opened Bytes
  import opened Crypto
  import opened Frames
  import opened Payloads

  /** What one read hands on: a message, or one of the two reports built by `error_helper`. */
  datatype Delivery =
    | Plain(msg: Message)
    | DevTypeReport(original: bytes)
    | PayloadReport(error: Error)

  /** What decoding depends on; `key` is the session key if there is one, else the local key. */
  datatype Link = Link(version: Version, devType: DeviceType, key: bytes)

  // ---------------------------------------------------------------- searching for a prefix

  const WINDOW := 1024

  predicate IsPrefix(word: u32) {
    word == PREFIX_55AA || word == PREFIX_6699
  }

  predicate PrefixAt(b: bytes, i: int) {
    0 <= i && i + 4 <= |b| && IsPrefix(Read32(b[i..]))
  }

  lemma PrefixShift(b: bytes, j: int)
    requires b != [] && j >= 1
    ensures PrefixAt(b, j) <==> PrefixAt(b[1..], j - 1)
  {
    if j <= |b| {
      assert b[1..][j - 1..] == b[j..];
    }
  }

  /** The earliest offset below `budget` at which a prefix stands. */
  function FindPrefix(b: bytes, budget: nat): (r: Option<nat>)
    ensures r.Some? ==> r.value < budget && PrefixAt(b, r.value) && forall j | 0 <= j < r.value :: !PrefixAt(b, j)
    ensures r.None? ==> forall j | 0 <= j < budget :: !PrefixAt(b, j)
    decreases |b|
  {
    if budget == 0 || |b| < 4 then None
    else
      assert b[0..] == b;
      if IsPrefix(Read32(b)) then Some(0)
      else
        assert forall j | 1 <= j :: PrefixAt(b, j) <==> PrefixAt(b[1..], j - 1) by {
          forall j | 1 <= j { PrefixShift(b, j); }
        }
        match FindPrefix(b[1..], budget - 1)
        case Some(i) => Some(i + 1)
        case None => None
  }

  // ---------------------------------------------------------------- decoding one packet

  /** The text "data unvalid". */
  const DATA_UNVALID: bytes := [0x64, 0x61, 0x74, 0x61, 0x20, 0x75, 0x6E, 0x76, 0x61, 0x6C, 0x69, 0x64]

  /** `unpack_and_check_dev22`: the message and the device type it leaves. */
  function Unpack22(s: Suite, link: Link, packet: bytes, header: Header): (Result<Message>, DeviceType) {
    var protocol := GetProtocol(link.version, link.devType);
    var cipher := NewCipher(link.key);
    if !cipher.Ok? then (cipher.PropagateFailure(), link.devType)
    else
      var first := Unpacked(s, packet, HmacKey(protocol, cipher.value), Some(header), Some(false));
      if first.Err? && ChecksDev22Fallback(protocol) && link.devType == AutoType then
        var second := Unpacked(s, packet, None, Some(header), Some(false));
        if second.Ok? then (second, Device22)
        else (if second.Crash? then second else first, link.devType)
      else (first, link.devType)
  }

  /** `decrypt_and_clean_payload`. */
  function Clean(s: Suite, link: Link, payload: bytes): (Result<bytes>, DeviceType) {
    var cipher := NewCipher(link.key);
    if !cipher.Ok? then (cipher.PropagateFailure(), link.devType)
    else
      var protocol := GetProtocol(link.version, if link.devType == AutoType then DefaultType else link.devType);
      var plain := DecryptPayload(s, protocol.base, payload, cipher.value);
      (plain, if plain.Ok? && ChecksDev22Fallback(protocol) && link.devType == AutoType
          && Contains(plain.value, DATA_UNVALID)
              then Device22 else link.devType)
  }

  /** `parse_and_read_body` once the packet is in memory. */
  function Decode(s: Suite, link: Link, packet: bytes, header: Header): (Result<Message>, DeviceType) {
    var (unpacked, t) := Unpack22(s, link, packet, header);
    if !unpacked.Ok? || unpacked.value.payload == [] then (unpacked, t)
    else
      var (payload, t') := Clean(s, link.(devType := t), unpacked.value.payload);
      (if payload.Ok? then Ok(unpacked.value.(payload := payload.value)) else payload.PropagateFailure(), t')
  }

  /** The outcome of a decoded packet: a read that turned the device into a Device22 says so. */
  function Report(before: DeviceType, after: DeviceType, r: Result<Message>): Result<Delivery> {
    match r
    case Ok(msg) => Ok(if before != Device22 && after == Device22 then DevTypeReport(msg.payload) else Plain(msg))
    case Err(Io) => Err(Io)
    case Err(e) => Ok(PayloadReport(e))
    case Crash => Crash
  }

  // ---------------------------------------------------------------- one read, and all of them

  datatype Outcome =
    | Delivered(delivery: Delivery, used: nat, devType: DeviceType)
    | Skipped(used: nat)
    | Broken
    | Panicked

  function HeadLen(b: bytes): (n: nat)
    requires |b| >= 4
    ensures n == 16 || n == 18
  {
    if Read32(b) == PREFIX_6699 then 18 else 16
  }

  /** The frame at the front of `b`. */
  function ReadFrame(s: Suite, link: Link, b: bytes): (o: Outcome)
    ensures o.Delivered? ==> 0 < o.used <= |b|
    ensures !o.Skipped?
  {
    if |b| < 16 || |b| < HeadLen(b) then Broken
    else
      var head := HeadLen(b);
      match HeaderOf(b[..head])
      case Err(e) => Delivered(PayloadReport(e), head, link.devType)
      case Crash => Panicked
      case Ok(header) =>
        if header.totalLength < head then Panicked
        else if |b| < header.totalLength then Broken
        else
          var (r, t) := Decode(s, link, b[..header.totalLength], header);
          match Report(link.devType, t, r)
          case Ok(d) => Delivered(d, header.totalLength, t)
          case Err(_) => Broken
          case Crash => Panicked
  }

  /** `read_and_parse_from_stream` on the bytes still to come. */
  function ReadOne(s: Suite, link: Link, b: bytes): (o: Outcome)
    ensures o.Delivered? || o.Skipped? ==> 0 < o.used <= |b|
  {
    match FindPrefix(b, WINDOW)
    case None => if |b| >= WINDOW + 4 then Skipped(WINDOW + 4) else Broken
    case Some(i) =>
      match ReadFrame(s, link, b[i..])
      case Delivered(d, used, t) => Delivered(d, i + used, t)
      case other => other
  }

  datatype Ending = Drained | BrokenOff | Aborted

  datatype Session = Session(deliveries: seq<Delivery>, devType: DeviceType, ending: Ending)

  function Prepend(d: Delivery, r: Session): Session {
    r.(deliveries := [d] + r.deliveries)
  }

  /** The reader task: reads until the stream ends, a read fails or the code panics. */
  function ReadAll(s: Suite, link: Link, b: bytes): Session
    decreases |b|
  {
    if b == [] then Session([], link.devType, Drained)
    else
      match ReadOne(s, link, b)
      case Broken => Session([], link.devType, BrokenOff)
      case Panicked => Session([], link.devType, Aborted)
      case Skipped(n) => ReadAll(s, link, b[n..])
      case Delivered(d, n, t) => Prepend(d, ReadAll(s, link.(devType := t), b[n..]))
  }

  /** What was read before, and then the rest. */
  ghost function After(log: seq<Delivery>, r: Session): Session {
    r.(deliveries := log + r.deliveries)
  }

  lemma AfterDelivery(s: Suite, link: Link, b: bytes, rest: bytes, d: Delivery, n: nat, t: DeviceType)
    requires b != [] && ReadOne(s, link, b) == Delivered(d, n, t) && b[n..] == rest
    ensures ReadAll(s, link, b) == Prepend(d, ReadAll(s, link.(devType := t), rest))
  {
  }

  lemma AfterPrepend(log: seq<Delivery>, d: Delivery, r: Session)
    ensures After(log, Prepend(d, r)) == After(log + [d], r)
  {
    assert log + ([d] + r.deliveries) == log + [d] + r.deliveries;
  }

  // ---------------------------------------------------------------- the objects

  /** The receiving half of the connection; at the end of the stream every read fails. */
  class ByteStream {
    var rest: bytes

    constructor (b: bytes)
      ensures rest == b
    {
      rest := b;
    }

    method ReadU8() returns (r: Result<byte>)
      modifies this
      ensures old(rest) == [] ==> r == Err(Io) && rest == []
      ensures old(rest) != [] ==> r == Ok(old(rest)[0]) && rest == old(rest)[1..]
    {
      if rest == [] {
        return Err(Io);
      }
      r := Ok(rest[0]);
      rest := rest[1..];
    }

    method ReadExact(n: nat) returns (r: Result<bytes>)
      modifies this
      ensures |old(rest)| < n ==> r == Err(Io) && rest == []
      ensures |old(rest)| >= n ==> r == Ok(old(rest)[..n]) && rest == old(rest)[n..]
    {
      if |rest| < n {
        rest := [];
        return Err(Io);
      }
      r := Ok(rest[..n]);
      rest := rest[n..];
    }
  }

  function Shift(register: u32, b: byte): u32 {
    (register * 256 + b) % WORD
  }

  lemma ShiftIsNextWindow(all: bytes, k: nat)
    requires k + 5 <= |all|
    ensures Shift(Read32(all[k..]), all[k + 4]) == Read32(all[k + 1..])
  {
    var low := (all[k + 1] as int * 256 + all[k + 2]) * 256 + all[k + 3];
    assert Read32(all[k..]) * 256 + all[k + 4] == all[k] * WORD + (low * 256 + all[k + 4]);
    assert Read32(all[k + 1..]) == low * 256 + all[k + 4];
  }

  /**
    `scan_for_prefix`: the shift register finds what a naive search over the bytes finds, having read
    exactly to the end of the prefix, and gives up after exactly 1028 bytes.
   */
  method ScanForPrefix(stream: ByteStream, first: byte) returns (r: Result<Option<u32>>)
    modifies stream
    ensures var all := [first] + old(stream.rest);
            match FindPrefix(all, WINDOW)
            case Some(i) => r == Ok(Some(Read32(all[i..]))) && stream.rest == all[i + 4..]
            case None => if |all| >= WINDOW + 4 then r == Ok(None) && stream.rest == all[WINDOW + 4..] else r == Err(Io)
  {
    ghost var all := [first] + stream.rest;
    var current: u32 := first;
    for i := 0 to 3
      invariant 1 + i <= |all| && stream.rest == all[1 + i..]
      invariant i == 0 ==> current == all[0]
      invariant i == 1 ==> current == all[0] as int * 256 + all[1]
      invariant i == 2 ==> current == (all[0] as int * 256 + all[1]) * 256 + all[2]
      invariant i == 3 ==> current == Read32(all)
    {
      var next :- stream.ReadU8();
      current := Shift(current, next);
    }
    assert all[0..] == all;
    for n := 0 to WINDOW
      invariant n + 4 <= |all| && stream.rest == all[n + 4..] && current == Read32(all[n..])
      invariant forall j | 0 <= j < n :: !PrefixAt(all, j)
    {
      if current == PREFIX_55AA || current == PREFIX_6699 {
        assert PrefixAt(all, n);
        return Ok(Some(current));
      }
      assert !PrefixAt(all, n);
      if stream.rest != [] {
        ShiftIsNextWindow(all, n);
      }
      var next :- stream.ReadU8();
      current := Shift(current, next);
    }
    return Ok(None);
  }

  lemma Rejoin(b: bytes, m: nat, n: nat)
    requires m <= n && m <= |b|
    ensures n <= |b| ==> b[..m] + b[m..][..n - m] == b[..n] && b[m..][n - m..] == b[n..]
  {
  }

  /** The bytes from a prefix on are the prefix written out again and the bytes behind it. */
  lemma PrefixAndRest(all: bytes, i: nat)
    requires i + 4 <= |all|
    ensures all[i..] == BE32(Read32(all[i..])) + all[i + 4..]
  {
    WrittenOfRead(all[i..][..4]);
    assert Read32(all[i..]) == Read32(all[i..][..4]);
  }

  /** The device as the reader task sees it: it owns the stream and may change its own device type. */
  class Receiver {
    const suite: Suite
    const version: Version
    const key: bytes
    const stream: ByteStream
    var devType: DeviceType

    constructor (suite: Suite, version: Version, key: bytes, stream: ByteStream, devType: DeviceType)
      ensures this.suite == suite && this.version == version && this.key == key
      ensures this.stream == stream && this.devType == devType
    {
      this.suite, this.version, this.key, this.stream, this.devType := suite, version, key, stream, devType;
    }

    function State(): Link
      reads this
    {
      Link(version, devType, key)
    }

    method UnpackAndCheckDev22(packet: bytes, header: Header) returns (r: Result<Message>)
      requires suite.Lawful()
      modifies this`devType
      ensures (r, devType) == Unpack22(suite, old(State()), packet, header)
    {
      var protocol := GetProtocol(version, devType);
      var cipher :- NewCipher(key);
      r := UnpackMessage(suite, packet, HmacKey(protocol, cipher), Some(header), Some(false));
      if r.Err? && ChecksDev22Fallback(protocol) && devType == AutoType {
        var second := UnpackMessage(suite, packet, None, Some(header), Some(false));
        if second.Ok? {
          devType := Device22;
          r := second;
        } else if second.Crash? {
          r := second;
        }
      }
    }

    method DecryptAndCleanPayload(payload: bytes) returns (r: Result<bytes>)
      modifies this`devType
      ensures (r, devType) == Clean(suite, old(State()), payload)
    {
      var seen := devType;
      var chosen := if seen == AutoType then DefaultType else seen;
      var cipher :- NewCipher(key);
      var protocol := GetProtocol(version, chosen);
      r := DecryptPayload(suite, protocol.base, payload, cipher);
      if r.Ok? && ChecksDev22Fallback(protocol) && seen == AutoType && Contains(r.value, DATA_UNVALID) {
        devType := Device22;
      }
    }

    /** Reads the rest of the frame whose first 16 bytes are `start`. */
    method ReadFullPacket(start: bytes) returns (r: Result<(bytes, Header)>)
      requires |start| == 16
      modifies stream
      ensures var b := start + old(stream.rest);
              var head := HeadLen(start);
              if |b| < head then r == Err(Io)
              else match HeaderOf(b[..head])
              case Err(e) => r == Err(e) && stream.rest == b[head..]
              case Crash => true
              case Ok(h) =>
                if h.totalLength < head then r == Crash
                else if |b| < h.totalLength then r == Err(Io)
                else r == Ok((b[..h.totalLength], h)) && stream.rest == b[h.totalLength..]
    {
      ghost var b := start + stream.rest;
      var packet := start;
      if Read32(start) == PREFIX_6699 {
        var extra :- stream.ReadExact(2);
        packet := packet + extra;
      }
      assert packet == b[..|packet|] && stream.rest == b[|packet|..];
      var header :- ParseHeader(packet);
      var total := header.totalLength;
      if total < |packet| {
        return Crash;
      }
      Rejoin(b, |packet|, total);
      var body :- stream.ReadExact(total - |packet|);
      return Ok((packet + body, header));
    }

    /** `parse_and_read_body` and the outcome rules around it. */
    method ParseAndReadBody(start: bytes) returns (r: Result<Delivery>)
      requires suite.Lawful() && |start| == 16
      modifies this`devType, stream
      ensures var b := start + old(stream.rest);
              match ReadFrame(suite, old(State()), b)
              case Delivered(d, n, t) => r == Ok(d) && devType == t && stream.rest == b[n..]
              case Panicked => r == Crash
              case _ => r == Err(Io)
    {
      ghost var b := start + stream.rest;
      assert Read32(b) == Read32(start);
      var before := devType;
      var read := ReadFullPacket(start);
      if !read.Ok? {
        return if read.Crash? then Crash else if read.error == Io then Err(Io) else Ok(PayloadReport(read.error));
      }
      var (packet, header) := read.value;
      var decoded := UnpackAndCheckDev22(packet, header);
      if decoded.Ok? && decoded.value.payload != [] {
        var payload := DecryptAndCleanPayload(decoded.value.payload);
        decoded := if payload.Ok? then Ok(decoded.value.(payload := payload.value)) else payload.PropagateFailure();
      }
      r := Report(before, devType, decoded);
    }

    /** `read_and_parse_from_stream`, called with the first byte already read. */
    method ReadAndParse(first: byte) returns (r: Result<Option<Delivery>>)
      requires suite.Lawful()
      modifies this`devType, stream
      ensures var all := [first] + old(stream.rest);
              match ReadOne(suite, old(State()), all)
              case Delivered(d, n, t) => r == Ok(Some(d)) && devType == t && stream.rest == all[n..]
              case Skipped(n) => r == Ok(None) && devType == old(devType) && stream.rest == all[n..]
              case Broken => r == Err(Io)
              case Panicked => r == Crash
    {
      ghost var all := [first] + stream.rest;
      var prefix :- ScanForPrefix(stream, first);
      if prefix.None? {
        return Ok(None);
      }
      ghost var i := FindPrefix(all, WINDOW).value;
      PrefixAndRest(all, i);
      var more :- stream.ReadExact(12);
      assert all[i..] == (BE32(prefix.value) + more) + stream.rest;
      var delivery :- ParseAndReadBody(BE32(prefix.value) + more);
      return Ok(Some(delivery));
    }

    /** The reader task: one byte, then one read, until something ends it. */
    method Run() returns (log: seq<Delivery>, ending: Ending)
      requires suite.Lawful()
      modifies this`devType, stream
      ensures var session := ReadAll(suite, old(State()), old(stream.rest));
              log == session.deliveries && ending == session.ending && (ending == Drained ==>
                  devType == session.devType)
    {
      log := [];
      ghost var whole := ReadAll(suite, State(), stream.rest);
      while true
        invariant whole == After(log, ReadAll(suite, State(), stream.rest))
        decreases |stream.rest|
      {
        ghost var b := stream.rest;
        var first := stream.ReadU8();
        if !first.Ok? {
          return log, Drained;
        }
        assert [first.value] + stream.rest == b;
        ghost var link := State();
        var r := ReadAndParse(first.value);
        if r.Crash? {
          return log, Aborted;
        } else if r.Err? {
          return log, BrokenOff;
        } else if r.value.Some? {
          AfterDelivery(suite, link, b, stream.rest, r.value.value, |b| - |stream.rest|, devType);
          AfterPrepend(log, r.value.value, ReadAll(suite, State(), stream.rest));
          log := log + [r.value.value];
        }
      }
    }
  }
}
