/**
  What the stream reader guarantees over a whole connection: every well-formed frame is found
  and read exactly, noise is skipped, a damaged frame harms only itself, and the device type moves once at most.
 */
module ReaderLaws {
  import opened Bytes
  import opened Crypto
  import opened Frames
  import opened FrameLaws
  import opened Payloads
  import opened Reader

  // ---------------------------------------------------------------- one step of the reader task

  lemma AfterSkip(s: Suite, link: Link, b: bytes)
    requires |b| >= 1028 && FindPrefix(b, WINDOW).None?
    ensures ReadAll(s, link, b) == ReadAll(s, link, b[1028..])
  {
    assert ReadOne(s, link, b) == Skipped(1028);
  }

  lemma WindowMod(n: nat)
    requires n >= 1028
    ensures (n - 1028) % 1028 == n % 1028
  {
  }

  // ---------------------------------------------------------------- noise in front of a frame

  /** Bytes among which no prefix stands. */
  ghost predicate Quiet(noise: bytes) {
    forall j :: !PrefixAt(noise, j)
  }

  /** The third and fourth byte of a prefix are not zero. */
  lemma ZeroIsNotPrefixEnd(b: bytes)
    requires |b| >= 4 && (b[2] == 0 || b[3] == 0)
    ensures !IsPrefix(Read32(b))
  {
    assert Read32(b) % 0x1_0000 == b[2] as int * 256 + b[3];
  }

  lemma PrefixStartsWithZeros(b: bytes)
    requires |b| >= 4 && IsPrefix(Read32(b))
    ensures b[0] == 0 && b[1] == 0
  {
  }

  lemma PrefixInFront(noise: bytes, rest: bytes, j: int)
    requires j + 4 <= |noise|
    ensures PrefixAt(noise + rest, j) <==> PrefixAt(noise, j)
  {
    if j >= 0 {
      assert Read32((noise + rest)[j..]) == Read32(noise[j..]);
    }
  }

  /** A prefix cannot begin in the noise and end in the frame that follows. */
  lemma NoPrefixStraddles(noise: bytes, frame: bytes, j: int)
    requires Quiet(noise) && PrefixAt(frame, 0) && j < |noise|
    ensures !PrefixAt(noise + frame, j)
  {
    if j + 4 <= |noise| {
      PrefixInFront(noise, frame, j);
    } else if j >= 0 {
      var all := noise + frame;
      assert frame[0..] == frame;
      PrefixStartsWithZeros(frame);
      assert all[|noise|] == 0 && all[|noise| + 1] == 0;
      var window := all[j..];
      assert window[2] == all[j + 2] && window[3] == all[j + 3];
      ZeroIsNotPrefixEnd(window);
    }
  }

  lemma FoundBehindNoise(noise: bytes, frame: bytes, budget: nat)
    requires Quiet(noise) && PrefixAt(frame, 0)
    ensures FindPrefix(noise + frame, budget) == if |noise| < budget then Some(|noise|) else None
  {
    var all := noise + frame;
    assert all[|noise|..] == frame && frame[0..] == frame;
    assert PrefixAt(all, |noise|);
    forall j | 0 <= j < |noise| ensures !PrefixAt(all, j) {
      NoPrefixStraddles(noise, frame, j);
    }
  }

  lemma QuietSuffix(noise: bytes, k: nat)
    requires Quiet(noise) && k <= |noise|
    ensures Quiet(noise[k..])
  {
    forall j ensures !PrefixAt(noise[k..], j) {
      assert !PrefixAt(noise, k + j);
      if 0 <= j && j + 4 <= |noise[k..]| {
        assert noise[k..][j..] == noise[k + j..];
      }
    }
  }

  /** A full window of noise is dropped and the search starts afresh behind it. */
  lemma WindowOfNoise(s: Suite, link: Link, noise: bytes, rest: bytes)
    requires Quiet(noise) && |noise| >= 1028
    ensures ReadAll(s, link, noise + rest) == ReadAll(s, link, noise[1028..] + rest)
  {
    var all := noise + rest;
    forall j | 0 <= j < 1024 ensures !PrefixAt(all, j) {
      PrefixInFront(noise, rest, j);
    }
    assert FindPrefix(all, WINDOW).None?;
    AfterSkip(s, link, all);
    assert all[1028..] == noise[1028..] + rest;
  }

  // ---------------------------------------------------------------- one frame

  /** A packet that carries its own length. */
  predicate Framed(packet: bytes) {
    |packet| >= 16 && |packet| >= HeadLen(packet)
    && HeaderOf(packet).Ok? && HeaderOf(packet).value.totalLength == |packet|
  }

  /** Under a version with an HMAC key, no room for the trailer that the reader is going to cut off. */
  predicate TooShort(version: Version, key: bytes, packet: bytes) {
    && |packet| >= 4 && |key| == 16 && HmacKey(GetProtocol(version, DefaultType), key).Some?
    && |packet| < if Read32(packet) == PREFIX_55AA then 36 else 22
  }

  /** Decoding of one packet: what is handed on, and the device type afterwards. */
  function Handle(s: Suite, link: Link, packet: bytes): (Result<Delivery>, DeviceType)
    requires Framed(packet)
  {
    var (r, t) := Decode(s, link, packet, HeaderOf(packet).value);
    (Report(link.devType, t, r), t)
  }

  /** The header is decided by the first 16 or 18 bytes. */
  lemma HeadDecidesHeader(b: bytes)
    requires |b| >= 16 && |b| >= HeadLen(b)
    ensures |b[..HeadLen(b)]| >= 4 && HeadLen(b[..HeadLen(b)]) == HeadLen(b)
    ensures HeaderOf(b[..HeadLen(b)]) == HeaderOf(b)
  {
    var front := b[..HeadLen(b)];
    assert Read32(front) == Read32(b);
    if HeadLen(b) == 16 {
      assert Read32(front[4..]) == Read32(b[4..]) && Read32(front[8..]) == Read32(b[8..]);
      assert Read32(front[12..]) == Read32(b[12..]);
    } else {
      assert Read32(front[6..]) == Read32(b[6..]) && Read32(front[10..]) == Read32(b[10..]);
      assert Read32(front[14..]) == Read32(b[14..]);
    }
  }

  lemma HeaderIsInTheHead(packet: bytes, rest: bytes)
    requires Framed(packet)
    ensures HeadLen(packet + rest) == HeadLen(packet)
    ensures HeaderOf((packet + rest)[..HeadLen(packet)]) == HeaderOf(packet)
  {
    assert Read32(packet) == Read32(packet + rest);
    assert (packet + rest)[..HeadLen(packet)] == packet[..HeadLen(packet)];
    HeadDecidesHeader(packet);
  }

  lemma UnpackOutcome(s: Suite, packet: bytes, key: Option<bytes>)
    requires Framed(packet)
    ensures var r := Unpacked(s, packet, key, Some(HeaderOf(packet).value), Some(false));
            && r != Err(Io)
            && (r.Crash? <==> key.Some? && |packet| < if Read32(packet) == PREFIX_55AA then 36 else 22)
  {
  }

  lemma Unpack22Outcome(s: Suite, link: Link, packet: bytes)
    requires Framed(packet) && |link.key| == 16
    ensures var r := Unpack22(s, link, packet, HeaderOf(packet).value).0;
            r != Err(Io) && (r.Crash? <==> TooShort(link.version, link.key, packet))
  {
    UnpackOutcome(s, packet, HmacKey(GetProtocol(link.version, link.devType), link.key));
    UnpackOutcome(s, packet, None);
  }

  lemma CleanIsQuietAboutIo(s: Suite, link: Link, payload: bytes)
    ensures var r := Clean(s, link, payload).0; !r.Crash? && r != Err(Io)
  {
  }

  /**
    A framed packet is always answered with a delivery, whatever its body holds, unless it is too short, and then the
    code panics.
   */
  lemma HandleIsExact(s: Suite, link: Link, packet: bytes)
    requires s.Lawful() && Framed(packet)
    ensures Handle(s, link, packet).0.Crash? <==> TooShort(link.version, link.key, packet)
    ensures Handle(s, link, packet).0.Ok? <==> !TooShort(link.version, link.key, packet)
  {
    if |link.key| == 16 {
      Unpack22Outcome(s, link, packet);
      var (r, t) := Unpack22(s, link, packet, HeaderOf(packet).value);
      if r.Ok? {
        CleanIsQuietAboutIo(s, link.(devType := t), r.value.payload);
      }
    }
  }

  /** The read of a frame consumes the frame and nothing else. */
  lemma FrameIsReadExactly(s: Suite, link: Link, packet: bytes, rest: bytes)
    requires s.Lawful() && Framed(packet) && !TooShort(link.version, link.key, packet)
    ensures ReadFrame(s, link, packet + rest)
            == Delivered(Handle(s, link, packet).0.value, |packet|, Handle(s, link, packet).1)
  {
    HandleIsExact(s, link, packet);
    HeaderIsInTheHead(packet, rest);
    assert (packet + rest)[..|packet|] == packet;
  }

  lemma PrefixOfFrame(packet: bytes, rest: bytes)
    requires Framed(packet)
    ensures PrefixAt(packet + rest, 0)
  {
    assert (packet + rest)[0..] == packet + rest;
    assert Read32(packet + rest) == Read32(packet);
  }

  lemma FoundFrame(s: Suite, link: Link, b: bytes, i: nat, d: Delivery, n: nat, t: DeviceType)
    requires FindPrefix(b, WINDOW) == Some(i) && ReadFrame(s, link, b[i..]) == Delivered(d, n, t)
    ensures ReadOne(s, link, b) == Delivered(d, i + n, t)
  {
  }

  lemma OneReadBehindNoise(s: Suite, link: Link, noise: bytes, packet: bytes, rest: bytes, d: Delivery, t: DeviceType)
    requires Quiet(noise) && Framed(packet) && |noise| < 1024
    requires ReadFrame(s, link, packet + rest) == Delivered(d, |packet|, t)
    ensures ReadOne(s, link, noise + (packet + rest)) == Delivered(d, |noise| + |packet|, t)
  {
    PrefixOfFrame(packet, rest);
    FoundBehindNoise(noise, packet + rest, WINDOW);
    assert (noise + (packet + rest))[|noise|..] == packet + rest;
    FoundFrame(s, link, noise + (packet + rest), |noise|, d, |packet|, t);
  }

  lemma Behind(noise: bytes, packet: bytes, rest: bytes)
    ensures (noise + (packet + rest))[|noise| + |packet|..] == rest
  {
  }

  lemma FrameBehindShortNoise(s: Suite, link: Link, noise: bytes, packet: bytes, rest: bytes, d: Delivery,
          t: DeviceType)
    requires ReadOne(s, link, noise + (packet + rest)) == Delivered(d, |noise| + |packet|, t) && packet != []
    ensures ReadAll(s, link, noise + (packet + rest)) == Prepend(d, ReadAll(s, link.(devType := t), rest))
  {
    var b := noise + (packet + rest);
    Behind(noise, packet, rest);
    AfterDelivery(s, link, b, rest, d, |noise| + |packet|, t);
  }

  /**
    Noise of any length followed by a frame: the next delivery is that frame and reading continues right behind it,
    provided the noise does not end in the last four places of a 1028-byte window.
   */
  lemma {:induction false} FrameBehindNoise(s: Suite, link: Link, noise: bytes, packet: bytes, rest: bytes)
    requires s.Lawful() && Quiet(noise) && Framed(packet) && !TooShort(link.version, link.key, packet)
    requires |noise| % 1028 < 1024
    ensures Handle(s, link, packet).0.Ok?
    ensures var (d, t) := Handle(s, link, packet);
            ReadAll(s, link, noise + (packet + rest)) == Prepend(d.value, ReadAll(s, link.(devType := t), rest))
    decreases |noise|
  {
    HandleIsExact(s, link, packet);
    if |noise| >= 1028 {
      WindowMod(|noise|);
      WindowOfNoise(s, link, noise, packet + rest);
      QuietSuffix(noise, 1028);
      FrameBehindNoise(s, link, noise[1028..], packet, rest);
    } else {
      FrameIsReadExactly(s, link, packet, rest);
      var (d, t) := Handle(s, link, packet);
      OneReadBehindNoise(s, link, noise, packet, rest, d.value, t);
      FrameBehindShortNoise(s, link, noise, packet, rest, d.value, t);
    }
  }

  lemma WindowReachesIntoFrame(s: Suite, link: Link, noise: bytes, frame: bytes)
    requires Quiet(noise) && PrefixAt(frame, 0) && 1024 <= |noise| < 1028
    ensures ReadAll(s, link, noise + frame) == ReadAll(s, link, frame[1028 - |noise|..])
  {
    FoundBehindNoise(noise, frame, WINDOW);
    AfterSkip(s, link, noise + frame);
    assert (noise + frame)[1028..] == frame[1028 - |noise|..];
  }

  /**
    The condition is needed: otherwise the search swallows the first bytes of whatever frame follows, and with them
    part of its prefix, and reading goes on inside the frame.
   */
  lemma {:induction false} FrameSwallowedByWindow(s: Suite, link: Link, noise: bytes, frame: bytes, lost: nat)
    requires Quiet(noise) && PrefixAt(frame, 0) && |noise| % 1028 >= 1024 && lost == 1028 - |noise| % 1028
    ensures 1 <= lost <= 4 && ReadAll(s, link, noise + frame) == ReadAll(s, link, frame[lost..])
    decreases |noise|
  {
    if |noise| >= 1028 {
      WindowMod(|noise|);
      WindowOfNoise(s, link, noise, frame);
      QuietSuffix(noise, 1028);
      FrameSwallowedByWindow(s, link, noise[1028..], frame, lost);
      assert ReadAll(s, link, noise + frame) == ReadAll(s, link, frame[lost..]);
    } else {
      assert lost == 1028 - |noise|;
      WindowReachesIntoFrame(s, link, noise, frame);
      assert ReadAll(s, link, noise + frame) == ReadAll(s, link, frame[lost..]);
    }
  }

  /** Noise at the end of the stream delivers nothing. */
  lemma {:induction false} TrailingNoise(s: Suite, link: Link, noise: bytes)
    requires Quiet(noise)
    ensures ReadAll(s, link, noise) == Session([], link.devType, if |noise| % 1028 == 0 then Drained else BrokenOff)
    decreases |noise|
  {
    if |noise| >= 1028 {
      WindowMod(|noise|);
      assert noise + [] == noise && noise[1028..] + [] == noise[1028..];
      WindowOfNoise(s, link, noise, []);
      QuietSuffix(noise, 1028);
      TrailingNoise(s, link, noise[1028..]);
    } else if noise != [] {
      assert FindPrefix(noise, WINDOW).None?;
      assert ReadOne(s, link, noise) == Broken;
    }
  }

  // ---------------------------------------------------------------- whole streams

  datatype Segment = Segment(noise: bytes, packet: bytes)

  function Wire(segments: seq<Segment>, tail: bytes): bytes {
    if segments == [] then tail
    else segments[0].noise + (segments[0].packet + Wire(segments[1..], tail))
  }

  ghost predicate Readable(version: Version, key: bytes, segment: Segment) {
    Quiet(segment.noise) && |segment.noise| % 1028 < 1024 && Framed(segment.packet)
        && !TooShort(version, key, segment.packet)
  }

  ghost predicate AllReadable(version: Version, key: bytes, segments: seq<Segment>) {
    forall i | 0 <= i < |segments| :: Readable(version, key, segments[i])
  }

  /** The deliveries of the packets taken one by one, each decoded under the device type its predecessors left. */
  ghost function Decoded(s: Suite, link: Link, segments: seq<Segment>): (r: Session)
    requires s.Lawful() && AllReadable(link.version, link.key, segments)
    ensures |r.deliveries| == |segments|
    decreases |segments|
  {
    if segments == [] then Session([], link.devType, Drained)
    else
      var (d, t) := Handle(s, link, segments[0].packet);
      HandleIsExact(s, link, segments[0].packet);
      Prepend(d.value, Decoded(s, link.(devType := t), segments[1..]))
  }

  lemma DecodedCons(s: Suite, link: Link, segments: seq<Segment>, d: Delivery, t: DeviceType)
    requires s.Lawful() && AllReadable(link.version, link.key, segments) && segments != []
    requires Handle(s, link, segments[0].packet) == (Ok(d), t)
    ensures Decoded(s, link, segments) == Prepend(d, Decoded(s, link.(devType := t), segments[1..]))
  {
  }

  function Then(front: Session, back: Session): Session {
    back.(deliveries := front.deliveries + back.deliveries)
  }

  lemma ThenAfterPrepend(d: Delivery, front: Session, back: Session)
    ensures Then(Prepend(d, front), back) == Prepend(d, Then(front, back))
  {
    assert [d] + (front.deliveries + back.deliveries) == ([d] + front.deliveries) + back.deliveries;
  }

  lemma ReadableConcat(version: Version, key: bytes, a: seq<Segment>, b: seq<Segment>)
    requires AllReadable(version, key, a) && AllReadable(version, key, b)
    ensures AllReadable(version, key, a + b)
  {
  }

  /** The first packet's delivery, and the device type it leaves, do not depend on what follows. */
  lemma DecodedFirst(s: Suite, link: Link, a: seq<Segment>, b: seq<Segment>) returns (d: Delivery, t: DeviceType)
    requires s.Lawful() && a != [] && AllReadable(link.version, link.key, a) && AllReadable(link.version, link.key, b)
    requires AllReadable(link.version, link.key, a + b)
    ensures AllReadable(link.version, link.key, a[1..]) && AllReadable(link.version, link.key, a[1..] + b)
    ensures Decoded(s, link, a) == Prepend(d, Decoded(s, link.(devType := t), a[1..]))
    ensures Decoded(s, link, a + b) == Prepend(d, Decoded(s, link.(devType := t), a[1..] + b))
  {
    HandleIsExact(s, link, a[0].packet);
    var (r, u) := Handle(s, link, a[0].packet);
    d, t := r.value, u;
    ReadableConcat(link.version, link.key, a[1..], b);
    assert (a + b)[0] == a[0] && (a + b)[1..] == a[1..] + b;
    DecodedCons(s, link, a, d, t);
    DecodedCons(s, link, a + b, d, t);
  }

  /** Decoding goes on where it was left. */
  lemma {:induction false} DecodedConcat(s: Suite, link: Link, a: seq<Segment>, b: seq<Segment>)
    requires s.Lawful() && AllReadable(link.version, link.key, a) && AllReadable(link.version, link.key, b)
    requires AllReadable(link.version, link.key, a + b)
    ensures Decoded(s, link, a + b)
            == Then(Decoded(s, link, a), Decoded(s, link.(devType := Decoded(s, link, a).devType), b))
    decreases |a|
  {
    if a == [] {
      assert a + b == b;
    } else {
      var d, t := DecodedFirst(s, link, a, b);
      DecodedConcat(s, link.(devType := t), a[1..], b);
      var front := Decoded(s, link.(devType := t), a[1..]);
      ThenAfterPrepend(d, front, Decoded(s, link.(devType := front.devType), b));
    }
  }

  /**
    A stream of well-formed frames, in noise, is read as exactly those frames in order, and reading goes on with
    whatever follows.
   */
  lemma {:induction false} ReadingGoesOn(s: Suite, link: Link, segments: seq<Segment>, rest: bytes)
    requires s.Lawful() && AllReadable(link.version, link.key, segments)
    ensures ReadAll(s, link, Wire(segments, rest))
            == Then(Decoded(s, link, segments), ReadAll(s, link.(devType := Decoded(s, link, segments).devType), rest))
    decreases |segments|
  {
    if segments == [] {
      assert [] + ReadAll(s, link, rest).deliveries == ReadAll(s, link, rest).deliveries;
    } else {
      assert Readable(link.version, link.key, segments[0]);
      HandleIsExact(s, link, segments[0].packet);
      var (d, t) := Handle(s, link, segments[0].packet);
      FrameBehindNoise(s, link, segments[0].noise, segments[0].packet, Wire(segments[1..], rest));
      ReadingGoesOn(s, link.(devType := t), segments[1..], rest);
      DecodedCons(s, link, segments, d.value, t);
      var front := Decoded(s, link.(devType := t), segments[1..]);
      ThenAfterPrepend(d.value, front, ReadAll(s, link.(devType := front.devType), rest));
    }
  }

  /**
    Any list of well-formed frames, in noise, is read as exactly those frames, in order, and the stream is used up:
    one delivery per packet, none for the noise, whatever the packets hold.
   */
  lemma StreamIsDecodedFrameByFrame(s: Suite, link: Link, segments: seq<Segment>, tail: bytes)
    requires s.Lawful() && AllReadable(link.version, link.key, segments) && Quiet(tail)
    ensures ReadAll(s, link, Wire(segments, tail))
            == Decoded(s, link, segments).(ending := if |tail| % 1028 == 0 then Drained else BrokenOff)
  {
    var front := Decoded(s, link, segments);
    ReadingGoesOn(s, link, segments, tail);
    TrailingNoise(s, link.(devType := front.devType), tail);
    assert front.deliveries + [] == front.deliveries;
  }

  // ---------------------------------------------------------------- genuine frames

  /** A message a device sends, behind some noise. */
  datatype Sent = Sent(noise: bytes, seqno: u32, cmd: u32, rc: u32, payload: bytes, iv: bytes)

  /** The conditions under which a message survives packing and the way. */
  ghost predicate Sendable(s: Suite, link: Link, m: Sent)
    requires s.Lawful()
  {
    var p := GetProtocol(link.version, link.devType);
    && Quiet(m.noise) && |m.noise| % 1028 < 1024
    && |link.key| == 16 && |m.iv| == 12
    && |PackPayload(s, p.base, m.payload, m.cmd, link.key)| + 58 < WORD
    && Recoverable(s, p.base, m.payload, m.cmd, link.key)
  }

  /** The reader takes the message for the sign of a Device22. */
  predicate Switches(link: Link, m: Sent) {
    ChecksDev22Fallback(GetProtocol(link.version, link.devType)) && link.devType == AutoType
        && Contains(m.payload, DATA_UNVALID)
  }

  ghost function SegmentOf(s: Suite, link: Link, m: Sent): Segment
    requires s.Lawful() && Sendable(s, link, m)
  {
    var p := GetProtocol(link.version, link.devType);
    ClientReadsReply(s, link.version, link.devType, m.seqno, m.cmd, m.rc, m.payload, link.key, m.iv);
    Segment(m.noise, DeviceFrame(s, p, m.seqno, m.cmd, m.rc, m.payload, link.key, m.iv).value)
  }

  function Intended(link: Link, m: Sent): Delivery {
    Plain(Reply(GetProtocol(link.version, link.devType), m.seqno, m.cmd, m.rc, m.payload, m.iv))
  }

  lemma DeviceFrameIsReadable(s: Suite, link: Link, m: Sent)
    requires s.Lawful() && Sendable(s, link, m)
    ensures Readable(link.version, link.key, SegmentOf(s, link, m))
  {
    var p := GetProtocol(link.version, link.devType);
    ClientReadsReply(s, link.version, link.devType, m.seqno, m.cmd, m.rc, m.payload, link.key, m.iv);
    var packed := PackPayload(s, p.base, m.payload, m.cmd, link.key);
    var msg := if Prefix(p) == PREFIX_55AA then Message(m.seqno, m.cmd, None, BE32(m.rc) + packed, PREFIX_55AA, None)
               else Message(m.seqno, m.cmd, Some(m.rc), packed, PREFIX_6699, Some(m.iv));
    PackedLength(s, msg, HmacKey(p, link.key), m.iv);
    var packet := DeviceFrame(s, p, m.seqno, m.cmd, m.rc, m.payload, link.key, m.iv).value;
    assert Packed(s, msg, HmacKey(p, link.key), m.iv) == Ok(packet);
    assert |packet| >= 28 && |packet| >= EndLen(HmacKey(p, link.key));
    assert HeaderOf(packet).Ok? && HeaderOf(packet).value.totalLength == |packet|;
    assert EndLen(HmacKey(p, link.key)) == EndLen(HmacKey(GetProtocol(link.version, DefaultType), []));
    assert Framed(packet) && !TooShort(link.version, link.key, packet);
    assert SegmentOf(s, link, m).packet == packet;
  }

  lemma DecodeIsOpen(s: Suite, link: Link, packet: bytes, msg: Message)
    requires HeaderOf(packet).Ok?
    requires OpenMsg(s, GetProtocol(link.version, link.devType), packet, link.key, None, Some(false)) == Ok(msg)
    ensures var sign := ChecksDev22Fallback(GetProtocol(link.version, link.devType)) && link.devType == AutoType
                        && Contains(msg.payload, DATA_UNVALID);
            Decode(s, link, packet, HeaderOf(packet).value) == (Ok(msg), if sign then Device22 else link.devType)
  {
    var p := GetProtocol(link.version, link.devType);
    var h := HeaderOf(packet).value;
    assert Unpacked(s, packet, HmacKey(p, link.key), Some(h), Some(false))
        == Unpacked(s, packet, HmacKey(p, link.key), None, Some(false));
    if msg.payload == [] {
      assert !Contains(msg.payload, DATA_UNVALID);
    }
  }

  /**
    A genuine frame is handed on as the message that was sent, and the device type stays; except that a device of
    undetermined type that complains of unvalid data under v3.3 or v3.4 is reported, with that payload, as the Device22
    it now is.
   */
  lemma GenuineFrameIsHandled(s: Suite, link: Link, m: Sent)
    requires s.Lawful() && Sendable(s, link, m)
    ensures Framed(SegmentOf(s, link, m).packet)
    ensures Handle(s, link, SegmentOf(s, link, m).packet)
            == if Switches(link, m) then (Ok(DevTypeReport(m.payload)), Device22)
                else (Ok(Intended(link, m)), link.devType)
  {
    DeviceFrameIsReadable(s, link, m);
    ClientReadsReply(s, link.version, link.devType, m.seqno, m.cmd, m.rc, m.payload, link.key, m.iv);
    DecodeIsOpen(s, link, SegmentOf(s, link, m).packet, Intended(link, m).msg);
  }

  /** What is handed on for a message, and the device type afterwards. */
  function Outcome22(link: Link, m: Sent): (Delivery, DeviceType) {
    if Switches(link, m) then (DevTypeReport(m.payload), Device22) else (Intended(link, m), link.devType)
  }

  lemma GenuineStep(s: Suite, link: Link, m: Sent, rest: bytes)
    requires s.Lawful() && Sendable(s, link, m)
    ensures var segment := SegmentOf(s, link, m);
            var (d, t) := Outcome22(link, m);
            ReadAll(s, link, segment.noise + (segment.packet + rest))
                == Prepend(d, ReadAll(s, link.(devType := t), rest))
  {
    var segment := SegmentOf(s, link, m);
    DeviceFrameIsReadable(s, link, m);
    GenuineFrameIsHandled(s, link, m);
    FrameBehindNoise(s, link, segment.noise, segment.packet, rest);
  }

  /** The segments are what a device puts on the wire for these messages. */
  ghost predicate Genuine(s: Suite, link: Link, sent: seq<Sent>, segments: seq<Segment>)
    requires s.Lawful()
  {
    |segments| == |sent| && forall i | 0 <= i < |sent| ::
        Sendable(s, link, sent[i]) && segments[i] == SegmentOf(s, link, sent[i])
  }

  /** A device sends the same bytes whatever type the reader takes it for. */
  lemma SameOnTheWire(s: Suite, link: Link, t: DeviceType, m: Sent)
    requires s.Lawful() && Sendable(s, link, m)
    ensures Sendable(s, link.(devType := t), m) && SegmentOf(s, link.(devType := t), m) == SegmentOf(s, link, m)
  {
    var p, q := GetProtocol(link.version, link.devType), GetProtocol(link.version, t);
    assert p.base == q.base && Prefix(p) == Prefix(q) && HmacKey(p, link.key) == HmacKey(q, link.key);
  }

  lemma GenuineFirst(s: Suite, link: Link, sent: seq<Sent>, segments: seq<Segment>, tail: bytes)
    requires s.Lawful() && Genuine(s, link, sent, segments) && sent != []
    ensures var (d, t) := Outcome22(link, sent[0]);
            && Genuine(s, link.(devType := t), sent[1..], segments[1..])
            && ReadAll(s, link, Wire(segments, tail))
                 == Prepend(d, ReadAll(s, link.(devType := t), Wire(segments[1..], tail)))
  {
    var rest := Wire(segments[1..], tail);
    var t := Outcome22(link, sent[0]).1;
    assert Wire(segments, tail) == segments[0].noise + (segments[0].packet + rest);
    GenuineStep(s, link, sent[0], rest);
    forall i | 0 <= i < |sent[1..]|
      ensures Sendable(s, link.(devType := t), sent[1..][i])
      ensures segments[1..][i] == SegmentOf(s, link.(devType := t), sent[1..][i])
    {
      SameOnTheWire(s, link, t, sent[i + 1]);
    }
  }

  /** The first message taken for the sign of a Device22, if any. */
  function Turn(link: Link, sent: seq<Sent>): (k: nat)
    ensures k <= |sent| && (k < |sent| ==> Switches(link, sent[k])) && forall i | 0 <= i < k :: !Switches(link, sent[i])
  {
    if sent == [] || Switches(link, sent[0]) then 0 else 1 + Turn(link, sent[1..])
  }

  /**
    The reader handed on exactly these messages, but reported the first sign of a Device22 as such and took the device
    for one from then on; and it ended as the bytes behind the last frame decide.
   */
  predicate HandedOn(link: Link, got: Session, sent: seq<Sent>, tail: bytes) {
    var turn := Turn(link, sent);
    && |got.deliveries| == |sent|
    && (forall i | 0 <= i < |sent| ::
          got.deliveries[i] == if i == turn then DevTypeReport(sent[i].payload) else Intended(link, sent[i]))
    && got.devType == (if turn < |sent| then Device22 else link.devType)
    && (got.ending == Drained <==> |tail| % 1028 == 0)
  }

  lemma HandedOnFirst(link: Link, rest: Session, sent: seq<Sent>, tail: bytes)
    requires sent != [] && HandedOn(link.(devType := Outcome22(link, sent[0]).1), rest, sent[1..], tail)
    ensures HandedOn(link, Prepend(Outcome22(link, sent[0]).0, rest), sent, tail)
  {
    var (d, t) := Outcome22(link, sent[0]);
    var got := Prepend(d, rest);
    forall i | 0 < i < |sent|
      ensures got.deliveries[i] == if i == Turn(link, sent) then DevTypeReport(sent[i].payload)
              else Intended(link, sent[i])
    {
      assert sent[i] == sent[1..][i - 1] && got.deliveries[i] == rest.deliveries[i - 1];
      assert Intended(link.(devType := t), sent[i]) == Intended(link, sent[i]);
    }
  }

  /**
    End to end over a whole connection: whatever messages a device sends, with noise between the frames, the reader
    hands on exactly those messages in that order, each with its sequence number, command, return code and payload, up
    to the one report when it recognises a Device22.
   */
  lemma {:induction false} GenuineStreamIsRead(s: Suite, link: Link, sent: seq<Sent>, segments: seq<Segment>,
          tail: bytes)
    requires s.Lawful() && Quiet(tail) && Genuine(s, link, sent, segments)
    ensures HandedOn(link, ReadAll(s, link, Wire(segments, tail)), sent, tail)
    decreases |sent|
  {
    if sent == [] {
      TrailingNoise(s, link, tail);
    } else {
      var t := Outcome22(link, sent[0]).1;
      GenuineFirst(s, link, sent, segments, tail);
      GenuineStreamIsRead(s, link.(devType := t), sent[1..], segments[1..], tail);
      HandedOnFirst(link, ReadAll(s, link.(devType := t), Wire(segments[1..], tail)), sent, tail);
    }
  }

  // ---------------------------------------------------------------- switching to Device22

  /** The device type stays, or changes from Auto to Device22 under v3.3, v3.4 or an undetermined version. */
  predicate SwitchesWell(link: Link, t: DeviceType) {
    t == link.devType || (link.devType == AutoType && t == Device22 && link.version in {AutoVersion, V33, V34})
  }

  /** The CRC fallback changes the device type only under v3.4. */
  lemma FallbackOnlyUnder34(s: Suite, link: Link, packet: bytes, header: Header)
    ensures Unpack22(s, link, packet, header).1 != link.devType ==>
              link.version == V34 && link.devType == AutoType && Unpack22(s, link, packet, header).1 == Device22
  {
  }

  /**
    One packet: the type changes only from Auto to Device22 under v3.3 or v3.4, and exactly then the read reports it.
   */
  lemma PacketSwitchesOnce(s: Suite, link: Link, packet: bytes, header: Header)
    ensures var (r, t) := Decode(s, link, packet, header);
            var report := Report(link.devType, t, r);
            SwitchesWell(link, t) && (report.Ok? && report.value.DevTypeReport? <==> t != link.devType)
  {
    FallbackOnlyUnder34(s, link, packet, header);
  }

  function ReportCount(deliveries: seq<Delivery>): nat {
    if deliveries == [] then 0 else (if deliveries[0].DevTypeReport? then 1 else 0) + ReportCount(deliveries[1..])
  }

  lemma FrameSwitchesOnce(s: Suite, link: Link, b: bytes)
    requires ReadFrame(s, link, b).Delivered?
    ensures var o := ReadFrame(s, link, b);
            && SwitchesWell(link, o.devType)
            && (o.delivery.DevTypeReport? <==> o.devType != link.devType)
  {
    var h := HeaderOf(b[..HeadLen(b)]);
    if h.Ok? {
      PacketSwitchesOnce(s, link, b[..h.value.totalLength], h.value);
    }
  }

  lemma ReadSwitchesOnce(s: Suite, link: Link, b: bytes)
    requires ReadOne(s, link, b).Delivered?
    ensures var o := ReadOne(s, link, b);
            && SwitchesWell(link, o.devType)
            && (o.delivery.DevTypeReport? <==> o.devType != link.devType)
  {
    var i := FindPrefix(b, WINDOW).value;
    FrameSwitchesOnce(s, link, b[i..]);
  }

  /**
    Over any bytes whatever: the device type changes at most once, only from Auto to Device22 and only under
    v3.3, v3.4 or an undetermined version, and the connection carries one report if it changed and none otherwise.
   */
  lemma {:induction false} TypeSwitchesAtMostOnce(s: Suite, link: Link, b: bytes)
    ensures var got := ReadAll(s, link, b);
            && SwitchesWell(link, got.devType)
            && ReportCount(got.deliveries) == if got.devType != link.devType then 1 else 0
    decreases |b|
  {
    if b != [] {
      match ReadOne(s, link, b)
      case Skipped(n) => TypeSwitchesAtMostOnce(s, link, b[n..]);
      case Delivered(d, n, t) =>
        ReadSwitchesOnce(s, link, b);
        AfterDelivery(s, link, b, b[n..], d, n, t);
        var later := ReadAll(s, link.(devType := t), b[n..]);
        TypeSwitchesAtMostOnce(s, link.(devType := t), b[n..]);
        assert ([d] + later.deliveries)[1..] == later.deliveries;
      case _ =>
    }
  }
}
