/**
  What bad frames do to a stream: a corrupt frame is read as if it were absent, but for one report; a frame too short
  for its trailer ends the reading there and then.
 */
module DamageLaws {
  import opened Bytes
  import opened Crypto
  import opened Frames
  import opened FrameLaws
  import opened Payloads
  import opened Reader
  import opened ReaderLaws

  lemma {:induction false} WireSplit(a: seq<Segment>, b: seq<Segment>, tail: bytes)
    ensures Wire(a + b, tail) == Wire(a, Wire(b, tail))
    decreases |a|
  {
    if a == [] {
      assert a + b == b;
    } else {
      assert (a + b)[0] == a[0] && (a + b)[1..] == a[1..] + b;
      WireSplit(a[1..], b, tail);
    }
  }

  /** A readable frame with readable frames before and behind it. */
  ghost predicate Around(version: Version, key: bytes, a: seq<Segment>, x: Segment, b: seq<Segment>) {
    AllReadable(version, key, a) && Readable(version, key, x) && AllReadable(version, key, b)
  }

  /** Decoding a stream in three parts. */
  lemma DecodedAround(s: Suite, link: Link, a: seq<Segment>, x: Segment, b: seq<Segment>)
    requires s.Lawful() && Around(link.version, link.key, a, x, b) && AllReadable(link.version, link.key, a + [x] + b)
    ensures var front := Decoded(s, link, a);
            var (d, t) := Handle(s, link.(devType := front.devType), x.packet);
            && d.Ok?
            && Decoded(s, link, a + [x] + b) == Then(front, Prepend(d.value, Decoded(s, link.(devType := t), b)))
  {
    var here := link.(devType := Decoded(s, link, a).devType);
    HandleIsExact(s, here, x.packet);
    var (d, t) := Handle(s, here, x.packet);
    assert a + [x] + b == a + ([x] + b);
    assert AllReadable(link.version, link.key, [x] + b) by {
      assert forall i | 0 < i < |[x] + b| :: ([x] + b)[i] == b[i - 1];
    }
    DecodedConcat(s, link, a, [x] + b);
    assert ([x] + b)[1..] == b;
    DecodedCons(s, here, [x] + b, d.value, t);
  }

  // ---------------------------------------------------------------- frames that leave the device type alone

  /** A session with one more delivery in it. */
  function With(r: Session, k: nat, d: Delivery): Session
    requires k <= |r.deliveries|
  {
    r.(deliveries := r.deliveries[..k] + [d] + r.deliveries[k..])
  }

  /**
    The session with the frame is the session without it, plus one delivery in its place: what comes before and behind
    it, the device type and the ending are those of the stream from which the frame is missing.
   */
  predicate AsIfAbsent(s: Suite, link: Link, a: seq<Segment>, x: Segment, b: seq<Segment>, tail: bytes, d: Delivery) {
    var without := ReadAll(s, link, Wire(a + b, tail));
    |without.deliveries| == |a| + |b| && ReadAll(s, link, Wire(a + [x] + b, tail)) == With(without, |a|, d)
  }

  lemma ThenWith(front: Session, d: Delivery, back: Session)
    ensures Then(front, Prepend(d, back)) == With(Then(front, back), |front.deliveries|, d)
  {
    var all := front.deliveries + back.deliveries;
    assert all[..|front.deliveries|] == front.deliveries && all[|front.deliveries|..] == back.deliveries;
    assert front.deliveries + ([d] + back.deliveries) == front.deliveries + [d] + back.deliveries;
  }

  lemma ReadableAround(version: Version, key: bytes, a: seq<Segment>, x: Segment, b: seq<Segment>)
    requires Around(version, key, a, x, b)
    ensures AllReadable(version, key, a + [x] + b) && AllReadable(version, key, a + b)
  {
    assert AllReadable(version, key, [x]);
    ReadableConcat(version, key, a, [x]);
    ReadableConcat(version, key, a + [x], b);
    ReadableConcat(version, key, a, b);
  }

  /** A frame that is not reported as a change of the device type changes nothing but its own delivery. */
  lemma FrameIsIndependent(s: Suite, link: Link, a: seq<Segment>, x: Segment, b: seq<Segment>, tail: bytes, d: Delivery)
    requires s.Lawful() && Quiet(tail)
    requires Around(link.version, link.key, a, x, b)
    requires Handle(s, link.(devType := Decoded(s, link, a).devType), x.packet).0 == Ok(d) && !d.DevTypeReport?
    ensures AsIfAbsent(s, link, a, x, b, tail, d)
  {
    var front := Decoded(s, link, a);
    var here := link.(devType := front.devType);
    PacketSwitchesOnce(s, here, x.packet, HeaderOf(x.packet).value);
    ReadableAround(link.version, link.key, a, x, b);
    DecodedAround(s, link, a, x, b);
    DecodedConcat(s, link, a, b);
    ThenWith(front, d, Decoded(s, here, b));
    StreamIsDecodedFrameByFrame(s, link, a + [x] + b, tail);
    StreamIsDecodedFrameByFrame(s, link, a + b, tail);
  }

  // ---------------------------------------------------------------- corrupt frames

  /** The checksum of a 55AA packet is right. */
  predicate Checks(s: Suite, key: Option<bytes>, packet: bytes) {
    && |packet| >= 16 + EndLen(key)
    && packet[|packet| - EndLen(key)..|packet| - 4] == Checksum(s, key, packet[..|packet| - EndLen(key)])
  }

  /** The body of a 6699 packet is authentic. */
  predicate Opens(s: Suite, key: bytes, packet: bytes) {
    |packet| >= 50 && |key| == 16 && s.gcmOpen(key, packet[18..30], packet[4..18], packet[30..|packet| - 4]).Some?
  }

  lemma UnpackChecks(s: Suite, packet: bytes, key: Option<bytes>)
    requires Framed(packet) && Read32(packet) == PREFIX_55AA && |packet| >= EndLen(key)
    ensures var r := Unpacked(s, packet, key, Some(HeaderOf(packet).value), Some(false));
            && (r.Ok? <==> Checks(s, key, packet))
            && (!r.Ok? ==> r == Err(if |packet| < 16 + EndLen(key) then DecodeError
                                    else if key.Some? then HmacMismatch else CrcMismatch))
  {
  }

  lemma UnpackOpens(s: Suite, packet: bytes, key: Option<bytes>)
    requires Framed(packet) && Read32(packet) == PREFIX_6699 && |packet| >= 22
    ensures var r := Unpacked(s, packet, key, Some(HeaderOf(packet).value), Some(false));
            && (r.Ok? <==> key.Some? && Opens(s, key.value, packet))
            && (!r.Ok? ==> r == Err(if key.None? then EncryptionFailed
                                    else if |packet| < 50 then InvalidPayload
                                    else if |key.value| != 16 then EncryptionFailed else DecryptionFailed))
  {
    if key.Some? && |packet| >= 50 && |key.value| == 16 {
      var inner := packet[18..|packet| - 4];
      assert inner[12..] == packet[30..|packet| - 4] && inner[..12] == packet[18..30];
      assert inner[..12][..12] == inner[..12];
    }
  }

  /** Neither checksum that the reader may try is right, or the sealed body does not open. */
  predicate Corrupt(s: Suite, version: Version, key: bytes, packet: bytes)
    requires |packet| >= 4
  {
    var hmac := HmacKey(GetProtocol(version, DefaultType), key);
    if Read32(packet) == PREFIX_55AA then !Checks(s, hmac, packet) && !Checks(s, None, packet)
    else hmac.None? || !Opens(s, key, packet)
  }

  /** The error by which a corrupt frame is reported: no key, no room for the trailer, or what does not match. */
  function Fault(version: Version, key: bytes, packet: bytes): Error
    requires |packet| >= 4
  {
    var signed := version == V34 || version == V35;
    if |key| != 16 then EncryptionFailed
    else if Read32(packet) == 0x55AA then
      if |packet| < (if signed then 52 else 24) then DecodeError else if signed then HmacMismatch else CrcMismatch
    else if !signed then EncryptionFailed
    else if |packet| < 50 then InvalidPayload
    else DecryptionFailed
  }

  /** A corrupt frame is reported with its fault and leaves the device type as it is. */
  lemma CorruptIsRejected(s: Suite, link: Link, packet: bytes)
    requires s.Lawful() && Framed(packet) && !TooShort(link.version, link.key, packet)
    requires Corrupt(s, link.version, link.key, packet)
    ensures Handle(s, link, packet) == (Ok(PayloadReport(Fault(link.version, link.key, packet))), link.devType)
  {
    HandleIsExact(s, link, packet);
    if |link.key| == 16 {
      var hmac := HmacKey(GetProtocol(link.version, link.devType), link.key);
      if Read32(packet) == PREFIX_55AA {
        UnpackChecks(s, packet, hmac);
        UnpackChecks(s, packet, None);
      } else {
        UnpackOutcome(s, packet, None);
        if hmac.Some? {
          UnpackOpens(s, packet, hmac);
        }
      }
    }
  }

  /**
    Corruption does not desynchronise: whatever frames surround it, a frame with an intact header and a corrupt body or
    checksum is read as if it were absent, but for the one report in its place. This needs no condition on device type
    or version.
   */
  lemma CorruptFrameIsAbsent(s: Suite, link: Link, a: seq<Segment>, x: Segment, b: seq<Segment>, tail: bytes)
    requires s.Lawful() && Quiet(tail)
    requires Around(link.version, link.key, a, x, b)
    requires Corrupt(s, link.version, link.key, x.packet)
    ensures AsIfAbsent(s, link, a, x, b, tail, PayloadReport(Fault(link.version, link.key, x.packet)))
  {
    CorruptIsRejected(s, link.(devType := Decoded(s, link, a).devType), x.packet);
    FrameIsIndependent(s, link, a, x, b, tail, PayloadReport(Fault(link.version, link.key, x.packet)));
  }

  lemma CorruptFrameReport(s: Suite, link: Link, a: seq<Segment>, x: Segment, b: seq<Segment>,
          tail: bytes) returns (e: Error)
    requires s.Lawful() && Quiet(tail)
    requires Around(link.version, link.key, a, x, b)
    requires Corrupt(s, link.version, link.key, x.packet)
    ensures AsIfAbsent(s, link, a, x, b, tail, PayloadReport(e))
  {
    e := Fault(link.version, link.key, x.packet);
    CorruptFrameIsAbsent(s, link, a, x, b, tail);
  }

  // ---------------------------------------------------------------- damage compared with the frame undamaged

  /** The replacement keeps the header, and so the length. */
  predicate KeepsHeader(packet: bytes, bad: bytes) {
    |bad| == |packet| >= 16 && |packet| >= HeadLen(packet) && bad[..HeadLen(packet)] == packet[..HeadLen(packet)]
  }

  lemma DamagedIsReadable(version: Version, key: bytes, x: Segment, bad: bytes)
    requires Readable(version, key, x) && KeepsHeader(x.packet, bad)
    ensures Readable(version, key, x.(packet := bad))
  {
    var packet := x.packet;
    assert Read32(bad) == Read32(bad[..HeadLen(packet)]) == Read32(packet[..HeadLen(packet)]) == Read32(packet);
    HeadDecidesHeader(bad);
    HeadDecidesHeader(packet);
  }

  lemma HeadsAgree(front: Session, d: Delivery, back: Session, e: Delivery, behind: Session, k: nat)
    requires k == |front.deliveries| && |back.deliveries| == |behind.deliveries|
    ensures var good, after := Then(front, Prepend(d, back)), Then(front, Prepend(e, behind));
            |good.deliveries| == |after.deliveries| == k + 1 + |back.deliveries| && good.deliveries[..k]
                == after.deliveries[..k]
  {
  }

  /**
    Change the body or checksum of one frame in any way that keeps its header, corrupt or not: the reader still consumes
    exactly that frame. It delivers as many messages, ends in the same way, and everything before the frame is what it
    was.
   */
  lemma DamageIsConsumed(s: Suite, link: Link, a: seq<Segment>, x: Segment, bad: bytes, b: seq<Segment>, tail: bytes)
    requires s.Lawful() && Quiet(tail) && KeepsHeader(x.packet, bad)
    requires Around(link.version, link.key, a, x, b)
    ensures var good := ReadAll(s, link, Wire(a + [x] + b, tail));
            var after := ReadAll(s, link, Wire(a + [x.(packet := bad)] + b, tail));
            && |good.deliveries| == |after.deliveries| == |a| + 1 + |b| && good.ending == after.ending
            && after.deliveries[..|a|] == good.deliveries[..|a|]
  {
    var y := x.(packet := bad);
    DamagedIsReadable(link.version, link.key, x, bad);
    assert Around(link.version, link.key, a, y, b);
    ReadableAround(link.version, link.key, a, x, b);
    ReadableAround(link.version, link.key, a, y, b);
    DecodedAround(s, link, a, x, b);
    DecodedAround(s, link, a, y, b);
    StreamIsDecodedFrameByFrame(s, link, a + [x] + b, tail);
    StreamIsDecodedFrameByFrame(s, link, a + [y] + b, tail);
    var front := Decoded(s, link, a);
    var here := link.(devType := front.devType);
    var (d, t) := Handle(s, here, x.packet);
    var (e, u) := Handle(s, here, y.packet);
    HeadsAgree(front, d.value, Decoded(s, link.(devType := t), b), e.value, Decoded(s, link.(devType := u), b), |a|);
  }

  /** One delivery of a session is replaced by a report. */
  predicate ReportedAt(good: Session, after: Session, k: nat) {
    k < |good.deliveries| && exists e :: after == good.(deliveries := good.deliveries[k := PayloadReport(e)])
  }

  lemma WithReported(r: Session, k: nat, d: Delivery, e: Error)
    requires k <= |r.deliveries|
    ensures ReportedAt(With(r, k, d), With(r, k, PayloadReport(e)), k)
  {
    var good := With(r, k, d);
    assert With(r, k, PayloadReport(e)) == good.(deliveries := good.deliveries[k := PayloadReport(e)]);
  }

  lemma AbsentBothWays(s: Suite, link: Link, a: seq<Segment>, x: Segment, y: Segment, b: seq<Segment>, tail: bytes,
          d: Delivery, e: Error)
    requires AsIfAbsent(s, link, a, x, b, tail, d) && AsIfAbsent(s, link, a, y, b, tail, PayloadReport(e))
    ensures ReportedAt(ReadAll(s, link, Wire(a + [x] + b, tail)), ReadAll(s, link, Wire(a + [y] + b, tail)), |a|)
  {
    WithReported(ReadAll(s, link, Wire(a + b, tail)), |a|, d, e);
  }

  // ---------------------------------------------------------------- the sign of a Device22

  /** A v3.4 packet with a wrong HMAC and a right CRC. */
  predicate CrcInstead(s: Suite, key: bytes, packet: bytes) {
    && |packet| >= 36 && Read32(packet) == PREFIX_55AA
    && !Checks(s, Some(key), packet) && Checks(s, None, packet)
  }

  /** The bytes of an ASCII text. */
  function Ascii(text: string): bytes
    requires forall i | 0 <= i < |text| :: text[i] as int < 128
  {
    seq(|text|, i requires 0 <= i < |text| => text[i] as int)
  }

  const COMPLAINT: bytes := Ascii("data unvalid")

  lemma UnvalidText()
    ensures COMPLAINT == DATA_UNVALID
  {
  }

  /**
    The packet makes the reader take a device of undetermined type for a Device22: under v3.3 or v3.4 it opens to a
    complaint of unvalid data, or under v3.4 it has a CRC where an HMAC belongs.
   */
  predicate Sign(s: Suite, link: Link, packet: bytes) {
    var p := GetProtocol(link.version, link.devType);
    && link.devType == AutoType && |link.key| == 16
    && (link.version == V33 || link.version == V34 || link.version == AutoVersion)
    && var unsealed := OpenMsg(s, p, packet, link.key, None, Some(false));
       || (unsealed.Ok? && Contains(unsealed.value.payload, COMPLAINT))
       || (link.version == V34 && CrcInstead(s, link.key, packet))
  }

  lemma SameUnpacked(s: Suite, packet: bytes, key: Option<bytes>)
    requires Framed(packet)
    ensures Unpacked(s, packet, key, None, Some(false))
            == Unpacked(s, packet, key, Some(HeaderOf(packet).value), Some(false))
  {
  }

  /** The packet unpacks at once: the payload decides. */
  lemma SignByPayload(s: Suite, link: Link, packet: bytes)
    requires Framed(packet) && |link.key| == 16 && link.devType == AutoType
    requires var p := GetProtocol(link.version, link.devType);
             && ChecksDev22Fallback(p)
             && Unpacked(s, packet, HmacKey(p, link.key), Some(HeaderOf(packet).value), Some(false)).Ok?
    ensures var unsealed := OpenMsg(s, GetProtocol(link.version, link.devType), packet, link.key, None, Some(false));
            && unsealed.Ok?
            && (Decode(s, link, packet, HeaderOf(packet).value).1 == Device22
                <==> Contains(unsealed.value.payload, DATA_UNVALID))
  {
    var p := GetProtocol(link.version, link.devType);
    SameUnpacked(s, packet, HmacKey(p, link.key));
    var unsealed := OpenMsg(s, p, packet, link.key, None, Some(false));
    DecodeIsOpen(s, link, packet, unsealed.value);
  }

  /** The packet does not unpack at once: under v3.4 the CRC decides. */
  lemma SignByChecksum(s: Suite, link: Link, packet: bytes)
    requires Framed(packet) && !TooShort(link.version, link.key, packet) && |link.key| == 16 && link.devType == AutoType
    requires var p := GetProtocol(link.version, link.devType);
             && ChecksDev22Fallback(p)
             && !Unpacked(s, packet, HmacKey(p, link.key), Some(HeaderOf(packet).value), Some(false)).Ok?
    ensures Decode(s, link, packet, HeaderOf(packet).value).1 == Device22
            <==> link.version == V34 && CrcInstead(s, link.key, packet)
    ensures !OpenMsg(s, GetProtocol(link.version, link.devType), packet, link.key, None, Some(false)).Ok?
  {
    var hmac := HmacKey(GetProtocol(link.version, link.devType), link.key);
    SameUnpacked(s, packet, hmac);
    UnpackOutcome(s, packet, hmac);
    UnpackOutcome(s, packet, None);
    if Read32(packet) == PREFIX_55AA {
      UnpackChecks(s, packet, hmac);
      UnpackChecks(s, packet, None);
    }
  }

  lemma OpenedIsNotCrc(s: Suite, link: Link, packet: bytes)
    requires Framed(packet) && |link.key| == 16
    requires var p := GetProtocol(link.version, link.devType);
             Unpacked(s, packet, HmacKey(p, link.key), Some(HeaderOf(packet).value), Some(false)).Ok?
    ensures !(link.version == V34 && CrcInstead(s, link.key, packet))
  {
    if link.version == V34 && CrcInstead(s, link.key, packet) {
      UnpackChecks(s, packet, Some(link.key));
    }
  }

  /** Exactly the signs change the device type, and exactly they are reported as such. */
  lemma SignIsReported(s: Suite, link: Link, packet: bytes)
    requires s.Lawful() && Framed(packet) && !TooShort(link.version, link.key, packet)
    ensures var (d, t) := Handle(s, link, packet);
            && d.Ok? && (d.value.DevTypeReport? <==> Sign(s, link, packet))
            && (t != link.devType <==> Sign(s, link, packet))
  {
    HandleIsExact(s, link, packet);
    PacketSwitchesOnce(s, link, packet, HeaderOf(packet).value);
    var p := GetProtocol(link.version, link.devType);
    if link.devType == AutoType && ChecksDev22Fallback(p) && |link.key| == 16 {
      UnvalidText();
      if Unpacked(s, packet, HmacKey(p, link.key), Some(HeaderOf(packet).value), Some(false)).Ok? {
        SignByPayload(s, link, packet);
        OpenedIsNotCrc(s, link, packet);
      } else {
        SignByChecksum(s, link, packet);
      }
    }
  }

  // ---------------------------------------------------------------- when damage is local

  lemma {:induction false} OneReportLess(ds: seq<Delivery>, k: nat, e: Error)
    requires k < |ds| && ds[k].DevTypeReport?
    ensures ReportCount(ds) >= 1 && ReportCount(ds[k := PayloadReport(e)]) == ReportCount(ds) - 1
  {
    var after := ds[k := PayloadReport(e)];
    if k == 0 {
      assert after[1..] == ds[1..];
    } else {
      OneReportLess(ds[1..], k - 1, e);
      assert after[1..] == ds[1..][k - 1 := PayloadReport(e)];
    }
  }

  /**
    A session with the report of a change at `k`, and one with that report replaced, cannot both be sessions of a
    reader.
   */
  lemma ChangeIsMissed(s: Suite, link: Link, b: bytes, c: bytes, k: nat)
    requires k < |ReadAll(s, link, b).deliveries| && ReadAll(s, link, b).deliveries[k].DevTypeReport?
    ensures !ReportedAt(ReadAll(s, link, b), ReadAll(s, link, c), k)
  {
    var good, after := ReadAll(s, link, b), ReadAll(s, link, c);
    TypeSwitchesAtMostOnce(s, link, b);
    TypeSwitchesAtMostOnce(s, link, c);
    forall e ensures after != good.(deliveries := good.deliveries[k := PayloadReport(e)]) {
      OneReportLess(good.deliveries, k, e);
    }
  }

  lemma DeliveryInPlace(s: Suite, link: Link, a: seq<Segment>, x: Segment, b: seq<Segment>, tail: bytes)
    requires s.Lawful() && Quiet(tail) && Around(link.version, link.key, a, x, b)
    ensures var d := Handle(s, link.(devType := Decoded(s, link, a).devType), x.packet).0;
            var good := ReadAll(s, link, Wire(a + [x] + b, tail));
            d.Ok? && |a| < |good.deliveries| && good.deliveries[|a|] == d.value
  {
    ReadableAround(link.version, link.key, a, x, b);
    DecodedAround(s, link, a, x, b);
    StreamIsDecodedFrameByFrame(s, link, a + [x] + b, tail);
  }

  /** A frame that was not the sign of a Device22: its delivery is replaced by a report and nothing else changes. */
  lemma DamageStaysLocal(s: Suite, link: Link, a: seq<Segment>, x: Segment, y: Segment, b: seq<Segment>, tail: bytes,
          d: Delivery)
    requires s.Lawful() && Quiet(tail)
    requires Around(link.version, link.key, a, x, b) && Around(link.version, link.key, a, y, b)
    requires Corrupt(s, link.version, link.key, y.packet)
    requires Handle(s, link.(devType := Decoded(s, link, a).devType), x.packet).0 == Ok(d) && !d.DevTypeReport?
    ensures ReportedAt(ReadAll(s, link, Wire(a + [x] + b, tail)), ReadAll(s, link, Wire(a + [y] + b, tail)), |a|)
  {
    FrameIsIndependent(s, link, a, x, b, tail, d);
    var e := CorruptFrameReport(s, link, a, y, b, tail);
    AbsentBothWays(s, link, a, x, y, b, tail, d, e);
  }

  /**
    When a frame of any stream is replaced by a corrupt one, its own delivery is replaced by a report and nothing else
    in the session changes, if and only if the frame was not, where it stood, the sign of a Device22.
   */
  lemma DamageIsLocalExactly(s: Suite, link: Link, a: seq<Segment>, x: Segment, y: Segment, b: seq<Segment>,
          tail: bytes)
    requires s.Lawful() && Quiet(tail)
    requires Around(link.version, link.key, a, x, b) && Around(link.version, link.key, a, y, b)
    requires Corrupt(s, link.version, link.key, y.packet)
    ensures ReportedAt(ReadAll(s, link, Wire(a + [x] + b, tail)), ReadAll(s, link, Wire(a + [y] + b, tail)), |a|)
            <==> !Sign(s, link.(devType := Decoded(s, link, a).devType), x.packet)
  {
    var here := link.(devType := Decoded(s, link, a).devType);
    SignIsReported(s, here, x.packet);
    if Sign(s, here, x.packet) {
      DeliveryInPlace(s, link, a, x, b, tail);
      ChangeIsMissed(s, link, Wire(a + [x] + b, tail), Wire(a + [y] + b, tail), |a|);
    } else {
      DamageStaysLocal(s, link, a, x, y, b, tail, Handle(s, here, x.packet).0.value);
    }
  }

  // ---------------------------------------------------------------- the sign of a Device22 lost

  /** A frame with a CRC that is off by one. */
  function WrongCrc(s: Suite, front: bytes): bytes {
    front + BE32((s.crc(front) + 1) % WORD) + BE32(SUFFIX_55AA)
  }

  lemma DifferentWords(m: u32, n: u32)
    requires m != n
    ensures BE32(m) != BE32(n)
  {
    ReadOfWritten(m, []);
    ReadOfWritten(n, []);
    assert BE32(m) + [] == BE32(m) && BE32(n) + [] == BE32(n);
  }

  lemma NextWord(n: u32)
    ensures (n + 1) % WORD != n
  {
    if n + 1 < WORD {
      assert (n + 1) % WORD == n + 1;
    }
  }

  lemma WrongCrcIsCorrupt(s: Suite, front: bytes)
    requires |front| >= 16
    ensures var bad := WrongCrc(s, front);
            |bad| == |front| + 8 && bad[..|front|] == front && !Checks(s, None, bad)
  {
    var bad := WrongCrc(s, front);
    var wrong: u32 := (s.crc(front) + 1) % WORD;
    assert bad[..|front|] == front && bad[|front|..|front| + 4] == BE32(wrong);
    NextWord(s.crc(front));
    DifferentWords(wrong, s.crc(front));
  }

  /** The frame of a v3.3 device: a head and a body, and their CRC. */
  lemma FrameOf33(s: Suite, link: Link, m: Sent) returns (front: bytes)
    requires s.Lawful() && link.version == V33 && Sendable(s, link, m)
    ensures |front| >= 16 && Read32(front) == PREFIX_55AA
    ensures SegmentOf(s, link, m).packet == front + BE32(s.crc(front)) + BE32(SUFFIX_55AA)
  {
    var p := GetProtocol(V33, link.devType);
    var body := BE32(m.rc) + PackPayload(s, V33, m.payload, m.cmd, link.key);
    front := Head55(m.seqno, m.cmd, (|body| + 8) % WORD) + body;
    HeaderOf55(m.seqno, m.cmd, (|body| + 8) % WORD, body);
    assert DeviceFrame(s, p, m.seqno, m.cmd, m.rc, m.payload, link.key, m.iv)
        == Ok(Packed55(s, Message(m.seqno, m.cmd, None, body, PREFIX_55AA, None), None));
  }

  lemma TwoReadable(version: Version, key: bytes, x: Segment, y: Segment)
    requires Readable(version, key, x) && Readable(version, key, y)
    ensures AllReadable(version, key, [x, y])
  {
  }

  lemma DecodedTwo(s: Suite, link: Link, x: Segment, y: Segment, d: Delivery, t: DeviceType, e: Delivery, u: DeviceType)
    requires s.Lawful() && Readable(link.version, link.key, x) && Readable(link.version, link.key, y)
    requires AllReadable(link.version, link.key, [x, y])
    requires Handle(s, link, x.packet) == (Ok(d), t) && Handle(s, link.(devType := t), y.packet) == (Ok(e), u)
    ensures Decoded(s, link, [x, y]).deliveries == [d, e]
  {
    assert [x, y][1..] == [y] && [y][1..] == [];
    DecodedCons(s, link, [x, y], d, t);
    DecodedCons(s, link.(devType := t), [y], e, u);
  }

  lemma TwoFrames(s: Suite, link: Link, x: Segment, y: Segment, d: Delivery, t: DeviceType, e: Delivery, u: DeviceType)
    requires s.Lawful() && Readable(link.version, link.key, x) && Readable(link.version, link.key, y)
    requires Handle(s, link, x.packet) == (Ok(d), t) && Handle(s, link.(devType := t), y.packet) == (Ok(e), u)
    ensures ReadAll(s, link, Wire([x, y], [])).deliveries == [d, e]
  {
    TwoReadable(link.version, link.key, x, y);
    StreamIsDecodedFrameByFrame(s, link, [x, y], []);
    DecodedTwo(s, link, x, y, d, t, e, u);
  }

  lemma SameHead(front: bytes, packet: bytes, bad: bytes)
    requires |front| >= 16 && front <= packet && front <= bad && |packet| == |bad| && Read32(front) == PREFIX_55AA
    ensures KeepsHeader(packet, bad) && Read32(packet) == Read32(bad) == PREFIX_55AA
  {
    assert packet[..16] == front[..16] == bad[..16];
  }

  /** The frame of a v3.3 device with a wrong CRC. */
  lemma SpoiledFrame(s: Suite, link: Link, m: Sent) returns (bad: bytes)
    requires s.Lawful() && link.version == V33 && Sendable(s, link, m)
    ensures var x := SegmentOf(s, link, m);
            && Readable(V33, link.key, x) && Readable(V33, link.key, x.(packet := bad))
            && KeepsHeader(x.packet, bad) && Corrupt(s, V33, link.key, bad)
  {
    var x := SegmentOf(s, link, m);
    var front := FrameOf33(s, link, m);
    bad := WrongCrc(s, front);
    WrongCrcIsCorrupt(s, front);
    DeviceFrameIsReadable(s, link, m);
    SameHead(front, x.packet, bad);
    DamagedIsReadable(V33, link.key, x, bad);
  }

  lemma SwitchedStays(s: Suite, link: Link, packet: bytes)
    requires s.Lawful() && Framed(packet) && !TooShort(link.version, link.key, packet)
    ensures var r := Handle(s, link.(devType := Device22), packet).0; r.Ok? && !r.value.DevTypeReport?
  {
    HandleIsExact(s, link.(devType := Device22), packet);
    PacketSwitchesOnce(s, link.(devType := Device22), packet, HeaderOf(packet).value);
  }

  /**
    The exception is real: a v3.3 device of undetermined type says twice that its data are unvalid, and the first frame
    is corrupted. Then the second frame is delivered differently too, as the report that the first one would have been.
   */
  lemma LostSignShows(s: Suite, link: Link, m: Sent) returns (bad: bytes)
    requires s.Lawful() && link.version == V33 && link.devType == AutoType
    requires Sendable(s, link, m) && Contains(m.payload, DATA_UNVALID)
    ensures var x := SegmentOf(s, link, m);
            var good := ReadAll(s, link, Wire([x, x], [])).deliveries;
            var after := ReadAll(s, link, Wire([x.(packet := bad), x], [])).deliveries;
            && KeepsHeader(x.packet, bad) && Corrupt(s, link.version, link.key, bad)
            && |good| == |after| == 2 && !good[1].DevTypeReport? && after[1] == DevTypeReport(m.payload)
  {
    var x := SegmentOf(s, link, m);
    bad := SpoiledFrame(s, link, m);
    GenuineFrameIsHandled(s, link, m);
    CorruptIsRejected(s, link, bad);
    SwitchedStays(s, link, x.packet);
    var second := Handle(s, link.(devType := Device22), x.packet);
    TwoFrames(s, link, x, x, DevTypeReport(m.payload), Device22, second.0.value, second.1);
    TwoFrames(s, link, x.(packet := bad), x, Handle(s, link, bad).0.value, AutoType, DevTypeReport(m.payload),
        Device22);
  }

  /** There is such a message, whatever the cipher. */
  lemma SignCanBeSent(s: Suite, key: Key)
    requires s.Lawful()
    ensures Sendable(s, Link(V33, AutoType, key), Sent([], 1, STATUS, 0, DATA_UNVALID, Repeat(0, 12)))
    ensures Contains(DATA_UNVALID, DATA_UNVALID)
  {
    assert OccursAt(DATA_UNVALID, DATA_UNVALID, 0);
    UntaggedIsRecoverable(s, V33, DATA_UNVALID, STATUS, key);
    EcbSealLength(s, key, DATA_UNVALID);
  }

  // ---------------------------------------------------------------- frames that end the reading

  /**
    The exact bytes at which the reader panics: a readable header whose length sum has wrapped below the head, or a
    complete frame that leaves no room for the trailer.
   */
  lemma FramePanicsExactly(s: Suite, link: Link, b: bytes)
    requires s.Lawful()
    ensures ReadFrame(s, link, b) == Panicked
            <==> && |b| >= 16 && |b| >= HeadLen(b) && HeaderOf(b).Ok?
                 && var total := HeaderOf(b).value.totalLength;
                    total < HeadLen(b) || (total <= |b| && TooShort(link.version, link.key, b[..total]))
  {
    if |b| >= 16 && |b| >= HeadLen(b) {
      HeadDecidesHeader(b);
      if HeaderOf(b).Ok? && HeadLen(b) <= HeaderOf(b).value.totalLength <= |b| {
        var packet := b[..HeaderOf(b).value.totalLength];
        assert Read32(packet) == Read32(b) && packet[..HeadLen(b)] == b[..HeadLen(b)];
        HeadDecidesHeader(packet);
        HandleIsExact(s, link, packet);
      }
    }
  }

  /** A bare header ends the reading of a v3.4 or v3.5 device. */
  lemma BareHeaderEndsReading(s: Suite, link: Link, seqno: u32, cmd: u32, rest: bytes)
    requires s.Lawful() && |link.key| == 16 && (link.version == V34 || link.version == V35)
    ensures ReadFrame(s, link, Head55(seqno, cmd, 0) + rest) == Panicked
  {
    var b := Head55(seqno, cmd, 0) + rest;
    HeaderOf55(seqno, cmd, 0, rest);
    assert b[..16] == Head55(seqno, cmd, 0);
    ReadOfWritten(PREFIX_55AA, BE32(seqno) + (BE32(cmd) + BE32(0)));
    FramePanicsExactly(s, link, b);
  }

  lemma {:induction false} PanicBehindNoise(s: Suite, link: Link, noise: bytes, b: bytes)
    requires Quiet(noise) && |noise| % 1028 < 1024 && PrefixAt(b, 0) && ReadFrame(s, link, b) == Panicked
    ensures ReadAll(s, link, noise + b) == Session([], link.devType, Aborted)
    decreases |noise|
  {
    if |noise| >= 1028 {
      WindowMod(|noise|);
      WindowOfNoise(s, link, noise, b);
      QuietSuffix(noise, 1028);
      PanicBehindNoise(s, link, noise[1028..], b);
    } else {
      FoundBehindNoise(noise, b, WINDOW);
      assert (noise + b)[|noise|..] == b;
      assert ReadOne(s, link, noise + b) == Panicked;
    }
  }

  /** A frame behind noise that the search can cross. */
  ghost predicate Placed(x: Segment) {
    Quiet(x.noise) && |x.noise| % 1028 < 1024 && Framed(x.packet)
  }

  ghost predicate AllPlaced(segments: seq<Segment>) {
    forall i | 0 <= i < |segments| :: Placed(segments[i])
  }

  /** The first frame that is too short, or the number of frames. */
  function FirstShort(version: Version, key: bytes, segments: seq<Segment>): (k: nat)
    ensures k <= |segments| && (k < |segments| ==> TooShort(version, key, segments[k].packet))
    ensures forall i | 0 <= i < k :: !TooShort(version, key, segments[i].packet)
  {
    if segments == [] || TooShort(version, key, segments[0].packet) then 0
        else 1 + FirstShort(version, key, segments[1..])
  }

  lemma ShortFramePanics(s: Suite, link: Link, packet: bytes, rest: bytes)
    requires s.Lawful() && Framed(packet) && TooShort(link.version, link.key, packet)
    ensures PrefixAt(packet + rest, 0) && ReadFrame(s, link, packet + rest) == Panicked
  {
    PrefixOfFrame(packet, rest);
    HeaderIsInTheHead(packet, rest);
    HeadDecidesHeader(packet + rest);
    assert (packet + rest)[..|packet|] == packet;
    FramePanicsExactly(s, link, packet + rest);
  }

  lemma ReadingEndsAt(s: Suite, link: Link, a: seq<Segment>, x: Segment, b: seq<Segment>, tail: bytes)
    requires s.Lawful() && AllReadable(link.version, link.key, a) && Placed(x)
    requires TooShort(link.version, link.key, x.packet)
    ensures ReadAll(s, link, Wire(a + ([x] + b), tail)) == Decoded(s, link, a).(ending := Aborted)
  {
    WireSplit(a, [x] + b, tail);
    var front := Decoded(s, link, a);
    var here := link.(devType := front.devType);
    var rest := Wire(b, tail);
    assert ([x] + b)[1..] == b;
    ReadingGoesOn(s, link, a, x.noise + (x.packet + rest));
    ShortFramePanics(s, here, x.packet, rest);
    PanicBehindNoise(s, here, x.noise, x.packet + rest);
    assert front.deliveries + [] == front.deliveries;
  }

  lemma CutAt(segments: seq<Segment>, k: nat)
    requires AllPlaced(segments) && k < |segments|
    ensures segments[..k] + ([segments[k]] + segments[k + 1..]) == segments && Placed(segments[k])
  {
  }

  lemma PlacedAndLongIsReadable(version: Version, key: bytes, segments: seq<Segment>, k: nat)
    requires AllPlaced(segments) && k <= |segments| && forall i | 0 <= i < k ::
             !TooShort(version, key, segments[i].packet)
    ensures AllReadable(version, key, segments[..k])
  {
    forall i | 0 <= i < k ensures Readable(version, key, segments[..k][i]) {
      assert Placed(segments[i]);
    }
  }

  /** What the reader makes of placed frames: the first `k` are delivered, and then comes the end. */
  ghost predicate ReadsUpTo(s: Suite, link: Link, segments: seq<Segment>, tail: bytes, k: nat, ending: Ending)
    requires s.Lawful() && k <= |segments| && AllReadable(link.version, link.key, segments[..k])
  {
    ReadAll(s, link, Wire(segments, tail)) == Decoded(s, link, segments[..k]).(ending := ending)
  }

  lemma ReadsToTheEnd(s: Suite, link: Link, segments: seq<Segment>, tail: bytes)
    requires s.Lawful() && AllReadable(link.version, link.key, segments[..|segments|]) && Quiet(tail)
    ensures ReadsUpTo(s, link, segments, tail, |segments|, if |tail| % 1028 == 0 then Drained else BrokenOff)
  {
    assert segments[..|segments|] == segments;
    StreamIsDecodedFrameByFrame(s, link, segments, tail);
  }

  lemma ReadsToTheShortFrame(s: Suite, link: Link, segments: seq<Segment>, tail: bytes, k: nat)
    requires s.Lawful() && k < |segments| && AllReadable(link.version, link.key, segments[..k])
    requires AllPlaced(segments) && TooShort(link.version, link.key, segments[k].packet)
    ensures ReadsUpTo(s, link, segments, tail, k, Aborted)
  {
    CutAt(segments, k);
    ReadingEndsAt(s, link, segments[..k], segments[k], segments[k + 1..], tail);
  }

  /**
    Over any frames in noise, of any length: the reading ends in a panic exactly at the first frame that is too short,
    if there is one, with everything before it delivered as usual; otherwise all frames are delivered and the end of the
    stream decides.
   */
  lemma ReadingEndsExactly(s: Suite, link: Link, segments: seq<Segment>, tail: bytes)
    requires s.Lawful() && AllPlaced(segments) && Quiet(tail)
    ensures var k := FirstShort(link.version, link.key, segments);
            && AllReadable(link.version, link.key, segments[..k])
            && ReadsUpTo(s, link, segments, tail, k,
                         if k < |segments| then Aborted else if |tail| % 1028 == 0 then Drained else BrokenOff)
  {
    var k := FirstShort(link.version, link.key, segments);
    PlacedAndLongIsReadable(link.version, link.key, segments, k);
    if k == |segments| {
      ReadsToTheEnd(s, link, segments, tail);
    } else {
      ReadsToTheShortFrame(s, link, segments, tail, k);
    }
  }

  // ---------------------------------------------------------------- the CRC fallback

  lemma PackedIsFramed55(s: Suite, msg: Message)
    requires s.Lawful() && msg.prefix == PREFIX_55AA && Packable(msg, None)
    ensures Framed(Packed55(s, msg, None)) && Read32(Packed55(s, msg, None)) == PREFIX_55AA
  {
    var packet := Packed55(s, msg, None);
    UnpackUndoesPack55(s, msg, None, Some(false), Repeat(0, 12));
    PackedLength(s, msg, None, Repeat(0, 12));
    ReadOfWritten(PREFIX_55AA, packet[4..]);
    assert packet == BE32(PREFIX_55AA) + packet[4..];
  }

  /**
    The first frame of a v3.4 device of undetermined type that answers with a CRC in place of the HMAC is understood,
    and the device is taken for a Device22; unless the frame is too short for an HMAC, and then the code panics before
    it tries the CRC.
   */
  lemma FirstCrcFrameIsUnderstood(s: Suite, link: Link, msg: Message, freshIv: bytes)
    requires s.Lawful() && link.version == V34 && link.devType == AutoType && |link.key| == 16
    requires msg.prefix == PREFIX_55AA && Packable(msg, None) && !Checks(s, Some(link.key), Packed55(s, msg, None))
    ensures var packet := Packed55(s, msg, None);
            && HeaderOf(packet).Ok?
            && Unpack22(s, link, packet, HeaderOf(packet).value)
               == if |packet| >= 36 then (Ok(Received(msg, Some(false), freshIv)), Device22) else (Crash, AutoType)
  {
    var packet := Packed55(s, msg, None);
    UnpackUndoesPack55(s, msg, None, Some(false), freshIv);
    PackedIsFramed55(s, msg);
    UnpackOutcome(s, packet, Some(link.key));
    if |packet| >= 36 {
      UnpackChecks(s, packet, Some(link.key));
      SameUnpacked(s, packet, None);
    }
  }

  /** What a device with CRC frames sends is such a frame, unless it is too short or the HMAC is right by accident. */
  lemma PackedCrcIsCrcInstead(s: Suite, msg: Message, key: bytes)
    requires s.Lawful() && msg.prefix == PREFIX_55AA && Packable(msg, None)
    ensures var packet := Packed55(s, msg, None);
            CrcInstead(s, key, packet) <==> |packet| >= 36 && !Checks(s, Some(key), packet)
  {
    var packet := Packed55(s, msg, None);
    PackedIsFramed55(s, msg);
    UnpackUndoesPack55(s, msg, None, Some(false), Repeat(0, 12));
    SameUnpacked(s, packet, None);
    UnpackChecks(s, packet, None);
  }

  /** A v3.4 packet with a CRC is understood, as the sign of a Device22, exactly while the type is undetermined. */
  lemma CrcFrameIsUnderstoodExactly(s: Suite, link: Link, packet: bytes)
    requires s.Lawful() && link.version == V34 && |link.key| == 16
    requires Framed(packet) && CrcInstead(s, link.key, packet)
    ensures var (d, t) := Handle(s, link, packet);
            && d.Ok?
            && if link.devType == AutoType then d.value.DevTypeReport? && t == Device22
               else d.value.PayloadReport? && t == link.devType
  {
    HandleIsExact(s, link, packet);
    SignIsReported(s, link, packet);
    PacketSwitchesOnce(s, link, packet, HeaderOf(packet).value);
    UnpackChecks(s, packet, Some(link.key));
  }

  ghost predicate AllCrc(s: Suite, key: bytes, segments: seq<Segment>) {
    forall i | 0 <= i < |segments| :: CrcInstead(s, key, segments[i].packet)
  }

  /**
    The deliveries of such packets: the first is the report of the change, if there is one to come, and all others are
    rejections.
   */
  predicate OnlyFirstUnderstood(devType: DeviceType, ds: seq<Delivery>) {
    forall i | 0 <= i < |ds| :: if devType == AutoType && i == 0 then ds[i].DevTypeReport? else ds[i].PayloadReport?
  }

  lemma OneMoreRejected(before: DeviceType, after: DeviceType, d: Delivery, ds: seq<Delivery>)
    requires after != AutoType && OnlyFirstUnderstood(after, ds)
    requires if before == AutoType then d.DevTypeReport? else d.PayloadReport?
    ensures OnlyFirstUnderstood(before, [d] + ds)
  {
  }

  lemma {:induction false} CrcFramesDecoded(s: Suite, link: Link, segments: seq<Segment>)
    requires s.Lawful() && link.version == V34 && |link.key| == 16
    requires AllReadable(V34, link.key, segments) && AllCrc(s, link.key, segments)
    ensures OnlyFirstUnderstood(link.devType, Decoded(s, link, segments).deliveries)
    decreases |segments|
  {
    if segments != [] {
      assert Readable(V34, link.key, segments[0]) && CrcInstead(s, link.key, segments[0].packet);
      CrcFrameIsUnderstoodExactly(s, link, segments[0].packet);
      var (d, t) := Handle(s, link, segments[0].packet);
      assert t != AutoType;
      CrcFramesDecoded(s, link.(devType := t), segments[1..]);
      DecodedCons(s, link, segments, d.value, t);
      OneMoreRejected(link.devType, t, d.value, Decoded(s, link.(devType := t), segments[1..]).deliveries);
    }
  }

  /**
    The switch makes such a device unintelligible: of any list of its frames, in noise, the first is reported as the
    sign of a Device22 and every other is rejected, because a Device22 of v3.4 is still read with the HMAC and no longer
    with the fallback; and if the type was determined before, all of them are rejected.
   */
  lemma OnlyTheFirstCrcFrameIsUnderstood(s: Suite, link: Link, segments: seq<Segment>, tail: bytes)
    requires s.Lawful() && link.version == V34 && |link.key| == 16 && Quiet(tail)
    requires AllReadable(V34, link.key, segments) && AllCrc(s, link.key, segments)
    ensures var got := ReadAll(s, link, Wire(segments, tail));
            |got.deliveries| == |segments| && OnlyFirstUnderstood(link.devType, got.deliveries)
  {
    StreamIsDecodedFrameByFrame(s, link, segments, tail);
    CrcFramesDecoded(s, link, segments);
  }

  /** There are such frames: with transparent primitives, any body of forty ones. */
  lemma CrcDeviceExists(seqno: u32, cmd: u32, key: Key)
    ensures var msg := Message(seqno, cmd, None, Repeat(1, 40), PREFIX_55AA, None);
            CrcInstead(PlainSuite(), key, Packed55(PlainSuite(), msg, None))
  {
    var s, msg := PlainSuite(), Message(seqno, cmd, None, Repeat(1, 40), PREFIX_55AA, None);
    var packet := Packed55(s, msg, None);
    LawsAreSatisfiable();
    PackedLength(s, msg, None, Repeat(0, 12));
    assert packet[28] == Repeat(1, 40)[12] && Repeat(0, 32)[0] == 0;
    assert packet[|packet| - 36..|packet| - 4][0] == packet[28];
    PackedCrcIsCrcInstead(s, msg, key);
  }

  // ---------------------------------------------------------------- noise that costs a frame

  lemma FrameIsFound(s: Suite, link: Link, noise: bytes, packet: bytes, tail: bytes)
    requires s.Lawful() && Quiet(noise) && Framed(packet) && !TooShort(link.version, link.key, packet)
    requires |noise| % 1028 < 1024 && Quiet(tail)
    ensures Handle(s, link, packet).0.Ok?
    ensures ReadAll(s, link, noise + (packet + tail)).deliveries == [Handle(s, link, packet).0.value]
  {
    FrameBehindNoise(s, link, noise, packet, tail);
    TrailingNoise(s, link.(devType := Handle(s, link, packet).1), tail);
  }

  lemma FrameIsLost(s: Suite, link: Link, noise: bytes, packet: bytes, tail: bytes, lost: nat)
    requires s.Lawful() && Quiet(noise) && Framed(packet) && !TooShort(link.version, link.key, packet)
    requires |noise| % 1028 >= 1024 && lost == 1028 - |noise| % 1028 && Quiet((packet + tail)[lost..])
    ensures Handle(s, link, packet).0.Ok? && ReadAll(s, link, noise + (packet + tail)).deliveries == []
  {
    HandleIsExact(s, link, packet);
    PrefixOfFrame(packet, tail);
    FrameSwallowedByWindow(s, link, noise, packet + tail, lost);
    TrailingNoise(s, link, (packet + tail)[lost..]);
  }

  lemma QuietBehind(packet: bytes, tail: bytes, lost: nat)
    requires 1 <= lost <= |packet| && Quiet(packet[1..] + tail)
    ensures Quiet((packet + tail)[lost..]) && Quiet(tail)
  {
    QuietSuffix(packet[1..] + tail, |packet| - 1);
    assert (packet[1..] + tail)[|packet| - 1..] == tail;
    QuietSuffix(packet[1..] + tail, lost - 1);
    assert (packet[1..] + tail)[lost - 1..] == (packet + tail)[lost..];
  }

  /**
    A frame among bytes that hold no other prefix, behind noise of any length: it is delivered if and only if the noise
    does not end in the last four places of a 1028-byte window, and nothing else is ever delivered.
   */
  lemma NoiseDecides(s: Suite, link: Link, noise: bytes, packet: bytes, tail: bytes)
    requires s.Lawful() && Quiet(noise) && Framed(packet) && !TooShort(link.version, link.key, packet)
    requires Quiet(packet[1..] + tail)
    ensures Handle(s, link, packet).0.Ok?
    ensures ReadAll(s, link, noise + (packet + tail)).deliveries
            == if |noise| % 1028 < 1024 then [Handle(s, link, packet).0.value] else []
  {
    var lost := if |noise| % 1028 < 1024 then 1 else 1028 - |noise| % 1028;
    QuietBehind(packet, tail, lost);
    if |noise| % 1028 < 1024 {
      FrameIsFound(s, link, noise, packet, tail);
    } else {
      FrameIsLost(s, link, noise, packet, tail, lost);
    }
  }
}
