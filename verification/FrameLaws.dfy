/**
  What the two frame formats promise: unpacking undoes packing, headers survive, return codes are
  told apart from payloads, and the exact frames on which unpacking is not total.
 */
module FrameLaws {
  import opened Bytes
  import opened Crypto
  import opened Frames

  lemma WordsOf(a: u32, b: u32, c: u32, rest: bytes)
    ensures var d := BE32(a) + (BE32(b) + (BE32(c) + rest));
            Read32(d) == a && Read32(d[4..]) == b && Read32(d[8..]) == c
  {
    var d := BE32(a) + (BE32(b) + (BE32(c) + rest));
    ReadOfWritten(a, BE32(b) + (BE32(c) + rest));
    ReadOfWritten(b, BE32(c) + rest);
    ReadOfWritten(c, rest);
    assert d[4..] == BE32(b) + (BE32(c) + rest);
    assert d[8..] == BE32(c) + rest;
  }

  lemma HeaderOf55(seqno: u32, cmd: u32, len: u32, rest: bytes)
    ensures HeaderOf(Head55(seqno, cmd, len) + rest) == Ok(Header(PREFIX_55AA, seqno, cmd, len, (len + 16) % WORD))
  {
    var d := Head55(seqno, cmd, len) + rest;
    assert d == BE32(PREFIX_55AA) + (BE32(seqno) + (BE32(cmd) + (BE32(len) + rest)));
    WordsOf(PREFIX_55AA, seqno, cmd, BE32(len) + rest);
    ReadOfWritten(len, rest);
    assert d[12..] == BE32(len) + rest;
  }

  lemma HeaderOf66(seqno: u32, cmd: u32, len: u32, rest: bytes)
    ensures HeaderOf(Head66(seqno, cmd, len) + rest) == Ok(Header(PREFIX_6699, seqno, cmd, len, (len + 22) % WORD))
  {
    var d := Head66(seqno, cmd, len) + rest;
    var tail := BE32(seqno) + (BE32(cmd) + (BE32(len) + rest));
    assert d == BE32(PREFIX_6699) + ([0, 0] + tail);
    ReadOfWritten(PREFIX_6699, [0, 0] + tail);
    assert d[6..] == tail;
    WordsOf(seqno, cmd, len, rest);
    assert d[10..] == tail[4..] && d[14..] == tail[8..];
  }

  // ---------------------------------------------------------------- round trip

  /** Messages and keys for which every length stays below 2^32 and the nonce, if given, has 12 bytes. */
  predicate Packable(msg: Message, key: Option<bytes>) {
    || (msg.prefix == PREFIX_55AA && |msg.payload| + EndLen(key) + 16 < WORD)
    || (msg.prefix == PREFIX_6699 && |Sealed(msg)| + 28 + 22 < WORD
        && key.Some? && |key.value| == 16
        && (msg.iv.Some? ==> |msg.iv.value| == 12))
  }

  /** What a reader gets for a packed message, given how it looks for a return code. */
  function Received(msg: Message, noRetcode: Option<bool>, freshIv: bytes): Message {
    if msg.prefix == PREFIX_55AA then
      var (retcode, payload) := Split55(noRetcode, msg.payload);
      msg.(retcode := retcode, payload := payload, iv := None)
    else
      var (retcode, payload) := Split66(noRetcode, Sealed(msg));
      msg.(retcode := retcode, payload := payload, iv := Some(if msg.iv.Some? then msg.iv.value else freshIv))
  }

  lemma Cut(a: bytes, b: bytes, c: bytes, d: bytes)
    ensures var x := a + b + c + d;
            && x == a + (b + c + d)
            && |x| == |a| + |b| + |c| + |d|
            && x[..|a| + |b|] == a + b
            && x[|a|..|a| + |b|] == b
            && x[|a| + |b|..|x| - |d|] == c
            && x[|a|..|x| - |d|] == b + c
  {
  }

  /** A frame with any 16-byte head: the body is cut where the trailer begins. */
  lemma Body55(s: Suite, head: bytes, body: bytes, key: Option<bytes>, h: Header, noRetcode: Option<bool>)
    requires s.Lawful() && |head| == 16 && h.totalLength == 16 + |body| + EndLen(key)
    ensures var data := head + body + Checksum(s, key, head + body) + BE32(SUFFIX_55AA);
            && |data| == h.totalLength
            && Unpacked55(s, data, key, h, noRetcode)
               == Ok(Message(h.seqno, h.cmd, Split55(noRetcode, body).0, Split55(noRetcode, body).1, h.prefix, None))
  {
    var check := Checksum(s, key, head + body);
    assert |check| == EndLen(key) - 4;
    Cut(head, body, check, BE32(SUFFIX_55AA));
  }

  /** A frame with any 18-byte head: the nonce, the sealed text and the authenticated head are cut out again. */
  lemma Body66(s: Suite, head: bytes, raw: bytes, key: Key, iv: bytes, h: Header, noRetcode: Option<bool>)
    requires s.Lawful() && |head| == 18 && |iv| == 12 && h.totalLength == 50 + |raw|
    ensures var data := head + (iv + s.gcmSeal(key, iv, head[4..], raw)) + BE32(SUFFIX_6699);
            && |data| == h.totalLength
            && Unpacked66(s, data, Some(key), h, noRetcode)
               == Ok(Message(h.seqno, h.cmd, Split66(noRetcode, raw).0, Split66(noRetcode, raw).1, h.prefix, Some(iv)))
  {
    var sealed := s.gcmSeal(key, iv, head[4..], raw);
    var data := head + (iv + sealed) + BE32(SUFFIX_6699);
    assert data == head + iv + sealed + BE32(SUFFIX_6699);
    Cut(head, iv, sealed, BE32(SUFFIX_6699));
    var inner := data[18..|data| - 4];
    assert inner == iv + sealed;
    assert inner[..12] == iv && inner[12..] == sealed && data[4..18] == head[4..];
    assert iv[..12] == iv;
  }

  lemma Unpack55(s: Suite, seqno: u32, cmd: u32, body: bytes, key: Option<bytes>, noRetcode: Option<bool>)
    requires s.Lawful() && |body| + EndLen(key) + 16 < WORD
    ensures var len := |body| + EndLen(key);
            var front := Head55(seqno, cmd, len) + body;
            var data := front + Checksum(s, key, front) + BE32(SUFFIX_55AA);
            && HeaderOf(data) == Ok(Header(PREFIX_55AA, seqno, cmd, len, |data|))
            && Unpacked55(s, data, key, HeaderOf(data).value, noRetcode)
               == Ok(Message(seqno, cmd, Split55(noRetcode, body).0, Split55(noRetcode, body).1, PREFIX_55AA, None))
  {
    var len := |body| + EndLen(key);
    var head := Head55(seqno, cmd, len);
    var check := Checksum(s, key, head + body);
    var data := head + body + check + BE32(SUFFIX_55AA);
    assert (len + 16) % WORD == len + 16;
    assert data == head + (body + check + BE32(SUFFIX_55AA));
    HeaderOf55(seqno, cmd, len, body + check + BE32(SUFFIX_55AA));
    Body55(s, head, body, key, HeaderOf(data).value, noRetcode);
  }

  lemma UnpackUndoesPack55(s: Suite, msg: Message, key: Option<bytes>, noRetcode: Option<bool>, freshIv: bytes)
    requires s.Lawful() && msg.prefix == PREFIX_55AA && Packable(msg, key)
    ensures var data := Packed55(s, msg, key);
            && HeaderOf(data).Ok? && HeaderOf(data).value.totalLength == |data|
            && Unpacked(s, data, key, None, noRetcode) == Ok(Received(msg, noRetcode, freshIv))
  {
    var len := |msg.payload| + EndLen(key);
    assert len % WORD == len;
    var front := Head55(msg.seqno, msg.cmd, len) + msg.payload;
    var data := Packed55(s, msg, key);
    assert data == front + Checksum(s, key, front) + BE32(SUFFIX_55AA);
    Unpack55(s, msg.seqno, msg.cmd, msg.payload, key, noRetcode);
    assert Unpacked(s, data, key, None, noRetcode) == Unpacked55(s, data, key, HeaderOf(data).value, noRetcode);
  }

  lemma Unpack66(s: Suite, seqno: u32, cmd: u32, raw: bytes, key: Key, iv: bytes, noRetcode: Option<bool>)
    requires s.Lawful() && |raw| + 28 + 22 < WORD && |iv| == 12
    ensures var head := Head66(seqno, cmd, 28 + |raw|);
            var data := head + (iv + s.gcmSeal(key, iv, head[4..], raw)) + BE32(SUFFIX_6699);
            && HeaderOf(data) == Ok(Header(PREFIX_6699, seqno, cmd, 28 + |raw|, |data|))
            && Unpacked66(s, data, Some(key), HeaderOf(data).value, noRetcode)
               == Ok(Message(seqno, cmd, Split66(noRetcode, raw).0, Split66(noRetcode, raw).1, PREFIX_6699, Some(iv)))
  {
    var head := Head66(seqno, cmd, 28 + |raw|);
    var sealed := s.gcmSeal(key, iv, head[4..], raw);
    var data := head + (iv + sealed) + BE32(SUFFIX_6699);
    assert data == head + ((iv + sealed) + BE32(SUFFIX_6699));
    HeaderOf66(seqno, cmd, 28 + |raw|, (iv + sealed) + BE32(SUFFIX_6699));
    Body66(s, head, raw, key, iv, HeaderOf(data).value, noRetcode);
  }

  lemma Packed66Shape(s: Suite, msg: Message, key: Key, freshIv: bytes)
    requires s.Lawful() && |Sealed(msg)| + 28 + 22 < WORD && |freshIv| == 12 && (msg.iv.Some? ==> |msg.iv.value| == 12)
    ensures var iv := if msg.iv.Some? then msg.iv.value else freshIv;
            var head := Head66(msg.seqno, msg.cmd, 28 + |Sealed(msg)|);
            Packed66(s, msg, key, freshIv) == Ok(head + (iv + s.gcmSeal(key, iv, head[4..],
                Sealed(msg))) + BE32(SUFFIX_6699))
  {
    var iv := if msg.iv.Some? then msg.iv.value else freshIv;
    assert iv[..12] == iv;
    assert (12 + |Sealed(msg)| + 16) % WORD == 28 + |Sealed(msg)|;
  }

  lemma UnpackUndoesPack66(s: Suite, msg: Message, key: bytes, noRetcode: Option<bool>, freshIv: bytes)
    requires s.Lawful() && msg.prefix == PREFIX_6699 && Packable(msg, Some(key)) && |freshIv| == 12
    ensures var data := Packed66(s, msg, key, freshIv);
            && data.Ok? && HeaderOf(data.value).Ok? && HeaderOf(data.value).value.totalLength == |data.value|
            && Unpacked(s, data.value, Some(key), None, noRetcode) == Ok(Received(msg, noRetcode, freshIv))
  {
    var iv := if msg.iv.Some? then msg.iv.value else freshIv;
    Packed66Shape(s, msg, key, freshIv);
    Unpack66(s, msg.seqno, msg.cmd, Sealed(msg), key, iv, noRetcode);
  }

  /**
    Unpacking undoes packing, in both formats and under either checksum: sequence number, command and
    prefix come back, and the body is cut exactly where the reader's return-code rule says.
   */
  lemma UnpackUndoesPack(s: Suite, msg: Message, key: Option<bytes>, noRetcode: Option<bool>, freshIv: bytes)
    requires s.Lawful() && Packable(msg, key) && |freshIv| == 12
    ensures var data := Packed(s, msg, key, freshIv);
            && data.Ok? && HeaderOf(data.value).Ok? && HeaderOf(data.value).value.totalLength == |data.value|
            && Unpacked(s, data.value, key, None, noRetcode) == Ok(Received(msg, noRetcode, freshIv))
  {
    if msg.prefix == PREFIX_55AA {
      UnpackUndoesPack55(s, msg, key, noRetcode, freshIv);
    } else {
      UnpackUndoesPack66(s, msg, key.value, noRetcode, freshIv);
    }
  }

  lemma PackedLength(s: Suite, msg: Message, key: Option<bytes>, freshIv: bytes)
    requires s.Lawful() && Packable(msg, key) && |freshIv| == 12
    ensures var data := Packed(s, msg, key, freshIv);
            data.Ok? && |data.value| == if msg.prefix == PREFIX_55AA then 16 + |msg.payload| + EndLen(key)
                else 50 + |Sealed(msg)|
  {
  }

  /**
    When the reader is told whether a return code was written, the whole message comes back. A 55AA
    frame never writes one, so there the code has to be the first four bytes of the payload.
   */
  lemma ToldReaderRecoversMessage(s: Suite, msg: Message, key: Option<bytes>, freshIv: bytes)
    requires s.Lawful() && Packable(msg, key) && |freshIv| == 12
    requires msg.prefix == PREFIX_55AA ==> msg.retcode.None? && msg.iv.None?
    requires msg.prefix == PREFIX_6699 ==> msg.iv.Some?
    ensures var data := Packed(s, msg, key, freshIv);
            data.Ok? && Unpacked(s, data.value, key, None, Some(msg.retcode.None?)) == Ok(msg)
  {
    UnpackUndoesPack(s, msg, key, Some(msg.retcode.None?), freshIv);
    if msg.prefix == PREFIX_6699 {
      var raw := Sealed(msg);
      if msg.retcode.Some? {
        ReadOfWritten(msg.retcode.value, msg.payload);
        assert raw[4..] == msg.payload;
      } else {
        assert raw == msg.payload;
      }
    }
  }

  /** A return code in front of a 55AA payload is read back by the reader that expects one. */
  lemma LeadingRetcodeIsRead(rc: u32, payload: bytes)
    ensures Split55(Some(false), BE32(rc) + payload) == (Some(rc), payload)
    ensures Split66(Some(false), BE32(rc) + payload) == (Some(rc), payload)
  {
    ReadOfWritten(rc, payload);
    assert (BE32(rc) + payload)[4..] == payload;
  }

  // ---------------------------------------------------------------- automatic return codes

  /**
    55AA: a code in front of a body is split off exactly when its first byte is 0, or is neither `{` nor `3` and the
    body is not empty.
   */
  lemma AutoSplit55(rc: u32, body: bytes)
    ensures var first := rc / 0x100_0000;
            Split55(None, BE32(rc) + body) == (Some(rc), body)
            <==> (first == 0 || (first != BRACE && first != THREE && body != []))
  {
    ReadOfWritten(rc, body);
    var b := BE32(rc) + body;
    assert b[4..] == body && b[0] == rc / 0x100_0000;
  }

  /**
    55AA: a body sent without a code is kept whole exactly when it is shorter than 4 bytes, starts with `{` or `3`, or
    is 4 bytes not starting with 0.
   */
  lemma AutoKeep55(body: bytes)
    ensures Split55(None, body) == (None, body)
            <==> (|body| < 4 || body[0] == BRACE || body[0] == THREE || (|body| == 4 && body[0] != 0))
  {
  }

  /**
    6699: a code in front of a body is split off exactly when its first byte is not `{` and the body starts with `{` or
    `3`.
   */
  lemma AutoSplit66(rc: u32, body: bytes)
    ensures Split66(None, BE32(rc) + body) == (Some(rc), body)
            <==> (rc / 0x100_0000 != BRACE && body != [] && (body[0] == BRACE || body[0] == THREE))
  {
    ReadOfWritten(rc, body);
    var b := BE32(rc) + body;
    assert b[4..] == body && b[0] == rc / 0x100_0000;
    if body != [] {
      assert b[4] == body[0];
    }
  }

  /**
    6699: a body sent without a code is kept whole exactly when it has at most 4 bytes, starts with `{`, or has neither
    `{` nor `3` as its fifth byte.
   */
  lemma AutoKeep66(body: bytes)
    ensures Split66(None, body) == (None, body)
            <==> (|body| <= 4 || body[0] == BRACE || (body[4] != BRACE && body[4] != THREE))
  {
  }

  /** So a body behind a full version header, a tag and twelve zero bytes, is kept whole. */
  lemma HeaderedIsKept66(tag: bytes, rest: bytes)
    requires |tag| == 3
    ensures Split66(None, tag + Repeat(0, 12) + rest) == (None, tag + Repeat(0, 12) + rest)
  {
    var body := tag + Repeat(0, 12) + rest;
    assert body[4] == Repeat(0, 12)[1];
  }

  // ---------------------------------------------------------------- totality

  /** The frame is complete as far as its header says, and its length field makes an offset or a slice go wrong. */
  predicate BadLength(h: Header, key: Option<bytes>) {
    if h.prefix == PREFIX_55AA then
      if key.Some? then h.payloadLen < 20 || h.payloadLen >= WORD - 16 else WORD - 16 <= h.payloadLen < WORD - 8
    else key.Some? && h.payloadLen >= WORD - 22
  }

  lemma Unpack55Panics(s: Suite, data: bytes, key: Option<bytes>, noRetcode: Option<bool>)
    requires s.Lawful() && HeaderOf(data).Ok? && HeaderOf(data).value.prefix == PREFIX_55AA
    ensures var h := HeaderOf(data).value;
            Unpacked(s, data, key, None, noRetcode).Crash? <==> |data| >= h.totalLength && BadLength(h, key)
  {
    var h := HeaderOf(data).value;
    assert h.totalLength == if h.payloadLen < WORD - 16 then h.payloadLen + 16 else h.payloadLen + 16 - WORD;
  }

  lemma Unpack66Panics(s: Suite, data: bytes, key: Option<bytes>, noRetcode: Option<bool>)
    requires s.Lawful() && HeaderOf(data).Ok? && HeaderOf(data).value.prefix == PREFIX_6699
    ensures var h := HeaderOf(data).value;
            Unpacked(s, data, key, None, noRetcode).Crash? <==> |data| >= h.totalLength && BadLength(h, key)
  {
    var h := HeaderOf(data).value;
    assert h.totalLength == if h.payloadLen < WORD - 22 then h.payloadLen + 22 else h.payloadLen + 22 - WORD;
    if key.Some? && h.totalLength >= 22 && h.totalLength <= |data| {
      var inner := data[18..h.totalLength - 4];
      if |inner| >= 28 && |key.value| == 16 {
        assert !Decrypt(s, key.value, inner[12..], false, Some(inner[..12]), Some(data[4..18])).Crash?;
      }
    }
  }

  /**
    Unpacking a byte string by the header it carries panics exactly when the header can be read, the frame is complete,
    and its length field wraps a sum past 2^32 or, with an HMAC key, leaves no room for the 36-byte trailer.
   */
  lemma UnpackPanicsExactly(s: Suite, data: bytes, key: Option<bytes>, noRetcode: Option<bool>)
    requires s.Lawful()
    ensures Unpacked(s, data, key, None, noRetcode).Crash?
            <==> && HeaderOf(data).Ok?
                 && |data| >= HeaderOf(data).value.totalLength
                 && BadLength(HeaderOf(data).value, key)
  {
    if HeaderOf(data).Ok? {
      if HeaderOf(data).value.prefix == PREFIX_55AA {
        Unpack55Panics(s, data, key, noRetcode);
      } else {
        Unpack66Panics(s, data, key, noRetcode);
      }
    }
  }

  /** The shortest such frame is a bare 55AA header that announces nothing. */
  lemma BareHeaderPanics(s: Suite, seqno: u32, cmd: u32, key: bytes, noRetcode: Option<bool>)
    requires s.Lawful()
    ensures |Head55(seqno, cmd, 0)| == 16 && Unpacked(s, Head55(seqno, cmd, 0), Some(key), None, noRetcode).Crash?
  {
    assert Head55(seqno, cmd, 0) + [] == Head55(seqno, cmd, 0);
    HeaderOf55(seqno, cmd, 0, []);
    UnpackPanicsExactly(s, Head55(seqno, cmd, 0), Some(key), noRetcode);
  }
}
