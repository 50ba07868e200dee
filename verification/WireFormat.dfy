/**
  The bytes on the wire, place by place: what a peer that knows only the format finds in a frame, and what the parser
  makes of any bytes. Words are written out as sums, texts and numbers as literals.
 */
module WireFormat {
  import opened Bytes
  import opened Crypto
  import opened Frames
  import opened FrameLaws
  import opened Payloads

  /** The four bytes at `i`, the most significant first, make the number `n`. */
  predicate WordAt(b: bytes, i: int, n: int) {
    && 0 <= i && i + 4 <= |b|
    && b[i] as int * 0x100_0000 + b[i + 1] as int * 0x1_0000 + b[i + 2] as int * 0x100 + b[i + 3] == n
  }

  lemma WordIsRead(b: bytes, i: nat)
    requires i + 4 <= |b|
    ensures forall n :: WordAt(b, i, n) <==> Read32(b[i..]) == n
  {
  }

  lemma WordIsWritten(a: bytes, n: u32, c: bytes)
    ensures WordAt(a + (BE32(n) + c), |a|, n)
  {
    var b := a + (BE32(n) + c);
    ReadOfWritten(n, c);
    WordIsRead(b, |a|);
    assert b[|a|..] == BE32(n) + c;
  }

  // ---------------------------------------------------------------- frames as they are written

  /** Checksum and suffix together. */
  function TrailerLength(key: Option<bytes>): nat {
    if key.Some? then 36 else 8
  }

  /**
    The 55AA trailer in front of the suffix is right: the HMAC under the key, or the CRC, of all that stands before it.
   */
  predicate TrailerIsRight(s: Suite, key: Option<bytes>, frame: bytes)
    requires |frame| >= TrailerLength(key)
  {
    var n := |frame|;
    if key.Some? then frame[n - 36..n - 4] == s.hmac(key.value, frame[..n - 36])
    else WordAt(frame, n - 8, s.crc(frame[..n - 8]))
  }

  lemma Head55Words(seqno: u32, cmd: u32, len: u32, rest: bytes)
    ensures var d := Head55(seqno, cmd, len) + rest;
            WordAt(d, 0, 0x55AA) && WordAt(d, 4, seqno) && WordAt(d, 8, cmd) && WordAt(d, 12, len)
  {
    var d := Head55(seqno, cmd, len) + rest;
    var c3 := BE32(len) + rest;
    var c2 := BE32(cmd) + c3;
    var c1 := BE32(seqno) + c2;
    assert d == [] + (BE32(PREFIX_55AA) + c1);
    WordIsWritten([], PREFIX_55AA, c1);
    assert d == BE32(PREFIX_55AA) + c1;
    WordIsWritten(BE32(PREFIX_55AA), seqno, c2);
    assert d == BE32(PREFIX_55AA) + BE32(seqno) + c2;
    WordIsWritten(BE32(PREFIX_55AA) + BE32(seqno), cmd, c3);
    assert d == BE32(PREFIX_55AA) + BE32(seqno) + BE32(cmd) + c3;
    WordIsWritten(BE32(PREFIX_55AA) + BE32(seqno) + BE32(cmd), len, rest);
  }

  lemma Head66Words(seqno: u32, cmd: u32, len: u32, rest: bytes)
    ensures var d := Head66(seqno, cmd, len) + rest;
            && WordAt(d, 0, 0x6699) && d[4..6] == [0, 0]
            && WordAt(d, 6, seqno) && WordAt(d, 10, cmd) && WordAt(d, 14, len)
  {
    var d := Head66(seqno, cmd, len) + rest;
    var c3 := BE32(len) + rest;
    var c2 := BE32(cmd) + c3;
    var c1 := BE32(seqno) + c2;
    var front := BE32(PREFIX_6699) + [0, 0];
    assert d == [] + (BE32(PREFIX_6699) + ([0, 0] + c1));
    WordIsWritten([], PREFIX_6699, [0, 0] + c1);
    assert d == front + c1;
    WordIsWritten(front, seqno, c2);
    assert d == front + BE32(seqno) + c2;
    WordIsWritten(front + BE32(seqno), cmd, c3);
    assert d == front + BE32(seqno) + BE32(cmd) + c3;
    WordIsWritten(front + BE32(seqno) + BE32(cmd), len, rest);
  }

  lemma Slices55(head: bytes, payload: bytes, check: bytes)
    ensures var d := head + payload + check + BE32(SUFFIX_55AA);
            && |d| == |head| + |payload| + |check| + 4
            && d == head + (payload + check + BE32(SUFFIX_55AA)) == head + payload + (check + BE32(SUFFIX_55AA))
            && d[|head|..|head| + |payload|] == payload && d[..|head| + |payload|] == head + payload
            && d[|head| + |payload|..|d| - 4] == check && WordAt(d, |d| - 4, 0xAA55)
  {
    var d := head + payload + check + BE32(SUFFIX_55AA);
    Cut(head, payload, check, BE32(SUFFIX_55AA));
    assert d == head + payload + check + (BE32(SUFFIX_55AA) + []);
    WordIsWritten(head + payload + check, SUFFIX_55AA, []);
  }

  /**
    A 55AA frame: prefix, sequence number, command, the length of all that follows modulo 2^32, the payload, the HMAC of
    everything before it under the key, or without one the CRC, and the suffix.
   */
  lemma Layout55(s: Suite, msg: Message, key: Option<bytes>)
    requires s.Lawful()
    ensures var d, n := Packed55(s, msg, key), |msg.payload|;
            && |d| == 16 + n + TrailerLength(key)
            && WordAt(d, 0, 0x55AA) && WordAt(d, 4, msg.seqno) && WordAt(d, 8, msg.cmd)
            && WordAt(d, 12, (n + TrailerLength(key)) % 0x1_0000_0000)
            && d[16..16 + n] == msg.payload
            && TrailerIsRight(s, key, d)
            && WordAt(d, |d| - 4, 0xAA55)
  {
    var len := (|msg.payload| + TrailerLength(key)) % WORD;
    var head := Head55(msg.seqno, msg.cmd, len);
    var check := if key.Some? then s.hmac(key.value, head + msg.payload) else BE32(s.crc(head + msg.payload));
    assert Packed55(s, msg, key) == head + msg.payload + check + BE32(SUFFIX_55AA);
    Slices55(head, msg.payload, check);
    Head55Words(msg.seqno, msg.cmd, len, msg.payload + check + BE32(SUFFIX_55AA));
    if key.None? {
      WordIsWritten(head + msg.payload, s.crc(head + msg.payload), BE32(SUFFIX_55AA));
    }
  }

  /** What a 6699 frame seals: the return code, if there is one, as a word in front of the payload. */
  predicate IsPlaintext(msg: Message, raw: bytes) {
    if msg.retcode.Some? then |raw| == 4 + |msg.payload| && WordAt(raw, 0, msg.retcode.value) && raw[4..] == msg.payload
    else raw == msg.payload
  }

  lemma SealedIsPlaintext(msg: Message)
    ensures IsPlaintext(msg, Sealed(msg))
  {
    if msg.retcode.Some? {
      WordIsWritten([], msg.retcode.value, msg.payload);
      assert Sealed(msg) == [] + (BE32(msg.retcode.value) + msg.payload);
    } else {
      assert Sealed(msg) == msg.payload;
    }
  }

  lemma Slices66(head: bytes, iv: bytes, body: bytes)
    requires |head| == 18 && |iv| == 12
    ensures var d := head + (iv + body) + BE32(SUFFIX_6699);
            && |d| == 34 + |body| && d == head + (iv + body + BE32(SUFFIX_6699))
            && d[4..18] == head[4..] && d[18..30] == iv && d[30..|d| - 4] == body && WordAt(d, |d| - 4, 0x9966)
  {
    var d := head + (iv + body) + BE32(SUFFIX_6699);
    assert d == head + iv + body + (BE32(SUFFIX_6699) + []);
    WordIsWritten(head + iv + body, SUFFIX_6699, []);
  }

  lemma PartsOf66(s: Suite, msg: Message, key: Key, freshIv: bytes, iv: bytes, head: bytes, body: bytes)
    requires |iv| == 12 && iv == (if msg.iv.Some? then msg.iv.value else freshIv)
    requires head == Head66(msg.seqno, msg.cmd, (28 + |Sealed(msg)|) % WORD)
    requires body == s.gcmSeal(key, iv, head[4..], Sealed(msg))
    ensures Packed66(s, msg, key, freshIv) == Ok(head + (iv + body) + BE32(SUFFIX_6699))
  {
    assert iv[..12] == iv;
  }

  /**
    A 6699 frame: prefix, two zero bytes, sequence number, command, the length of nonce and sealed text modulo 2^32, the
    nonce, the return code and payload sealed under the key and that nonce with the bytes from 4 to 18 authenticated,
    and the suffix.
   */
  lemma Layout66(s: Suite, msg: Message, key: Key, freshIv: bytes)
    requires s.Lawful() && |freshIv| == 12 && (msg.iv.Some? ==> |msg.iv.value| == 12)
    ensures Packed66(s, msg, key, freshIv).Ok?
    ensures var d, n := Packed66(s, msg, key, freshIv).value, |Sealed(msg)|;
            && |d| == 50 + n && IsPlaintext(msg, Sealed(msg))
            && WordAt(d, 0, 0x6699) && d[4..6] == [0, 0]
            && WordAt(d, 6, msg.seqno) && WordAt(d, 10, msg.cmd) && WordAt(d, 14, (28 + n) % 0x1_0000_0000)
            && d[18..30] == (if msg.iv.Some? then msg.iv.value else freshIv)
            && d[30..|d| - 4] == s.gcmSeal(key, d[18..30], d[4..18], Sealed(msg))
            && WordAt(d, |d| - 4, 0x9966)
  {
    var raw := Sealed(msg);
    var iv := if msg.iv.Some? then msg.iv.value else freshIv;
    var head := Head66(msg.seqno, msg.cmd, (28 + |raw|) % WORD);
    var body := s.gcmSeal(key, iv, head[4..], raw);
    SealedIsPlaintext(msg);
    PartsOf66(s, msg, key, freshIv, iv, head, body);
    Slices66(head, iv, body);
    Head66Words(msg.seqno, msg.cmd, (28 + |raw|) % WORD, iv + body + BE32(SUFFIX_6699));
  }

  /** When packing fails, and how: only a 6699 message without a key of 16 bytes, or with a nonce too short. */
  lemma PackFailsExactly(s: Suite, msg: Message, key: Option<bytes>, freshIv: bytes)
    requires |freshIv| == 12
    ensures var r := Packed(s, msg, key, freshIv);
            var keyed := key.Some? && |key.value| == 16;
            && (r.Err? <==> msg.prefix == 0x6699 && !keyed) && (r.Err? ==> r.error == EncryptionFailed)
            && (r.Crash? <==> msg.prefix == 0x6699 && keyed && msg.iv.Some? && |msg.iv.value| < 12)
            && (r == Ok([]) <==> msg.prefix != 0x55AA && msg.prefix != 0x6699)
  {
  }

  // ---------------------------------------------------------------- frames as they are read

  /**
    The header is read exactly where the format puts it, and not read exactly from too few bytes or a foreign prefix.
   */
  lemma HeaderIsReadExactly(d: bytes)
    ensures HeaderOf(d).Ok? <==> (|d| >= 16 && WordAt(d, 0, 0x55AA)) || (|d| >= 18 && WordAt(d, 0, 0x6699))
    ensures !HeaderOf(d).Ok? ==>
              HeaderOf(d) == Err(if |d| < 16 || WordAt(d, 0, 0x6699) then DecodeError else InvalidHeader)
    ensures HeaderOf(d).Ok? ==>
              var h := HeaderOf(d).value;
              var wide := if h.prefix == 0x6699 then 2 else 0;
              && WordAt(d, 0, h.prefix) && WordAt(d, 4 + wide, h.seqno) && WordAt(d, 8 + wide, h.cmd)
              && WordAt(d, 12 + wide, h.payloadLen)
              && h.totalLength == (h.payloadLen + if h.prefix == 0x6699 then 22 else 16) % 0x1_0000_0000
  {
    if |d| >= 16 {
      WordIsRead(d, 0);
      assert d[0..] == d;
      WordIsRead(d, 4);
      WordIsRead(d, 8);
      WordIsRead(d, 12);
      WordIsRead(d, 6);
      WordIsRead(d, 10);
      if |d| >= 18 {
        WordIsRead(d, 14);
      }
    }
  }

  /**
    A 55AA frame that is all there: accepted exactly with the right trailer, and otherwise refused for what is wrong.
   */
  lemma Verdict55(s: Suite, d: bytes, key: Option<bytes>, noRetcode: Option<bool>)
    requires s.Lawful() && HeaderOf(d).Ok? && WordAt(d, 0, 0x55AA)
    requires HeaderOf(d).value.totalLength == |d| >= TrailerLength(key)
    ensures var r, h := Unpacked(s, d, key, None, noRetcode), HeaderOf(d).value;
            if |d| < 16 + TrailerLength(key) then r == Err(DecodeError)
            else if !TrailerIsRight(s, key, d) then r == Err(if key.Some? then HmacMismatch else CrcMismatch)
            else
              && r.Ok? && r.value.seqno == h.seqno && r.value.cmd == h.cmd
              && r.value.prefix == 0x55AA && r.value.iv == None
              && (r.value.retcode, r.value.payload) == Split55(noRetcode, d[16..|d| - TrailerLength(key)])
  {
    HeaderIsReadExactly(d);
    WordIsRead(d, 0);
    assert d[0..] == d;
    if key.None? && |d| >= 24 {
      var n := |d|;
      WordIsRead(d, n - 8);
      ReadOfWritten(s.crc(d[..n - 8]), []);
      WrittenOfRead(d[n - 8..n - 4]);
      assert Read32(d[n - 8..]) == Read32(d[n - 8..n - 4]);
      assert BE32(s.crc(d[..n - 8])) + [] == BE32(s.crc(d[..n - 8]));
    }
  }

  /** A 6699 frame that is all there: accepted exactly if its body opens, and otherwise refused for what is wrong. */
  lemma Verdict66(s: Suite, d: bytes, key: Option<bytes>, noRetcode: Option<bool>)
    requires s.Lawful() && HeaderOf(d).Ok? && WordAt(d, 0, 0x6699)
    requires HeaderOf(d).value.totalLength == |d| >= 22
    ensures var r, h := Unpacked(s, d, key, None, noRetcode), HeaderOf(d).value;
            if key.None? then r == Err(EncryptionFailed)
            else if |d| < 50 then r == Err(InvalidPayload)
            else if |key.value| != 16 then r == Err(EncryptionFailed)
            else
              match s.gcmOpen(key.value, d[18..30], d[4..18], d[30..|d| - 4])
              case None => r == Err(DecryptionFailed)
              case Some(raw) =>
                && r.Ok? && r.value.seqno == h.seqno && r.value.cmd == h.cmd && r.value.prefix == 0x6699
                && r.value.iv == Some(d[18..30])
                && (r.value.retcode, r.value.payload) == Split66(noRetcode, raw)
  {
    HeaderIsReadExactly(d);
    WordIsRead(d, 0);
    assert d[0..] == d;
    if key.Some? && |d| >= 50 && |key.value| == 16 {
      var inner := d[18..|d| - 4];
      assert inner[12..] == d[30..|d| - 4] && inner[..12] == d[18..30];
      assert inner[..12][..12] == inner[..12];
    }
  }

  lemma HeaderIgnoresTheRest(d: bytes, rest: bytes)
    requires HeaderOf(d).Ok?
    ensures HeaderOf(d + rest) == HeaderOf(d)
  {
    assert Read32(d + rest) == Read32(d);
    assert Read32((d + rest)[4..]) == Read32(d[4..]) && Read32((d + rest)[8..]) == Read32(d[8..]);
    assert Read32((d + rest)[12..]) == Read32(d[12..]);
    if Read32(d) == PREFIX_6699 {
      assert Read32((d + rest)[6..]) == Read32(d[6..]) && Read32((d + rest)[10..]) == Read32(d[10..]);
      assert Read32((d + rest)[14..]) == Read32(d[14..]);
    }
  }

  lemma RestOf55(s: Suite, d: bytes, rest: bytes, key: Option<bytes>, h: Header, noRetcode: Option<bool>)
    requires h.totalLength == |d|
    ensures Unpacked55(s, d + rest, key, h, noRetcode) == Unpacked55(s, d, key, h, noRetcode)
  {
    var n := EndLen(key);
    if |d| >= n + 16 {
      assert (d + rest)[|d| - n..|d| - 4] == d[|d| - n..|d| - 4] && (d + rest)[..|d| - n] == d[..|d| - n];
      assert (d + rest)[16..|d| - n] == d[16..|d| - n];
    }
  }

  lemma RestOf66(s: Suite, d: bytes, rest: bytes, key: Option<bytes>, h: Header, noRetcode: Option<bool>)
    requires h.totalLength == |d|
    ensures Unpacked66(s, d + rest, key, h, noRetcode) == Unpacked66(s, d, key, h, noRetcode)
  {
    if |d| >= 22 {
      assert (d + rest)[18..|d| - 4] == d[18..|d| - 4] && (d + rest)[4..18] == d[4..18];
    }
  }

  /** Bytes behind a whole frame are not looked at. */
  lemma RestIsNotRead(s: Suite, d: bytes, rest: bytes, key: Option<bytes>, noRetcode: Option<bool>)
    requires HeaderOf(d).Ok? && HeaderOf(d).value.totalLength == |d|
    ensures Unpacked(s, d + rest, key, None, noRetcode) == Unpacked(s, d, key, None, noRetcode)
  {
    HeaderIgnoresTheRest(d, rest);
    RestOf55(s, d, rest, key, HeaderOf(d).value, noRetcode);
    RestOf66(s, d, rest, key, HeaderOf(d).value, noRetcode);
  }

  /** Bytes that are not a whole frame are refused. */
  lemma WholeFramesOnly(s: Suite, d: bytes, key: Option<bytes>, noRetcode: Option<bool>)
    requires s.Lawful()
    ensures HeaderOf(d).Err? ==> Unpacked(s, d, key, None, noRetcode) == Err(HeaderOf(d).error)
    ensures HeaderOf(d).Ok? && |d| < HeaderOf(d).value.totalLength ==>
              Unpacked(s, d, key, None, noRetcode) == Err(DecodeError)
  {
  }

  /** A reader that is told whether there is a return code obeys, as far as there are four bytes for one. */
  lemma ToldIsObeyed(body: bytes)
    ensures Split55(Some(true), body) == Split66(Some(true), body) == (None, body)
    ensures |body| < 4 ==> Split55(Some(false), body) == Split66(Some(false), body) == (None, body)
    ensures |body| >= 4 ==>
              var (code, rest) := Split55(Some(false), body);
              && Split66(Some(false), body) == (code, rest)
              && code.Some? && WordAt(body, 0, code.value) && rest == body[4..]
  {
    if |body| >= 4 {
      WordIsRead(body, 0);
      assert body[0..] == body;
    }
  }

  // ---------------------------------------------------------------- payloads as they are written

  /** The commands whose payload is sent without a version header. */
  predicate Bare(cmd: u32) {
    cmd in {0x03, 0x04, 0x05, 0x09, 0x0A, 0x10, 0x12, 0x40}
  }

  /** "3.", the digit of the version, and twelve zero bytes. */
  predicate IsVersionHeader(b: bytes, digit: byte) {
    b == [0x33, 0x2E, digit, 0, 0, 0, 0, 0, 0, 0, 0, 0, 0, 0, 0]
  }

  lemma HeaderIsWritten(v: Version, payload: bytes, digit: byte)
    requires digit == match v case V31 => 0x31 case V32 => 0x32 case V33 => 0x33 case V34 => 0x34 case V35 => 0x35
                              case AutoVersion => 0x33
    ensures var b := AddHeader(v, payload);
            |b| == 15 + |payload| && IsVersionHeader(b[..15], digit) && b[15..] == payload
  {
    var b := AddHeader(v, payload);
    assert Repeat(0, 12) == [0, 0, 0, 0, 0, 0, 0, 0, 0, 0, 0, 0];
    assert b[..15] == Tag(v) + Repeat(0, 12);
  }

  /** v3.2 and v3.3: the sealed payload, behind a version header unless the command goes bare. */
  lemma PayloadLayout3233(s: Suite, v: Version, payload: bytes, cmd: u32, key: Key)
    requires s.Lawful() && (v == V32 || v == V33)
    ensures var b := PackPayload(s, v, payload, cmd, key);
            var sealed := Encrypt(s, key, payload, false, None, None, true);
            && sealed.Ok?
            && if Bare(cmd) then b == sealed.value
               else |b| >= 15 && IsVersionHeader(b[..15], if v == V32 then 0x32 else 0x33) && b[15..] == sealed.value
  {
    HeaderIsWritten(v, EcbSeal(s, key, payload), if v == V32 then 0x32 else 0x33);
  }

  /** v3.4: the payload, behind a version header unless the command goes bare, and all of that sealed. */
  lemma PayloadLayout34(s: Suite, payload: bytes, cmd: u32, key: Key)
    requires s.Lawful()
    ensures var inner := Decrypt(s, key, PackPayload(s, V34, payload, cmd, key), false, None, None);
            && inner.Ok?
            && if Bare(cmd) then inner.value == payload
               else |inner.value| >= 15 && IsVersionHeader(inner.value[..15], 0x34) && inner.value[15..] == payload
    ensures var b := PackPayload(s, V34, payload, cmd, key);
            exists inner :: Encrypt(s, key, inner, false, None, None, true) == Ok(b)
  {
    var inner := if Headerless(cmd) then payload else AddHeader(V34, payload);
    EcbOpenUndoesSeal(s, key, inner);
    HeaderIsWritten(V34, payload, 0x34);
    assert Encrypt(s, key, inner, false, None, None, true) == Ok(PackPayload(s, V34, payload, cmd, key));
  }

  /** v3.5: the payload, behind a version header unless the command goes bare; the frame does the sealing. */
  lemma PayloadLayout35(s: Suite, payload: bytes, cmd: u32, key: Key)
    requires s.Lawful()
    ensures var b := PackPayload(s, V35, payload, cmd, key);
            if Bare(cmd) then b == payload
            else |b| >= 15 && IsVersionHeader(b[..15], 0x35) && b[15..] == payload
  {
    HeaderIsWritten(V35, payload, 0x35);
  }

  /** "data=", the text, "||lpv=3.1||" and the key: what v3.1 signs. */
  function Signed31(text: bytes, key: bytes): bytes {
    [0x64, 0x61, 0x74, 0x61, 0x3D] + text + [0x7C, 0x7C, 0x6C, 0x70, 0x76, 0x3D, 0x33, 0x2E, 0x31, 0x7C, 0x7C] + key
  }

  /**
    v3.1: control commands carry "3.1", the sixteen middle digits of the MD5 of the signed text, and that text, the
    sealed payload in Base64; everything else goes as it is.
   */
  lemma PayloadLayout31(s: Suite, payload: bytes, cmd: u32, key: Key)
    requires s.Lawful()
    ensures var b := PackPayload(s, V31, payload, cmd, key);
            if cmd == 0x07 || cmd == 0x0D then
              && |b| >= 19 && b[..3] == [0x33, 0x2E, 0x31]
              && Encrypt(s, key, payload, true, None, None, true) == Ok(b[19..])
              && b[3..19] == s.md5hex(Signed31(b[19..], key))[8..24]
            else b == payload
  {
    var b := PackPayload(s, V31, payload, cmd, key);
    if IsControl(cmd) {
      var text := s.base64(EcbSeal(s, key, payload));
      assert b == Tag(V31) + (Digest31(s, key, text) + text);
      assert b[..3] == Tag(V31) && b[3..19] == Digest31(s, key, text) && b[19..] == text;
    }
  }

  // ---------------------------------------------------------------- payloads as they are read

  /** What stands behind a version header, or all of it if there is none. */
  function Unheaded(b: bytes, digit: byte): bytes {
    if |b| >= 15 && b[..3] == [0x33, 0x2E, digit] then b[15..] else b
  }

  /** v3.2 and v3.3 look for a version header in front of the ciphertext, and again in front of the plaintext. */
  function Opened3233(s: Suite, b: bytes, key: Key, digit: byte): bytes {
    var body := Unheaded(b, digit);
    match Decrypt(s, key, body, false, None, None)
    case Ok(plain) => Unheaded(plain, digit)
    case _ => body
  }

  /**
    Only v3.1 can fail to read a payload, exactly if it is marked, longer than the mark, and not Base64 of something
    sealed. A v3.2 to v3.4 payload that is not sealed under the key is handed on as it is, but for one version header.
   */
  lemma ReadPayloadExactly(s: Suite, v: Version, b: bytes, key: Key)
    requires s.Lawful() && v != AutoVersion
    ensures var r := DecryptPayload(s, v, b, key);
            match v
            case V31 =>
              if |b| > 19 && b[..3] == [0x33, 0x2E, 0x31] then r == Decrypt(s, key, b[19..], true, None, None)
              else r == Ok(b)
            case V32 => r == Ok(Opened3233(s, b, key, 0x32))
            case V33 => r == Ok(Opened3233(s, b, key, 0x33))
            case V34 =>
              var plain := Decrypt(s, key, b, false, None, None);
              r == Ok(Unheaded(if plain.Ok? then plain.value else b, 0x34))
            case V35 => r == Ok(Unheaded(b, 0x35))
  {
  }

  // ---------------------------------------------------------------- requests as they are written

  /**
    A request of any version: v3.1 to v3.3, and a version not yet known, in a 55AA frame with a CRC; v3.4 in a 55AA
    frame with an HMAC; v3.5 in a 6699 frame; each carrying the payload layer of its version, v3.3 if it is not yet
    known.
   */
  lemma RequestLayout(s: Suite, version: Version, devType: DeviceType, seqno: u32, cmd: u32, payload: bytes, key: Key,
          freshIv: bytes)
    requires s.Lawful() && |freshIv| == 12
    ensures var p := GetProtocol(version, devType);
            var frame := PackMsg(s, p, Message(seqno, cmd, None, payload, Prefix(p), None), key, freshIv);
            var packed := PackPayload(s, if version == AutoVersion then V33 else version, payload, cmd, key);
            && frame.Ok?
            && if version == V35 then
                 && |frame.value| == 50 + |packed|
                 && WordAt(frame.value, 0, 0x6699) && WordAt(frame.value, 6, seqno) && WordAt(frame.value, 10, cmd)
                 && frame.value[18..30] == freshIv
                 && frame.value[30..|frame.value| - 4] == s.gcmSeal(key, freshIv, frame.value[4..18], packed)
               else
                 var mac := if version == V34 then Some(key) else None;
                 && |frame.value| == 16 + |packed| + TrailerLength(mac)
                 && WordAt(frame.value, 0, 0x55AA) && WordAt(frame.value, 4, seqno) && WordAt(frame.value, 8, cmd)
                 && frame.value[16..16 + |packed|] == packed && TrailerIsRight(s, mac, frame.value)
  {
    var p := GetProtocol(version, devType);
    var packed := PackPayload(s, p.base, payload, cmd, key);
    var msg := Message(seqno, cmd, None, packed, Prefix(p), None);
    if version == V35 {
      Layout66(s, msg, key, freshIv);
      assert Sealed(msg) == packed;
    } else {
      Layout55(s, msg, HmacKey(p, key));
    }
  }
}
