/**
  Frame formats of `src/protocol/mod.rs`: 55AA with a CRC or HMAC trailer, 6699 with GCM.

  `Packed`, `HeaderOf` and `Unpacked` give the layout; the methods build and take apart the bytes
  with a growing buffer and a moving offset, as the source does.
 */
module Frames {
  import opened Bytes
  import opened Crypto

  const PREFIX_55AA: u32 := 0x0000_55AA
  const PREFIX_6699: u32 := 0x0000_6699
  const SUFFIX_55AA: u32 := 0x0000_AA55
  const SUFFIX_6699: u32 := 0x0000_9966

  const BRACE: byte := 0x7B
  const THREE: byte := 0x33

  datatype Message = Message(
    seqno: u32,
    cmd: u32,
    retcode: Option<u32>,
    payload: bytes,
    prefix: u32,
    iv: Option<bytes>)

  datatype Header = Header(prefix: u32, seqno: u32, cmd: u32, payloadLen: u32, totalLength: u32)

  // ---------------------------------------------------------------- layout

  /** Checksum and suffix of a 55AA frame. */
  function EndLen(key: Option<bytes>): nat {
    if key.Some? then 32 + 4 else 4 + 4
  }

  function Checksum(s: Suite, key: Option<bytes>, data: bytes): bytes {
    if key.Some? then s.hmac(key.value, data) else BE32(s.crc(data))
  }

  function Head55(seqno: u32, cmd: u32, len: u32): (h: bytes)
    ensures |h| == 16
  {
    BE32(PREFIX_55AA) + (BE32(seqno) + (BE32(cmd) + BE32(len)))
  }

  function Head66(seqno: u32, cmd: u32, len: u32): (h: bytes)
    ensures |h| == 18
  {
    BE32(PREFIX_6699) + ([0, 0] + (BE32(seqno) + (BE32(cmd) + BE32(len))))
  }

  /** What a 6699 frame seals: the return code, if any, in front of the payload. */
  function Sealed(msg: Message): bytes {
    (if msg.retcode.Some? then BE32(msg.retcode.value) else []) + msg.payload
  }

  /** A 55AA frame; the length field is a 32-bit sum. */
  function Packed55(s: Suite, msg: Message, key: Option<bytes>): bytes {
    var data := Head55(msg.seqno, msg.cmd, (|msg.payload| + EndLen(key)) % WORD) + msg.payload;
    data + Checksum(s, key, data) + BE32(SUFFIX_55AA)
  }

  function Packed66(s: Suite, msg: Message, key: bytes, freshIv: bytes): Result<bytes> {
    var raw := Sealed(msg);
    var head := Head66(msg.seqno, msg.cmd, (12 + |raw| + 16) % WORD);
    var iv := if msg.iv.Some? then msg.iv.value else freshIv;
    var cipher :- NewCipher(key);
    var encrypted :- Encrypt(s, cipher, raw, false, Some(iv), Some(head[4..]), false);
    Ok(head + encrypted + BE32(SUFFIX_6699))
  }

  /** The bytes of a message; a message with neither prefix gives no bytes at all. */
  function Packed(s: Suite, msg: Message, key: Option<bytes>, freshIv: bytes): Result<bytes> {
    if msg.prefix == PREFIX_55AA then Ok(Packed55(s, msg, key))
    else if msg.prefix == PREFIX_6699 then
      if key.None? then Err(EncryptionFailed) else Packed66(s, msg, key.value, freshIv)
    else Ok([])
  }

  lemma SumWraps(m: nat, n: nat)
    ensures (m % WORD + n) % WORD == (m + n) % WORD
  {
  }

  method PackMessage55(s: Suite, msg: Message, key: Option<bytes>) returns (data: bytes)
    requires msg.prefix == PREFIX_55AA
    ensures data == Packed55(s, msg, key)
    ensures var n := 16 + |msg.payload|;
            n <= |data| && data[16..n] == msg.payload
            && data[n..] == (if key.Some? then s.hmac(key.value, data[..n]) else BE32(s.crc(data[..n]))) + BE32(0xAA55)
  {
    var suffixLen := if key.Some? then 32 + 4 else 4 + 4;
    var payloadLen := (|msg.payload| % WORD + suffixLen) % WORD;
    SumWraps(|msg.payload|, EndLen(key));
    data := BE32(msg.prefix);
    data := data + BE32(msg.seqno);
    data := data + BE32(msg.cmd);
    data := data + BE32(payloadLen);
    assert data == Head55(msg.seqno, msg.cmd, payloadLen);
    data := data + msg.payload;
    ghost var front := data;
    if key.Some? {
      var mac := s.hmac(key.value, data);
      data := data + mac;
    } else {
      var crc := s.crc(data);
      data := data + BE32(crc);
    }
    data := data + BE32(SUFFIX_55AA);
    assert data[..16 + |msg.payload|] == front;
  }

  method PackMessage66(s: Suite, msg: Message, key: bytes, freshIv: bytes) returns (r: Result<bytes>)
    requires s.Lawful() && msg.prefix == PREFIX_6699
    ensures r == Packed66(s, msg, key, freshIv)
  {
    var raw := [];
    if msg.retcode.Some? {
      raw := raw + BE32(msg.retcode.value);
    }
    raw := raw + msg.payload;
    assert raw == Sealed(msg);
    var total := 12 + |raw| + 16;
    var head := BE32(PREFIX_6699);
    head := head + [0, 0];
    head := head + BE32(msg.seqno);
    head := head + BE32(msg.cmd);
    head := head + BE32(total % WORD);
    assert head == Head66(msg.seqno, msg.cmd, total % WORD);
    var iv := if msg.iv.Some? then msg.iv.value else freshIv;
    var cipher :- NewCipher(key);
    var encrypted :- EncryptBuffer(s, cipher, raw, false, Some(iv), Some(head[4..]), false);
    var data := head;
    data := data + encrypted;
    data := data + BE32(SUFFIX_6699);
    return Ok(data);
  }

  /** `pack_message`: `freshIv` is the nonce drawn when the message carries none. */
  method PackMessage(s: Suite, msg: Message, key: Option<bytes>, freshIv: bytes) returns (r: Result<bytes>)
    requires s.Lawful() && |freshIv| == 12
    ensures r == Packed(s, msg, key, freshIv)
  {
    if msg.prefix == PREFIX_55AA {
      var data := PackMessage55(s, msg, key);
      return Ok(data);
    } else if msg.prefix == PREFIX_6699 {
      if key.None? {
        return Err(EncryptionFailed);
      }
      r := PackMessage66(s, msg, key.value, freshIv);
    } else {
      return Ok([]);
    }
  }

  /** The header at the front of `data`; the total length is a 32-bit sum and may wrap. */
  function HeaderOf(data: bytes): Result<Header> {
    if |data| < 16 then Err(DecodeError)
    else if Read32(data) == PREFIX_55AA then
      var len := Read32(data[12..]);
      Ok(Header(PREFIX_55AA, Read32(data[4..]), Read32(data[8..]), len, (len + 16) % WORD))
    else if Read32(data) == PREFIX_6699 then
      if |data| < 18 then Err(DecodeError)
      else
        var len := Read32(data[14..]);
        Ok(Header(PREFIX_6699, Read32(data[6..]), Read32(data[10..]), len, (len + 18 + 4) % WORD))
    else Err(InvalidHeader)
  }

  method ParseHeader(data: bytes) returns (r: Result<Header>)
    ensures r == HeaderOf(data)
  {
    if |data| < 16 {
      return Err(DecodeError);
    }
    var prefix := Read32(data);
    var cursor := 4;
    if prefix == PREFIX_55AA {
      var seqno := Read32(data[cursor..]);
      cursor := cursor + 4;
      var cmd := Read32(data[cursor..]);
      cursor := cursor + 4;
      var payloadLen := Read32(data[cursor..]);
      return Ok(Header(prefix, seqno, cmd, payloadLen, (payloadLen + 16) % WORD));
    } else if prefix == PREFIX_6699 {
      if |data| < 18 {
        return Err(DecodeError);
      }
      cursor := cursor + 2;
      var seqno := Read32(data[cursor..]);
      cursor := cursor + 4;
      var cmd := Read32(data[cursor..]);
      cursor := cursor + 4;
      var payloadLen := Read32(data[cursor..]);
      return Ok(Header(prefix, seqno, cmd, payloadLen, (payloadLen + 18 + 4) % WORD));
    }
    return Err(InvalidHeader);
  }

  // ---------------------------------------------------------------- return codes

  /** Automatic detection of a return code in a 55AA body. */
  predicate Guess55(body: bytes) {
    |body| >= 4 && body[0] != BRACE && (body[0] == 0 || (|body| > 4 && body[0] != THREE))
  }

  /** Automatic detection of a return code in a 6699 plaintext. */
  predicate Guess66(body: bytes) {
    |body| >= 4 && body[0] != BRACE && (|body| > 4 && (body[4] == BRACE || body[4] == THREE))
  }

  function ParseRetcode(noRetcode: Option<bool>, guess: bool): bool {
    if noRetcode.Some? then !noRetcode.value else guess
  }

  function SplitRetcode(parse: bool, body: bytes): (r: (Option<u32>, bytes)) {
    if parse && |body| >= 4 then (Some(Read32(body)), body[4..]) else (None, body)
  }

  function Split55(noRetcode: Option<bool>, body: bytes): (Option<u32>, bytes) {
    SplitRetcode(ParseRetcode(noRetcode, Guess55(body)), body)
  }

  function Split66(noRetcode: Option<bool>, body: bytes): (Option<u32>, bytes) {
    SplitRetcode(ParseRetcode(noRetcode, Guess66(body)), body)
  }

  // ---------------------------------------------------------------- unpacking

  function Unpacked55(s: Suite, data: bytes, key: Option<bytes>, h: Header, noRetcode: Option<bool>): Result<Message>
    requires h.totalLength <= |data|
  {
    if h.totalLength < EndLen(key) then Crash
    else
      var end := h.totalLength - EndLen(key);
      if end < 16 then Err(DecodeError)
      else if data[end..h.totalLength - 4] != Checksum(s, key, data[..end]) then
        Err(if key.Some? then HmacMismatch else CrcMismatch)
      else
        var (retcode, payload) := Split55(noRetcode, data[16..end]);
        Ok(Message(h.seqno, h.cmd, retcode, payload, h.prefix, None))
  }

  function Unpacked66(s: Suite, data: bytes, key: Option<bytes>, h: Header, noRetcode: Option<bool>): Result<Message>
    requires h.totalLength <= |data|
  {
    if key.None? then Err(EncryptionFailed)
    else if h.totalLength < 22 then Crash
    else
      var inner := data[18..h.totalLength - 4];
      if |inner| < 12 + 16 then Err(InvalidPayload)
      else
        var cipher :- NewCipher(key.value);
        var plain :- Decrypt(s, cipher, inner[12..], false, Some(inner[..12]), Some(data[4..18]));
        var (retcode, payload) := Split66(noRetcode, plain);
        Ok(Message(h.seqno, h.cmd, retcode, payload, h.prefix, Some(inner[..12])))
  }

  function Unpacked(s: Suite, data: bytes, key: Option<bytes>, header: Option<Header>,
          noRetcode: Option<bool>): Result<Message> {
    var h :- if header.Some? then Ok(header.value) else HeaderOf(data);
    if |data| < h.totalLength then Err(DecodeError)
    else if h.prefix == PREFIX_55AA then Unpacked55(s, data, key, h, noRetcode)
    else if h.prefix == PREFIX_6699 then Unpacked66(s, data, key, h, noRetcode)
    else Err(InvalidHeader)
  }

  /** The two checksum comparisons: HMAC byte by byte, CRC as a number. */
  method VerifyFooter(s: Suite, data: bytes, footer: bytes, key: Option<bytes>) returns (ok: bool)
    requires |footer| == EndLen(key) - 4
    ensures ok <==> footer == Checksum(s, key, data)
    ensures ok <==> if key.Some? then footer == s.hmac(key.value, data) else Read32(footer) == s.crc(data)
  {
    if key.Some? {
      ok := s.hmac(key.value, data) == footer;
    } else {
      ok := s.crc(data) == Read32(footer);
      WrittenOfRead(footer);
      ReadOfWritten(s.crc(data), []);
      assert BE32(s.crc(data)) + [] == BE32(s.crc(data));
    }
  }

  method UnpackMessage55(s: Suite, data: bytes, key: Option<bytes>, h: Header,
          noRetcode: Option<bool>) returns (r: Result<Message>)
    requires h.totalLength <= |data|
    ensures r == Unpacked55(s, data, key, h, noRetcode)
  {
    var msgLen := h.totalLength;
    var endLen := if key.Some? then 32 + 4 else 4 + 4;
    if msgLen < endLen {
      return Crash;
    }
    var payloadEnd := msgLen - endLen;
    if payloadEnd < 16 {
      return Err(DecodeError);
    }
    var payloadStart := 16;
    var retcode := None;
    var parse;
    if noRetcode.Some? {
      parse := !noRetcode.value;
    } else {
      parse := payloadEnd - payloadStart >= 4
        && data[payloadStart] != BRACE
        && (data[payloadStart] == 0 || (payloadEnd - payloadStart > 4 && data[payloadStart] != THREE));
    }
    if parse && payloadEnd - payloadStart >= 4 {
      retcode := Some(Read32(data[payloadStart..payloadStart + 4]));
      payloadStart := payloadStart + 4;
    }
    var payload := data[payloadStart..payloadEnd];
    assert (retcode, payload) == Split55(noRetcode, data[16..payloadEnd]);
    var ok := VerifyFooter(s, data[..payloadEnd], data[payloadEnd..msgLen - 4], key);
    if !ok {
      return Err(if key.Some? then HmacMismatch else CrcMismatch);
    }
    return Ok(Message(h.seqno, h.cmd, retcode, payload, h.prefix, None));
  }

  method UnpackMessage66(s: Suite, data: bytes, key: Option<bytes>, h: Header,
          noRetcode: Option<bool>) returns (r: Result<Message>)
    requires s.Lawful() && h.totalLength <= |data|
    ensures r == Unpacked66(s, data, key, h, noRetcode)
  {
    var msgLen := h.totalLength;
    if key.None? {
      return Err(EncryptionFailed);
    }
    if msgLen < 18 + 4 {
      return Crash;
    }
    var inner := data[18..msgLen - 4];
    if |inner| < 12 + 16 {
      return Err(InvalidPayload);
    }
    var iv := inner[..12];
    var cipher :- NewCipher(key.value);
    var payload :- DecryptBuffer(s, cipher, inner[12..], false, Some(iv), Some(data[4..18]));
    var retcode := None;
    var parse;
    if noRetcode.Some? {
      parse := !noRetcode.value;
    } else {
      parse := |payload| >= 4 && payload[0] != BRACE && (|payload| > 4 && (payload[4] == BRACE || payload[4] == THREE));
    }
    if parse && |payload| >= 4 {
      retcode := Some(Read32(payload[..4]));
      payload := payload[4..];
    }
    return Ok(Message(h.seqno, h.cmd, retcode, payload, h.prefix, Some(iv)));
  }

  /** `unpack_message`. */
  method UnpackMessage(s: Suite, data: bytes, key: Option<bytes>, header: Option<Header>, noRetcode: Option<bool>)
    returns (r: Result<Message>)
    requires s.Lawful()
    ensures r == Unpacked(s, data, key, header, noRetcode)
  {
    var h: Header;
    if header.Some? {
      h := header.value;
    } else {
      h :- ParseHeader(data);
    }
    if |data| < h.totalLength {
      return Err(DecodeError);
    }
    if h.prefix == PREFIX_55AA {
      r := UnpackMessage55(s, data, key, h, noRetcode);
    } else if h.prefix == PREFIX_6699 {
      r := UnpackMessage66(s, data, key, h, noRetcode);
    } else {
      return Err(InvalidHeader);
    }
  }
}
