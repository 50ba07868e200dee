/**
  The payload layers of `src/protocol/v31.rs` to `v35.rs` and `dev22.rs`, and the pipeline of
  `src/device.rs` that stacks them on the frame formats.
 */
module Payloads {
  import opened Bytes
  import opened Crypto
  import opened Frames
  import opened FrameLaws

  datatype Version = AutoVersion | V31 | V32 | V33 | V34 | V35
  datatype DeviceType = AutoType | DefaultType | Device22

  const SESS_KEY_NEG_START: u32 := 0x03
  const SESS_KEY_NEG_RESP: u32 := 0x04
  const SESS_KEY_NEG_FINISH: u32 := 0x05
  const CONTROL: u32 := 0x07
  const STATUS: u32 := 0x08
  const HEART_BEAT: u32 := 0x09
  const DP_QUERY: u32 := 0x0a
  const CONTROL_NEW: u32 := 0x0d
  const DP_QUERY_NEW: u32 := 0x10
  const UPDATE_DPS: u32 := 0x12
  const LAN_EXT_STREAM: u32 := 0x40

  /** `get_protocol`: an unknown version speaks v3.3, and Device22 wraps the codec of its base. */
  datatype Protocol = Protocol(base: Version, dev22: bool)

  function GetProtocol(version: Version, devType: DeviceType): Protocol {
    Protocol(if version == AutoVersion then V33 else version, devType == Device22)
  }

  /** The commands of `NO_PROTOCOL_HEADER_CMDS`. */
  predicate Headerless(cmd: u32) {
    cmd in {DP_QUERY, DP_QUERY_NEW, UPDATE_DPS, HEART_BEAT, SESS_KEY_NEG_START, SESS_KEY_NEG_RESP,
        SESS_KEY_NEG_FINISH, LAN_EXT_STREAM}
  }

  /** The text "3.x" of a version. */
  function Tag(v: Version): (t: bytes)
    ensures |t| == 3 && t[0] == THREE
  {
    [0x33, 0x2E, match v case V31 => 0x31 case V32 => 0x32 case V34 => 0x34 case V35 => 0x35 case _ => 0x33]
  }

  function AddHeader(v: Version, payload: bytes): bytes {
    Tag(v) + Repeat(0, 12) + payload
  }

  predicate HasVersionHeader(v: Version, payload: bytes) {
    |payload| >= 15 && payload[..3] == Tag(v)
  }

  function StripHeader(v: Version, payload: bytes): bytes {
    if HasVersionHeader(v, payload) then payload[15..] else payload
  }

  function Prefix(p: Protocol): u32 {
    if p.base == V35 then PREFIX_6699 else PREFIX_55AA
  }

  function HmacKey(p: Protocol, key: bytes): Option<bytes> {
    if p.base == V34 || p.base == V35 then Some(key) else None
  }

  predicate RequiresSessionKey(p: Protocol) {
    p.base == V34 || p.base == V35
  }

  predicate ChecksDev22Fallback(p: Protocol) {
    !p.dev22 && (p.base == V33 || p.base == V34)
  }

  // ---------------------------------------------------------------- pack_payload and decrypt_payload

  predicate IsControl(cmd: u32) {
    cmd == CONTROL || cmd == CONTROL_NEW
  }

  /** The v3.1 digest: sixteen hexadecimal digits from the middle of the MD5 of the signed text. */
  function Digest31(s: Suite, key: Key, text: bytes): bytes
    requires s.Lawful()
  {
    s.md5hex([0x64, 0x61, 0x74, 0x61, 0x3D] + text
             + [0x7C, 0x7C, 0x6C, 0x70, 0x76, 0x3D, 0x33, 0x2E, 0x31, 0x7C, 0x7C] + key)[8..24]
  }

  function PackPayload(s: Suite, v: Version, payload: bytes, cmd: u32, key: Key): bytes
    requires s.Lawful()
  {
    match v
    case V31 =>
      if IsControl(cmd) then
        var text := s.base64(EcbSeal(s, key, payload));
        Tag(V31) + Digest31(s, key, text) + text
      else payload
    case V34 => EcbSeal(s, key, if Headerless(cmd) then payload else AddHeader(v, payload))
    case V35 => if Headerless(cmd) then payload else AddHeader(v, payload)
    case _ =>
      var packed := EcbSeal(s, key, payload);
      if Headerless(cmd) then packed else AddHeader(v, packed)
  }

  function DecryptPayload(s: Suite, v: Version, payload: bytes, key: Key): Result<bytes> {
    match v
    case V31 =>
      if StartsWith(payload, Tag(V31)) && |payload| > 19 then
        var decoded := s.unbase64(payload[19..]);
        if decoded.None? then Err(DecryptionFailed) else EcbOpen(s, key, decoded.value)
      else Ok(payload)
    case V34 =>
      var plain := EcbOpen(s, key, payload);
      Ok(StripHeader(v, if plain.Ok? then plain.value else payload))
    case V35 => Ok(StripHeader(v, payload))
    case _ =>
      var body := StripHeader(v, payload);
      var plain := EcbOpen(s, key, body);
      Ok(if body != [] && plain.Ok? then StripHeader(v, plain.value) else body)
  }

  /**
    When the receiver gets back what was packed, as a sender can tell beforehand. A payload that looks like a
    version header is mistaken for one, and a v3.2 or v3.3 ciphertext that happens to start with the
    version tag loses its first 15 bytes.
   */
  predicate Recoverable(s: Suite, v: Version, payload: bytes, cmd: u32, key: Key) {
    match v
    case V31 => IsControl(cmd) || !(StartsWith(payload, Tag(V31)) && |payload| > 19)
    case V34 => Headerless(cmd) ==> !HasVersionHeader(v, payload)
    case V35 => Headerless(cmd) ==> !HasVersionHeader(v, payload)
    case _ =>
      var packed := EcbSeal(s, key, payload);
      if Headerless(cmd) && HasVersionHeader(v, packed) then packed[15..] == payload
      else !HasVersionHeader(v, payload)
  }

  lemma StripUndoesAdd(v: Version, payload: bytes)
    ensures StripHeader(v, AddHeader(v, payload)) == payload
  {
    var p := AddHeader(v, payload);
    assert p[..3] == Tag(v) && p[15..] == payload;
  }

  lemma EcbOpenShrinks(s: Suite, key: Key, data: bytes)
    requires s.Lawful() && EcbOpen(s, key, data).Ok?
    ensures |EcbOpen(s, key, data).value| <= |data|
  {
    BlocksLength(s, key, false, data);
  }

  lemma Inverse31(s: Suite, payload: bytes, cmd: u32, key: Key)
    requires s.Lawful()
    ensures DecryptPayload(s, V31, PackPayload(s, V31, payload, cmd, key), key) == Ok(payload)
            <==> Recoverable(s, V31, payload, cmd, key)
  {
    var packed := PackPayload(s, V31, payload, cmd, key);
    if IsControl(cmd) {
      var sealed := EcbSeal(s, key, payload);
      var text := s.base64(sealed);
      EcbSealLength(s, key, payload);
      assert s.unbase64(text).Some? && |sealed| <= |text|;
      assert packed == Tag(V31) + (Digest31(s, key, text) + text);
      assert packed[..3] == Tag(V31) && packed[19..] == text;
      EcbOpenUndoesSeal(s, key, payload);
    } else if StartsWith(payload, Tag(V31)) && |payload| > 19 {
      var decoded := s.unbase64(payload[19..]);
      if decoded.Some? && EcbOpen(s, key, decoded.value).Ok? {
        EcbOpenShrinks(s, key, decoded.value);
      }
    }
  }

  lemma Inverse3233(s: Suite, v: Version, payload: bytes, cmd: u32, key: Key)
    requires s.Lawful() && (v == V32 || v == V33)
    ensures DecryptPayload(s, v, PackPayload(s, v, payload, cmd, key), key) == Ok(payload)
            <==> Recoverable(s, v, payload, cmd, key)
  {
    var sealed := EcbSeal(s, key, payload);
    EcbSealLength(s, key, payload);
    EcbOpenUndoesSeal(s, key, payload);
    if Headerless(cmd) && HasVersionHeader(v, sealed) {
      assert |sealed[15..]| % 16 == 1;
    } else if !Headerless(cmd) {
      StripUndoesAdd(v, sealed);
    }
  }

  lemma Inverse34(s: Suite, payload: bytes, cmd: u32, key: Key)
    requires s.Lawful()
    ensures DecryptPayload(s, V34, PackPayload(s, V34, payload, cmd, key), key) == Ok(payload)
            <==> Recoverable(s, V34, payload, cmd, key)
  {
    EcbOpenUndoesSeal(s, key, if Headerless(cmd) then payload else AddHeader(V34, payload));
    StripUndoesAdd(V34, payload);
  }

  /** `decrypt_payload` undoes `pack_payload` in every version exactly on the recoverable payloads. */
  lemma DecryptUndoesPackExactly(s: Suite, v: Version, payload: bytes, cmd: u32, key: Key)
    requires s.Lawful() && v != AutoVersion
    ensures DecryptPayload(s, v, PackPayload(s, v, payload, cmd, key), key) == Ok(payload)
            <==> Recoverable(s, v, payload, cmd, key)
  {
    match v
    case V31 => Inverse31(s, payload, cmd, key);
    case V32 => Inverse3233(s, v, payload, cmd, key);
    case V33 => Inverse3233(s, v, payload, cmd, key);
    case V34 => Inverse34(s, payload, cmd, key);
    case V35 => StripUndoesAdd(V35, payload);
  }

  /** A payload a caller never has to think about: not text that starts with "3." and a version digit. */
  lemma UntaggedIsRecoverable(s: Suite, v: Version, payload: bytes, cmd: u32, key: Key)
    requires s.Lawful() && v != AutoVersion && (payload == [] || payload[0] != THREE)
    requires (v == V32 || v == V33) && Headerless(cmd) ==> EcbSeal(s, key, payload)[..3] != Tag(v)
    ensures Recoverable(s, v, payload, cmd, key)
  {
    assert payload != [] && |payload| >= 3 ==> payload[..3][0] != THREE;
  }

  // ---------------------------------------------------------------- the whole pipeline

  /** `pack_msg`: the payload layer, then the frame. */
  function PackMsg(s: Suite, p: Protocol, msg: Message, key: bytes, freshIv: bytes): Result<bytes>
    requires s.Lawful()
  {
    var cipher :- NewCipher(key);
    Packed(s, msg.(payload := PackPayload(s, p.base, msg.payload, msg.cmd, cipher), prefix := Prefix(p)),
           HmacKey(p, cipher), freshIv)
  }

  /** Unpacking followed by `decrypt_payload`, which an empty payload skips. */
  function OpenMsg(s: Suite, p: Protocol, packet: bytes, key: bytes, header: Option<Header>,
          noRetcode: Option<bool>): Result<Message> {
    var cipher :- NewCipher(key);
    var msg :- Unpacked(s, packet, HmacKey(p, cipher), header, noRetcode);
    if msg.payload == [] then Ok(msg)
    else
      var payload :- DecryptPayload(s, p.base, msg.payload, cipher);
      Ok(msg.(payload := payload))
  }

  lemma EmptyStaysEmpty(s: Suite, v: Version, key: Key)
    ensures DecryptPayload(s, v, [], key) == Ok([])
  {
    assert EcbOpen(s, key, []) == Ok([]);
  }

  /**
    Client to device: for every version, device type, command, sequence number and payload whose frame stays below
    2^32 bytes, a peer that expects no return code recovers the sequence number and the command,
    and recovers the payload exactly when it is recoverable.
   */
  lemma PeerReadsRequest(s: Suite, version: Version, devType: DeviceType, seqno: u32, cmd: u32, payload: bytes,
          key: Key, freshIv: bytes)
    requires s.Lawful() && |freshIv| == 12
    requires var p := GetProtocol(version, devType); |PackPayload(s, p.base, payload, cmd, key)| + 54 < WORD
    ensures var p := GetProtocol(version, devType);
            var frame := PackMsg(s, p, Message(seqno, cmd, None, payload, Prefix(p), None), key, freshIv);
            && frame.Ok?
            && var got := OpenMsg(s, p, frame.value, key, None, Some(true));
            && (got.Ok? ==> got.value.seqno == seqno && got.value.cmd == cmd && got.value.retcode == None)
            && ((got.Ok? && got.value.payload == payload) <==> Recoverable(s, p.base, payload, cmd, key))
  {
    var p := GetProtocol(version, devType);
    var packed := PackPayload(s, p.base, payload, cmd, key);
    var msg := Message(seqno, cmd, None, packed, Prefix(p), None);
    assert Sealed(msg) == packed;
    UnpackUndoesPack(s, msg, HmacKey(p, key), Some(true), freshIv);
    EmptyStaysEmpty(s, p.base, key);
    DecryptUndoesPackExactly(s, p.base, payload, cmd, key);
  }

  /** The frame a device sends: its return code in front of the 55AA body, or sealed into the 6699 body. */
  function DeviceFrame(s: Suite, p: Protocol, seqno: u32, cmd: u32, rc: u32, payload: bytes, key: Key,
          iv: bytes): Result<bytes>
    requires s.Lawful()
  {
    var packed := PackPayload(s, p.base, payload, cmd, key);
    if Prefix(p) == PREFIX_55AA
    then Packed(s, Message(seqno, cmd, None, BE32(rc) + packed, PREFIX_55AA, None), HmacKey(p, key), iv)
    else Packed(s, Message(seqno, cmd, Some(rc), packed, PREFIX_6699, Some(iv)), HmacKey(p, key), iv)
  }

  function Reply(p: Protocol, seqno: u32, cmd: u32, rc: u32, payload: bytes, iv: bytes): Message {
    Message(seqno, cmd, Some(rc), payload, Prefix(p), if Prefix(p) == PREFIX_55AA then None else Some(iv))
  }

  /**
    Device to client: the reader, which always expects a return code, recovers the sequence number, the command and the
    return code of every device frame, and the payload exactly when it is recoverable.
   */
  lemma ClientReadsReply(s: Suite, version: Version, devType: DeviceType, seqno: u32, cmd: u32, rc: u32,
          payload: bytes, key: Key, iv: bytes)
    requires s.Lawful() && |iv| == 12
    requires var p := GetProtocol(version, devType); |PackPayload(s, p.base, payload, cmd, key)| + 58 < WORD
    ensures var p := GetProtocol(version, devType);
            var frame := DeviceFrame(s, p, seqno, cmd, rc, payload, key, iv);
            && frame.Ok? && HeaderOf(frame.value).Ok? && HeaderOf(frame.value).value.totalLength == |frame.value|
            && var got := OpenMsg(s, p, frame.value, key, None, Some(false));
            && (got.Ok? ==> got.value == Reply(p, seqno, cmd, rc, got.value.payload, iv))
            && (got == Ok(Reply(p, seqno, cmd, rc, payload, iv)) <==> Recoverable(s, p.base, payload, cmd, key))
  {
    var p := GetProtocol(version, devType);
    var packed := PackPayload(s, p.base, payload, cmd, key);
    var msg := if Prefix(p) == PREFIX_55AA then Message(seqno, cmd, None, BE32(rc) + packed, PREFIX_55AA, None)
               else Message(seqno, cmd, Some(rc), packed, PREFIX_6699, Some(iv));
    UnpackUndoesPack(s, msg, HmacKey(p, key), Some(false), iv);
    LeadingRetcodeIsRead(rc, packed);
    EmptyStaysEmpty(s, p.base, key);
    DecryptUndoesPackExactly(s, p.base, payload, cmd, key);
  }
}
