# rustuya, verified in Dafny

rustuya talks to Tuya devices over the local network. This project models the three parts of it that are hard to get right and proves what
they promise, for all inputs and all runs:

1. **The wire codec and the stream reader.** Padded AES-ECB, the 55AA and 6699 frames, the payload layer of each protocol version, the
   shift register that hunts for a frame start in a noisy byte stream, and the reader that turns a stream into messages.
2. **The connection task.** A step system in which callers, the connection task and its reader interleave: the queue of requests,
   backoff, reconnecting on demand, the session-key handshake, heartbeats, disconnects and the end.
3. **The discovery scanner.** The cache with expiry, the result stream, and who may start a scan.

`dafny verify dfyconfig.toml` verifies everything.

## How the model is laid out

| file | models |
|---|---|
| `Bytes.dfy` | bytes, 32-bit words, results (a Rust panic is the result `Crash`) |
| `Crypto.dfy` | `src/crypto.rs`: padding, block loops, encrypt and decrypt |
| `Frames.dfy`, `FrameLaws.dfy` | `src/protocol/mod.rs`: the two frame formats, and what they promise |
| `Payloads.dfy` | `src/protocol/v31.rs` to `v35.rs` and `dev22.rs`: the payload layers, and the codec end to end |
| `WireFormat.dfy` | the bytes on the wire: where every field of a frame and a payload stands, and which bytes are accepted and refused |
| `Reader.dfy`, `ReaderLaws.dfy`, `DamageLaws.dfy` | the reader of `src/device.rs`, what it makes of a whole stream, and of bad frames in it |
| `Retry.dfy`, `Replies.dfy`, `Handshake.dfy` | failure counting and backoff, matching replies to requests, agreeing on a key |
| `Connection.dfy` | the connection task as states and steps |
| `Conduct.dfy` | what each step does to each field, told from the event and the state before it, over all events at once |
| `DeviceTask.dfy` | the object whose methods carry out those steps on its fields, and what holds of it after any run |
| `LedgerLaws.dfy`, `KeyLaws.dfy`, `PactLaws.dfy`, `DemandLaws.dfy`, `AnswerLaws.dfy`, `ReplyLaws.dfy`, `TaskLaws.dfy` | what every step keeps, and what follows for every run |
| `Scanner.dfy`, `ScanFlight.dfy` | `src/scanner.rs`: cache, result stream, single flight and throttling |

Code that changes things in place is a method over an array, a class or a loop, proved equal to a function of its inputs or of the old
state. The laws are then proved about that function. So that such a function is not its own witness, the formats are also stated byte by
byte in numbers and primitives (`WireFormat.dfy`, `SealedBlocks`, `AgreementExactly`), and the steps of the connection task once more by
what causes them (`Conduct.dfy`).

Cryptographic primitives are parameters: a `Suite` of functions with the laws that the standards give them (`Suite.Lawful`): a block
cipher is a permutation pair on 16 bytes (section 6.1 of NIST SP 800-38A), GCM opens what it sealed (section 7 of NIST SP 800-38D), HMAC
gives 32 bytes (section 2 of RFC 2104), Base64 decodes what it encoded (section 4 of RFC 4648). `LawsAreSatisfiable` shows that the laws do
not contradict each other. Arithmetic on `u32` wraps as in a release build, and indexing out of bounds or a slice that ends before it starts
is a panic, which ends the process.

## What the proofs found

- **Noise of the wrong length costs a frame.** The search gives up after 1028 bytes, which may lie across the start of a frame.
  Behind noise of `n` bytes a frame is read if `n % 1028 < 1024` (`FrameBehindNoise`), and otherwise its first one to four bytes are
  swallowed (`FrameSwallowedByWindow`). Where no other prefix stands, the frame is delivered in the first case and nothing at all in the
  second (`NoiseDecides`).
- **Some length fields panic the parser.** `UnpackPanicsExactly` describes them all, for every byte string: sums that wrap past 2^32,
  and, with an HMAC key, lengths below 20, because the subtraction at `src/protocol/mod.rs:453` comes before the test at 455.
  The shortest is a bare 16-byte header (`BareHeaderPanics`). On a stream the reading ends exactly at the first such frame
  (`ReadingEndsExactly`).
- **A lost sign of a Device22 is felt later.** A corrupt frame is read as if it were absent, but for one report
  (`CorruptFrameIsAbsent`). Compared with the frame undamaged, the damage stays local exactly if the frame was not, where it stood, the
  sign that makes the reader take the device for a Device22 (`DamageIsLocalExactly`); `LostSignShows` is a stream where it was.
- **The CRC fallback understands one frame.** A v3.4 device that sends a CRC in place of the HMAC is understood once and then taken for a
  Device22. But a Device22 is still read with the HMAC (`src/protocol/dev22.rs:115-117`) and without the fallback
  (`src/protocol/dev22.rs:123-125`), so every later frame of that device is rejected (`OnlyTheFirstCrcFrameIsUnderstood`).
- **The payload layers are not always inverse.** A payload that looks like a version header is stripped once too often.
  `DecryptUndoesPackExactly` gives the exact condition for every version.
- **An empty ciphertext decrypts to nothing but nothing encrypts to it.** It is the only accepted ciphertext that is not a sealed text
  (`AcceptedCiphertextIsSealed`).
- **A request that brings up its own connection never sees the device's reply.** It is sent and awaited before the reader starts
  (`src/device.rs:747-762`), so it times out, is merely acknowledged, or is refused (`OnDemandRequestsGetNoReply`); there is such a
  run (`OnDemandRequestTimesOut`).
- **A connection made on demand counts on.** Sequence numbers start again from 1 for each attempt (`src/device.rs:852-853`), but not for the
  attempts of the loop that waits for commands (`src/device.rs:898-923`): such a connection begins with 1 exactly if nothing was packed in
  this round before (`StartsAtOneExactly`); there is a run in which something was (`DemandCanCountOn`).
- **`stop` can be undone.** The writes at `src/device.rs:875` and 907 do not look for `Stopped`. A stopped device stays stopped
  throughout a run exactly if no step of the run completes a connection (`StopHoldsExactly`), and there is a run in which one does
  (`StopCanBeUndone`).
- **Two scan streams may run two discovery loops.** `scan_stream_instance` reads the flag and sets it in two operations. At most one
  caller is committed, that is, has set the flag and runs its loop or is about to, exactly in those runs in which no stream sets a flag that
  is set (`SingleFlightExactly`); two committed callers may come to run their loops at once (`BothMayLoop`, `TwoStreamsMayLoop`).
- **A late reader may defeat the 60-second throttle.** `ensure_scan_started` reads the last scan time before it swaps the flag
  (`LateReaderMayStart`); a start keeps its gap exactly if the last scan time, read again at that moment, would still let it pass
  (`StartsAreSpacedExactly`).

Where code and documentation disagree the model follows the code. `docs/philosophy.md:25` says that a call on a disconnected device waits for
the reconnection; the code answers `Offline` during backoff (`src/device.rs:968-974`) and refuses what is queued when an attempt fails
(`src/device.rs:889`), and so does the model.

## Model

| member | source | states |
|---|---|---|
| Crypto.LawsAreSatisfiable | src/crypto.rs:1-18 | The laws assumed of the cryptographic primitives hold together of some suite. |
| Crypto.TransformBlocks | src/crypto.rs:80-84 | The in-place loop over 16-byte chunks turns the buffer into its blockwise image. |
| Crypto.BlocksInverse | src/crypto.rs:137-140 | Blockwise decryption undoes blockwise encryption, and the other way round, on every multiple of 16 bytes. |
| Crypto.PadBuffer | src/crypto.rs:63-73 | The push loop gives the padded data: a positive number of bytes up to the next multiple of 16, each holding that number. |
| Crypto.UnpadBuffer | src/crypto.rs:142-155 | The check loop and the truncation give the data before the padding, or the error when the last byte is no pad length or the pad bytes differ. |
| Crypto.UnpadIsExact | src/crypto.rs:142-155 | A block text unpads to `d` if and only if it is the padding of `d`. |
| Crypto.EncryptBuffer | src/crypto.rs:35-96 | Encrypting in place gives the bytes or the error of the specification, whose bytes `SealedBlocks`, `UnpaddedExactly` and `DecryptUndoesEncrypt` pin in terms of AES and GCM. |
| Crypto.DecryptBuffer | src/crypto.rs:98-157 | Decrypting in each mode gives the specified bytes or the specified error. |
| Crypto.EcbOpenUndoesSeal | src/crypto.rs:61-87 | Decrypting a padded ECB ciphertext returns the plaintext, for every byte string. |
| Crypto.SealedBlocks | src/crypto.rs:61-87 | For every block of every text: it is the AES image of the same 16 bytes of the data followed by `k` bytes of value `k`, `k` from 1 to 16. |
| Crypto.UnpaddedExactly | src/crypto.rs:74-87 | Without padding, encryption fails exactly off multiples of 16 bytes, and otherwise each block is the AES image of that block. |
| Crypto.DecryptUndoesEncrypt | src/crypto.rs:35-157 | Decryption undoes encryption with and without Base64 and under GCM, where the nonce stands in front. |
| Crypto.RejectedExactly | src/crypto.rs:129-156 | A ciphertext is rejected exactly if it is not empty and no text encrypts to it; it never panics. |
| Crypto.AcceptedCiphertextIsSealed | src/crypto.rs:129-156 | Re-encrypting what an accepted ciphertext decrypts to gives that ciphertext, exactly if it is not empty. |
| Frames.PackMessage55 | src/protocol/mod.rs:327-350 | Appending gives the specified 55AA frame; behind the payload stand the HMAC under the key, or without one the CRC, of all bytes so far, and the suffix. |
| Frames.PackMessage66 | src/protocol/mod.rs:351-383 | Appending header, nonce, sealed text and suffix gives the specified 6699 frame or the cipher's error. |
| Frames.PackMessage | src/protocol/mod.rs:324-389 | Dispatch on the prefix; an unknown prefix gives no bytes and 6699 without a key fails. |
| Frames.ParseHeader | src/protocol/mod.rs:391-432 | Advancing a cursor reads the header words at their places, with the 32-bit total length, or fails on short data and unknown prefixes. |
| Frames.VerifyFooter | src/protocol/mod.rs:484-500 | The footer is accepted exactly if it is the HMAC under the key of the bytes before it, or without a key, read as a number, their CRC. |
| Frames.UnpackMessage55 | src/protocol/mod.rs:447-506 | The cursor arithmetic gives the specified message, error or panic for every frame and header. |
| Frames.UnpackMessage66 | src/protocol/mod.rs:507-566 | The slices give the specified message, error or panic for every frame and header. |
| Frames.UnpackMessage | src/protocol/mod.rs:434-567 | Header, length test and dispatch give the specified result for every byte string. |
| FrameLaws.HeaderOf55 | src/protocol/mod.rs:391-411 | A written 55AA header is read back whole, whatever follows it. |
| FrameLaws.HeaderOf66 | src/protocol/mod.rs:412-429 | A written 6699 header is read back whole, whatever follows it. |
| FrameLaws.UnpackUndoesPack | src/protocol/mod.rs:324-567 | In both formats and under either checksum, unpacking a packed message returns sequence number, command and prefix, and the body cut where the return-code rule says; the header gives the frame's length. |
| FrameLaws.ToldReaderRecoversMessage | src/protocol/mod.rs:464-479 | A reader told whether a return code was written gets back the very message. |
| FrameLaws.LeadingRetcodeIsRead | src/protocol/mod.rs:464-479 | A return code in front of a payload is read back by a reader that expects one. |
| FrameLaws.AutoSplit55 | src/protocol/mod.rs:464-479 | The exact return codes and bodies for which automatic detection in 55AA splits the code off. |
| FrameLaws.AutoKeep55 | src/protocol/mod.rs:464-479 | The exact bodies that automatic detection in 55AA keeps whole. |
| FrameLaws.AutoSplit66 | src/protocol/mod.rs:541-554 | The exact return codes and bodies for which automatic detection in 6699 splits the code off. |
| FrameLaws.AutoKeep66 | src/protocol/mod.rs:541-554 | The exact bodies that automatic detection in 6699 keeps whole. |
| FrameLaws.HeaderedIsKept66 | src/protocol/mod.rs:541-554 | A 6699 body behind a full version header is kept whole. |
| FrameLaws.UnpackPanicsExactly | src/protocol/mod.rs:453-459 | For every byte string, key and way of looking for a return code: unpacking panics if and only if the header is readable, the frame complete and its length field one of those listed. |
| FrameLaws.BareHeaderPanics | src/protocol/mod.rs:453-459 | A bare 16-byte 55AA header that announces nothing makes it panic under any HMAC key. |
| WireFormat.Layout55 | src/protocol/mod.rs:327-350 | Every byte of a 55AA frame: prefix, number, command, 32-bit length, payload, the HMAC under the key of everything before it or else the CRC, suffix. |
| WireFormat.Layout66 | src/protocol/mod.rs:351-383 | Every byte of a 6699 frame: prefix, two zero bytes, number, command, length, the nonce given or drawn, the return code and payload sealed with the header authenticated, suffix. |
| WireFormat.PackFailsExactly | src/protocol/mod.rs:324-389 | Packing fails exactly for 6699 without a 16-byte key, panics exactly on a nonce below 12 bytes, and gives no bytes exactly for a foreign prefix. |
| WireFormat.HeaderIsReadExactly | src/protocol/mod.rs:391-432 | For every byte string: the header is read exactly from these lengths and prefixes, each field from its place, and the error otherwise. |
| WireFormat.Verdict55 | src/protocol/mod.rs:447-506 | A whole 55AA frame is accepted exactly if its trailer is the HMAC under the key, or else the CRC, of the bytes before it; otherwise the error says which. |
| WireFormat.Verdict66 | src/protocol/mod.rs:507-566 | A whole 6699 frame is accepted exactly if it is long enough, the key has 16 bytes and the sealed text opens; otherwise the error says what is wrong. |
| WireFormat.RestIsNotRead | src/protocol/mod.rs:434-567 | Bytes behind a whole frame change nothing. |
| WireFormat.WholeFramesOnly | src/protocol/mod.rs:434-445 | Bytes without a readable header, or fewer than it announces, are refused with that error. |
| WireFormat.ToldIsObeyed | src/protocol/mod.rs:464-479 | A reader told about the return code takes the first word for it, or does not, in both formats alike. |
| Payloads.StripUndoesAdd | src/protocol/v33.rs:12-19 | Stripping a version header undoes adding it. |
| Payloads.Inverse31 | src/protocol/v31.rs:75-122 | v3.1: decrypting undoes packing exactly for recoverable payloads; control commands always are. |
| Payloads.Inverse3233 | src/protocol/v33.rs:84-106 | v3.2 and v3.3: decrypting undoes packing exactly for recoverable payloads: not header-like and, sent without a header, with a ciphertext that does not start with the version tag (or happens to carry the payload behind it). |
| Payloads.Inverse34 | src/protocol/v34.rs:94-119 | v3.4: decrypting undoes packing exactly for recoverable payloads; with a header inside the ciphertext all are. |
| Payloads.DecryptUndoesPackExactly | src/protocol/v35.rs:94-116 | For every version, payload, command and key: decrypting undoes packing if and only if the payload is recoverable. |
| Payloads.UntaggedIsRecoverable | src/protocol/v32.rs:88-112 | A payload that does not begin like a version tag is recoverable under every version, up to an accidental tag in a headerless ciphertext. |
| Payloads.EmptyStaysEmpty | src/protocol/v34.rs:105-115 | An empty payload decrypts to an empty payload under every version. |
| WireFormat.PayloadLayout31 | src/protocol/v31.rs:75-105 | v3.1: a control payload is "3.1", digits 8 to 24 of the MD5 of the signed text, and the Base64 of the ciphertext; any other is sent as it is. |
| WireFormat.PayloadLayout3233 | src/protocol/v33.rs:84-90 | v3.2 and v3.3: the ciphertext, behind "3.x" and twelve zero bytes except for eight listed commands. |
| WireFormat.PayloadLayout34 | src/protocol/v34.rs:94-103 | v3.4: the same header, inside the ciphertext. |
| WireFormat.PayloadLayout35 | src/protocol/v35.rs:94-104 | v3.5: the same header, and no encryption in this layer. |
| WireFormat.ReadPayloadExactly | src/protocol/v34.rs:105-115 | What every version makes of every received payload, the undecryptable included. |
| WireFormat.RequestLayout | src/device.rs:1393-1403 | A request on the wire, for every version: format, trailer and payload bytes, from the number, command, payload and key alone. |
| Payloads.PeerReadsRequest | src/device.rs:1393-1403 | End to end, for every version, device type, command and number: a packed request is unpacked and decrypted to the same number, command and payload, exactly if the payload is recoverable. |
| Payloads.ClientReadsReply | src/device.rs:1567-1612 | End to end in the other direction, with the return code a device writes. |
| Reader.FindPrefix | src/device.rs:1483-1510 | The reference search: the earliest prefix within the budget, or none there. |
| Reader.ByteStream.ReadExact | src/device.rs:1532-1565 | A read takes exactly its bytes, or fails at the end of the stream. |
| Reader.ShiftIsNextWindow | src/device.rs:1497-1507 | Shifting a byte into the 32-bit register gives the next four bytes of the stream as a word. |
| Reader.ScanForPrefix | src/device.rs:1483-1510 | The shift register finds the earliest prefix at offset 0 to 1023 having consumed offset + 4 bytes, otherwise none having consumed 1028, or fails at the end of the stream. |
| Reader.Receiver.ReadFullPacket | src/device.rs:1532-1565 | Reads exactly the bytes the header announces, or fails or panics as specified. |
| DamageLaws.FirstCrcFrameIsUnderstood | src/device.rs:1567-1589 | The first CRC frame of a v3.4 device of undetermined type is understood, its message returned whole, and the device taken for a Device22; if the frame is too short for an HMAC the code panics first. |
| DamageLaws.CrcFrameIsUnderstoodExactly | src/device.rs:1567-1589 | A v3.4 packet with a CRC where an HMAC belongs is understood if and only if the type is still undetermined, and otherwise rejected. |
| DamageLaws.OnlyTheFirstCrcFrameIsUnderstood | src/protocol/dev22.rs:115-125 | Over any list of such frames in noise: the first is the report, all others are rejected; all are if the type was determined before. |
| DamageLaws.CrcDeviceExists | src/device.rs:1567-1589 | There are such frames. |
| ReaderLaws.GenuineFrameIsHandled | src/device.rs:1591-1612 | A genuine frame is handed on as the message sent; except that the complaint of unvalid data by a device of undetermined type, under v3.3 or v3.4, turns it into a Device22 and is reported with that payload. |
| Reader.Receiver.ParseAndReadBody | src/device.rs:1512-1530 | One frame is read, decoded and reported as specified, and exactly its bytes are used. |
| Reader.Receiver.ReadAndParse | src/device.rs:1432-1481 | One read: a delivery, a skipped window, a broken stream or a panic, with exactly the bytes used that the reference reader uses. |
| Reader.Receiver.Run | src/device.rs:762-801 | The reader loop over a whole stream delivers what the reference reader delivers and ends as it ends. |
| ReaderLaws.NoPrefixStraddles | src/device.rs:1483-1510 | Neither prefix can begin in noise and end in a frame. |
| ReaderLaws.FoundBehindNoise | src/device.rs:1483-1510 | The search finds a frame behind noise exactly at its start, if the noise is shorter than the budget. |
| ReaderLaws.FrameIsReadExactly | src/device.rs:1512-1565 | A well-formed frame is used up to its last byte, whatever its body holds. |
| ReaderLaws.FrameBehindNoise | src/device.rs:1432-1565 | Behind noise of any length `n` with `n % 1028 < 1024` the next delivery is that frame and reading goes on right behind it. |
| ReaderLaws.FrameSwallowedByWindow | src/device.rs:1483-1510 | For every other length the search swallows one to four bytes of what follows. |
| DamageLaws.NoiseDecides | src/device.rs:1432-1510 | A frame among bytes with no other prefix, behind noise of any length, is delivered if and only if that length is right, and nothing else is. |
| ReaderLaws.TrailingNoise | src/device.rs:1483-1510 | Noise alone delivers nothing, and ends cleanly exactly at a multiple of 1028 bytes. |
| ReaderLaws.StreamIsDecodedFrameByFrame | src/device.rs:1432-1565 | Any list of well-formed frames in noise is read as exactly those frames in order, and the stream is used up. |
| ReaderLaws.HandleIsExact | src/device.rs:1512-1530 | A framed packet gives a delivery, whatever its body holds, exactly if it is not too short for its trailer; otherwise the code panics. |
| ReaderLaws.ReadingGoesOn | src/device.rs:1432-1565 | The same with any bytes behind the frames: reading goes on there with the device type the frames left. |
| DamageLaws.FrameIsIndependent | src/device.rs:1470-1479 | Any frame not reported as a change of device type changes nothing but its own delivery: all else is as in the stream from which it is missing. |
| DamageLaws.CorruptIsRejected | src/protocol/mod.rs:484-500 | A frame under which neither checksum is right, or whose sealed body does not open, is reported with exactly the error that says what is wrong, and leaves the device type alone. |
| DamageLaws.CorruptFrameIsAbsent | src/device.rs:1470-1479 | Corruption does not desynchronise: such a frame, anywhere in a stream, under any version and device type, is read as if it were absent, but for the one report of that error. |
| DamageLaws.DamageIsConsumed | src/device.rs:1512-1565 | Changing the body or checksum of any one frame, detected or not, changes neither the number of deliveries, nor those before it, nor how the stream ends. |
| DamageLaws.SignIsReported | src/device.rs:1451-1467 | A packet changes the device type, and is reported as doing so, if and only if it is a sign: it opens to a complaint of unvalid data under v3.3 or v3.4, or has a CRC for an HMAC under v3.4, while the type is undetermined. |
| DamageLaws.DamageIsLocalExactly | src/device.rs:1512-1565 | When any frame of any stream is replaced by a corrupt one, its delivery is replaced by a report and nothing else changes, if and only if the frame was not a sign of a Device22 where it stood. |
| DamageLaws.LostSignShows | src/device.rs:1451-1467 | For every such sign sent twice under v3.3 there is a corruption of the first frame that changes the delivery of the second. |
| DamageLaws.SignCanBeSent | src/device.rs:1605-1610 | Such a message exists under every key. |
| DamageLaws.FramePanicsExactly | src/device.rs:1532-1565 | The exact bytes at which reading a frame panics, for every version and key. |
| DamageLaws.BareHeaderEndsReading | src/device.rs:1555-1564 | A bare header ends the reading of a v3.4 or v3.5 connection. |
| DamageLaws.ReadingEndsExactly | src/device.rs:1432-1565 | Over frames of any length in noise, the reading panics exactly at the first frame that is too short, with everything before it delivered; without one all are delivered. |
| ReaderLaws.GenuineStreamIsRead | src/device.rs:1432-1612 | Whatever messages a device sends, with noise in between, the reader hands on exactly those, in order, with number, command, return code and payload, up to the one report when it recognises a Device22. |
| ReaderLaws.FallbackOnlyUnder34 | src/device.rs:1567-1589 | The CRC fallback changes the device type only under v3.4 and only from Auto to Device22. |
| ReaderLaws.PacketSwitchesOnce | src/device.rs:1451-1467 | A packet changes the type only from Auto to Device22, never under v3.1, v3.2 or v3.5, and exactly then it is reported. |
| ReaderLaws.TypeSwitchesAtMostOnce | src/device.rs:1451-1467 | Over any byte stream the type changes at most once, and one report is delivered if it did and none otherwise. |
| Retry.FailureCountIsFailuresSinceCalm | src/device.rs:576-587 | Over every history the failure count is the number of failures since the last three messages without a failure between them. |
| Retry.BackoffBounds | src/device.rs:1631-1650 | The wait lies in [700b, 1000b) ms for b = min(16·2^n, 4096), and for n < 8 every wait at n is shorter than every wait at n + 1. |
| Retry.BackoffBaseShape | src/device.rs:1631-1650 | The base doubles up to n = 8 and stays at 4096; no 64-bit product overflows. |
| Retry.EveryWaitCanBeDrawn | src/device.rs:1631-1650 | Every wait in that range is drawn: the draw is what the wait exceeds 70 % by. |
| Replies.BroadcastIsEmptyOrJson | src/device.rs:1304-1341 | Every message broadcast, by the reader or by the connection task, has an empty or a JSON payload, and is command 0 unless it is a device's own. |
| Replies.BroadcastExactly | src/device.rs:1304-1341 | A device's message is broadcast unchanged exactly if its payload is empty or JSON; otherwise, as for every report and notice, an error message with its code (900, 904, 908) goes out in its place. |
| Replies.AcceptedExactly | src/device.rs:1206-1341 | From the delivery itself: a waiting request takes exactly error messages and a device's own message with the awaited or Status command that carries its cid, or is empty where it may be. |
| Replies.AwaitReply | src/device.rs:1205-1283 | The wait loop ends at the first message accepted or lost, with that message or the error, and with nothing only if all were turned down. |
| Replies.WaitFollowsTheRule | src/device.rs:1206-1283 | On broadcast messages the loop accepts exactly: command 0; or the awaited or Status command with an empty payload that may be empty, or with exactly the request's cid. |
| Replies.FilterIsNeeded | src/device.rs:1240-1278 | On a payload that is neither empty nor JSON the loop would accept what the rule does not. |
| Replies.AnswerFromNews | src/device.rs:1205-1341 | The loop over everything broadcast since some moment finds the first broadcast it accepts. |
| Replies.FirstAcceptedMeets | src/device.rs:1206-1283 | That is the first piece of news since then that answers by the rule, and there is none only if none does. |
| Handshake.FinalizeSessionKey | src/protocol/mod.rs:232-250 | The loop mixes the nonces byte by byte and signs the remote nonce with the local key. |
| Handshake.BothSidesMixAlike | src/protocol/mod.rs:232-250 | Both sides mix nonces of equal length to the same key. |
| Handshake.AgreementExactly | src/device.rs:1056-1112 | The handshake succeeds exactly if the local key has 16 bytes and the reply is a SessKeyNegResp of at least 48 bytes that signs our nonce; the session key is then the bytewise exclusive or of the nonces under AES (v3.4), or the first 16 bytes it is sealed to under GCM with our nonce (v3.5), and the proof the HMAC of the peer's nonce. |
| Handshake.RefusedExactly | src/device.rs:1056-1112 | Which error refuses a handshake: no frame, or no negotiation response long enough. |
| Handshake.KeyRing.GetCipher | src/device.rs:1614-1629 | The cached cipher is the one a fresh look at the current key would give, whatever was set, cleared or looked up before. |
| Handshake.KeyRing.SetSessionKey | src/device.rs:1110-1110 | From here on the session key is current; the cached cipher stays. |
| Handshake.KeyRing.ClearSessionKey | src/device.rs:982-988 | From here on the local key is current again; the cached cipher stays. |
| LedgerLaws.StepIsAccounted | src/device.rs:803-835 | Every step keeps the books: requests are settled in order, the next one is in hand, the rest is queued in order. |
| KeyLaws.StepKeepsKeys | src/device.rs:982-988 | Every step keeps what is said of session keys. |
| KeyLaws.StepKeepsOutgoing | src/device.rs:1405-1430 | Every step keeps what is said of sent frames, their keys and their numbers. |
| DemandLaws.StepKeepsDemand | src/device.rs:747-762 | Every step keeps that requests taken up on demand are not answered with a reply. |
| AnswerLaws.RequestGoesOut | src/device.rs:1189-1203 | The frame of the request in hand carries a higher number than any before it. |
| AnswerLaws.StepIsCarried | src/device.rs:1181-1287 | Every step keeps that each good answer so far, and the one awaited, has a frame that carries its request, with rising request numbers. |
| AnswerLaws.ReplyFollowsItsFrame | src/device.rs:1205-1287 | When a request is replied to its frame is out already. |
| ReplyLaws.StepKeepsHeard | src/device.rs:1182-1287 | Every step keeps that replies are the first accepted broadcasts since their requests began to listen, one after the other. |
| PactLaws.StepKeepsPacted | src/device.rs:1105-1110 | Every step keeps that session keys are those agreed in the one handshake of their connection. |
| Conduct.StepIsConducted | src/device.rs:657-1025 | Every step, from its event and the state before it alone: whether it ends an attempt, a connection or the connection task, and with which error; whether it counts as a failure or a message; exactly which requests are settled, in which order and how; state, session key and reader; what comes next; which frame is sent. |
| Conduct.StepKeepsStanding | src/device.rs:866-909 | Every step keeps that the device counts as connected only while it talks, or as a leftover after the end. |
| Conduct.StepKeepsFromOne | src/device.rs:852-853 | Every step keeps that a connection no request asked for begins with number 1. |
| Conduct.StartsAtOneExactly | src/device.rs:852-923 | A new connection begins with number 1 if and only if it is not made on demand, or no frame was packed in this round before. |
| Conduct.StepKeepsRoom | src/device.rs:271-271 | Every step keeps that at most 64 commands are queued. |
| Conduct.StepKeepsInLine | src/device.rs:1366-1391 | Every step keeps that the numbers of one connection follow each other without a gap. |
| TaskLaws.GoodAnswersWereSent | src/device.rs:1174-1301 | After every run each request acknowledged or replied to went out in exactly one frame that carries it, and frames carry requests in order of submission. |
| TaskLaws.RepliesAreFirstAnswers | src/device.rs:1182-1287 | After every run each request replied to got the first news since its subscription that answers it, an error or the device's own message by the rule, and no news answered two requests. |
| TaskLaws.ReplyCanArrive | src/device.rs:1205-1287 | A run from the start in which the first request is replied to. |
| TaskLaws.StepKeepsInvariant | src/device.rs:657-733 | Every step of callers, connection task and reader keeps the whole invariant. |
| TaskLaws.RunKeepsInvariant | src/device.rs:657-733 | So does every run. |
| TaskLaws.SettledStaysSettled | src/device.rs:602-613 | What is settled is never settled again or otherwise. |
| TaskLaws.RequestsAreSettledInOrder | src/device.rs:677-733 | After every run each request is settled, in hand or queued, and exactly one of these; they are settled in order of submission; at the end none is left; at most 64 are queued. |
| TaskLaws.QueueFills | src/device.rs:271-271 | Submissions fill an empty queue up to 64 commands, and the next one waits. |
| TaskLaws.SessionKeyFollowsHandshake | src/device.rs:1033-1112 | In every reachable state a session key exists only on an established connection, or as a leftover after the end, has 16 bytes, and exists there exactly under v3.4 and v3.5; the device counts as connected only there too. |
| TaskLaws.FramesUseTheRightKey | src/device.rs:1393-1403 | Every frame ever sent uses a 16-byte key: the local key in a handshake and under older versions, otherwise the session key, the same one throughout a connection. |
| TaskLaws.SessionKeysWereAgreed | src/device.rs:1056-1112 | After every run, a frame under a session key uses the very key that the client's nonce and the device's reply in the one handshake of that connection give, in terms of AES, GCM and HMAC. |
| TaskLaws.SequenceNumbersGrow | src/device.rs:1366-1391 | Sequence numbers on one connection increase by one over handshake, requests and heartbeats, up to the wrap, and begin with 1 where no request asked for the connection. |
| TaskLaws.DemandCanCountOn | src/device.rs:898-903 | A run in which a connection made on demand begins with number 2. |
| TaskLaws.FailureCountOverRuns | src/device.rs:708-711 | After every run the failure count is the number of failures since the device was last calm, failures and messages being those of the run's events: connections lost, attempts to be repeated, messages read. |
| TaskLaws.AttemptsWaitAfterFailures | src/device.rs:844-870 | After every run the next attempt waits exactly if there have been failures since then, connects at once otherwise, and is not made by a stopped device. |
| TaskLaws.RunIsLogged | src/device.rs:657-839 | Over every run, failures, broadcasts, verdicts and frames are those before it and, in order, what each event adds; nothing else is recorded and nothing lost. |
| TaskLaws.RecordsAreTheLog | src/device.rs:657-839 | From the start they are what the events add and nothing else. |
| TaskLaws.OnDemandRequestsGetNoReply | src/device.rs:747-762 | No run answers a request that brought up its own connection with the device's reply. |
| TaskLaws.OnDemandRequestTimesOut | src/device.rs:898-909 | A run in which the first request is such a one, is sent and times out. |
| TaskLaws.StoppedIsLeftExactly | src/device.rs:875-907 | A step leaves `Stopped` if and only if TCP comes up where no handshake is needed, or the handshake is concluded and its last frame written. |
| TaskLaws.StopHoldsExactly | src/device.rs:540-548 | A stopped device stays stopped throughout a run if and only if no step of the run is such a one. |
| TaskLaws.StopIsUndone | src/device.rs:540-548 | From any state in which a connection without a handshake is being made, stopping and then connecting ends connected. |
| TaskLaws.StopCanBeUndone | src/device.rs:540-548 | A run from the start that ends so. |
| DeviceTask.ConnectionTask.constructor | src/device.rs:264-315 | A new device is in the initial state, field by field, and meets the invariant. |
| DeviceTask.ConnectionTask.DrainRx | src/device.rs:1018-1025 | The loop empties the queue and settles its requests in order. |
| DeviceTask.ConnectionTask.NextWait | src/device.rs:855-862 | The next attempt waits exactly if there are failures; after `n` failures since the device was last calm, between 70 % and 100 % of min(16·2^(n-1), 4096) seconds. |
| DeviceTask.ConnectionTask.Perform | src/device.rs:657-839 | Every step of callers, connection task and reader, carried out on the fields, keeps the invariant of the object. |
| DeviceTask.ConnectionTask.RunTask | src/device.rs:657-733 | After any run of the object: its records have grown by exactly what the events add; what was settled stays so; requests are settled in order, at the end all; good answers have their own frames and replies are the first answers; requests on demand got no reply; the session key is where it belongs and came from its handshake; keys and numbers of frames are right; the failure count is that of the history. |
| Scanner.CacheIsTheLatestWord | src/scanner.rs:234-252 | Over any history the cache holds exactly the last thing heard of each device that was not invalidated since nor expired by a later packet. |
| Scanner.CacheOwnsItsIds | src/scanner.rs:252-252 | Each entry is stored under its own id. |
| Scanner.ScannerState.OnPacket | src/scanner.rs:234-252 | The device is stored under its id, and of the others exactly those heard of in the last 24 hours stay. |
| Scanner.ScannerState.InvalidateCache | src/scanner.rs:809-812 | The entry goes, and the result says whether there was one. |
| Scanner.ScannerState.CheckCacheAndCooldown | src/scanner.rs:582-607 | The exact conditions, in milliseconds, under which a cached device is returned without a scan. |
| Scanner.ScannerState.EnsureScanStarted | src/scanner.rs:609-622 | An uninterrupted call starts a scan exactly if none runs and it is forced, or none ever started, or 60 s have passed. |
| Scanner.WaitForCacheResult | src/scanner.rs:632-650 | The wait ends at the first look that finds the device, meets the deadline or finds no scan; it answers with the device asked for, or with nothing if that is not known even then. |
| Scanner.SnapshotIsDistinct | src/scanner.rs:472-475 | Whatever happened to the cache, a listing of it names each known device once. |
| Scanner.Unseen | src/scanner.rs:497-503 | The filter keeps exactly the devices not yielded yet. |
| Scanner.ScanStream | src/scanner.rs:468-526 | Whatever happens to the cache, no device is yielded twice over initial, incremental and final listings; every device known at any look is yielded, the last look included; nothing else is. |
| ScanFlight.CarefulStepKeepsSingle | src/scanner.rs:609-630 | Every operation but an unguarded store keeps at most one committed caller, with the flag telling whether there is one. |
| ScanFlight.CarelessStepStartsASecond | src/scanner.rs:457-466 | A store onto a set flag commits a second caller. |
| ScanFlight.BothMayLoop | src/scanner.rs:457-466 | Two committed callers may come to run their loops at the same time. |
| ScanFlight.SingleFlightExactly | src/scanner.rs:451-466 | Over every interleaving at most one caller is committed (runs its loop or is about to) throughout, if and only if no stream stores a flag that is set. |
| ScanFlight.EnsureIsSingleFlight | src/scanner.rs:609-630 | Over every interleaving of `ensure_scan_started` callers at most one is committed, so at most one loop runs, and the flag falls when it ends. |
| ScanFlight.StartsAreSpacedExactly | src/scanner.rs:609-622 | Over every interleaving a start comes 60 s (unforced) or 30 min (stream) after every earlier one if and only if the last scan time, read again then, would still let it pass; so always when none started since it was read. |
| ScanFlight.UninterruptedCall | src/scanner.rs:609-622 | A call taken as one step starts a scan exactly if none runs and none started, or 0 s (forced), 60 s or 30 min (stream) have passed since the last start, and then keeps that gap to every earlier start. |
| ScanFlight.TwoStreamsMayLoop | src/scanner.rs:451-466 | An interleaving of two streams in which both run their loops at once. |
| ScanFlight.LateReaderMayStart | src/scanner.rs:609-622 | An interleaving of two unforced callers with two starts at once. |

## Left out

- Internals of AES, GCM, HMAC, SHA-256, MD5, CRC-32 and Base64: library code; the model assumes their laws only. GCM's limit on message size is not modelled.
- Sockets, timers and the spawning of tasks: a timeout, a socket error or a cancellation is a step that may happen; random draws and nonces are inputs.
- Read timeouts in the middle of a frame: where the stream then stands is not specified by the source.
- JSON text: parsing and rendering are parameters with the one law that a rendered message parses.
- What each request expects as its reply (the effective command and the sub-device) is an input.
- `generate_payload`, the renaming of commands and the reshaping of LanExtStream messages: edits of JSON maps without a branch that can fail.
- Payload layers: modelled on values; that the source drains its buffers in place is not captured.
- Changes of version, device type, key or address by the user while a connection stands; an address found by discovery appears only as the version it brings.
- The last messages of a reader that is being aborted, which could still reach the next connection's listeners.
- Submissions that fall between two requests being refused in one `drain_rx`: a drain is one step.
- A closed command channel: the connection task holds a sender itself, so `recv` never reports one.
- Broadcasts to listeners other than the replies awaited: error codes sent on connecting and disconnecting are not modelled.
- UDP sockets, broadcasting and `parse_packet` of the scanner: a packet arrives already parsed.
- Builders, getters, setters, logging, error tables, `src/sync.rs`, `src/runtime.rs` and the Python bindings: no hard property lives there.
