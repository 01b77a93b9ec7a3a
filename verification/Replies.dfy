/**
  The frames the server answers with: errors and their reasons, the offer and the verdict of a PUT;
  and what the C client makes of them.
 */
module Replies {
  import opened ByteOrder
  import opened Names
  import opened Frames
  import opened Uploads

  // ----- errors

  datatype Unpacked = Error(reason: byte, text: bytes) | BadError

  /** `pack_error`, on the bytes of the text. */
  function PackError(reason: byte, text: bytes): bytes
    requires |text| < U16_LIMIT
  {
    [reason] + BigEndian(|text|, 2) + text
  }

  /** `unpack_error`. */
  function UnpackError(payload: bytes): Unpacked {
    if |payload| < 3 || |payload| != 3 + Value(payload[1..3]) then BadError
    else Error(payload[0], payload[3..])
  }

  /** Reason and text come back. */
  lemma UnpackPack(reason: byte, text: bytes)
    requires |text| < U16_LIMIT
    ensures UnpackError(PackError(reason, text)) == Error(reason, text)
  {
    hide BigEndian, Value;
    U16RoundTrip(|text|);
    var p := PackError(reason, text);
    assert p[1..3] == BigEndian(|text|, 2) && p[3..] == text;
  }

  /** And only from their own encoding. */
  lemma PackUnpack(payload: bytes)
    requires UnpackError(payload).Error?
    ensures var u := UnpackError(payload); |u.text| < U16_LIMIT && PackError(u.reason, u.text) == payload
  {
    hide BigEndian, Value;
    U16OfBytes(payload[1..3]);
    assert payload == [payload[0]] + payload[1..3] + payload[3..];
  }

  /** An error frame; its text is left empty here. */
  function ErrorFrame(reason: byte): Frame {
    Frame(T_ERROR, PackError(reason, []))
  }

  // ----- the two replies to a PUT

  /** Step 1's reply: the resume offset in an OK frame. */
  function OfferFrame(offset: u64): Frame {
    Frame(T_OK, BigEndian(offset, 8))
  }

  /** The verdict. */
  function VerdictFrame(outcome: Outcome): Frame {
    if outcome.Stored? then Frame(T_OK, [])
    else ErrorFrame(if outcome.Corrupt? then E_CORRUPT else E_ALREADY_EXISTS)
  }

  /** What a frame tells a client that is waiting for the verdict. */
  function Understood(f: Frame): Outcome {
    if f.kind == T_OK then Stored
    else
      match UnpackError(f.payload)
      case BadError => Dropped
      case Error(reason, _) => if reason == E_CORRUPT then Corrupt else AlreadyExists
  }

  /** The three verdicts are told apart. */
  lemma VerdictUnderstood(outcome: Outcome)
    requires outcome.Stored? || outcome.Corrupt? || outcome.AlreadyExists?
    ensures Understood(VerdictFrame(outcome)) == outcome
    ensures outcome.Corrupt? ==> UnpackError(VerdictFrame(outcome).payload) == Error(E_CORRUPT, [])
    ensures outcome.AlreadyExists? ==> UnpackError(VerdictFrame(outcome).payload) == Error(E_ALREADY_EXISTS, [])
  {
    UnpackPack(E_CORRUPT, []);
    UnpackPack(E_ALREADY_EXISTS, []);
  }

  // ----- as the C client reads them

  /** The offset the server puts in the frame is the offset the client takes out. */
  lemma OfferReadBack(offset: u64, tail: bytes)
    ensures CDecode(Encode(OfferFrame(offset)) + tail) == CFrame(OfferFrame(offset), tail)
    ensures Value(OfferFrame(offset).payload[..8]) == offset
  {
    hide BigEndian, Value, Encode, CDecode;
    U64RoundTrip(offset);
    DecodeEncode(OfferFrame(offset), tail);
    ReadersAgree(Encode(OfferFrame(offset)) + tail);
    assert OfferFrame(offset).payload[..8] == OfferFrame(offset).payload;
  }

  lemma VerdictReadBack(outcome: Outcome, tail: bytes)
    ensures CDecode(Encode(VerdictFrame(outcome)) + tail) == CFrame(VerdictFrame(outcome), tail)
  {
    hide Encode, CDecode;
    DecodeEncode(VerdictFrame(outcome), tail);
    ReadersAgree(Encode(VerdictFrame(outcome)) + tail);
  }

  lemma ErrorReadBack(reason: byte, tail: bytes)
    ensures CDecode(Encode(ErrorFrame(reason)) + tail) == CFrame(ErrorFrame(reason), tail)
    ensures UnpackError(ErrorFrame(reason).payload) == Error(reason, [])
  {
    hide Encode, CDecode;
    DecodeEncode(ErrorFrame(reason), tail);
    ReadersAgree(Encode(ErrorFrame(reason)) + tail);
    UnpackPack(reason, []);
  }

  lemma OkReadBack(tail: bytes)
    ensures CDecode(Encode(Frame(T_OK, [])) + tail) == CFrame(Frame(T_OK, []), tail)
  {
    hide Encode, CDecode;
    DecodeEncode(Frame(T_OK, []), tail);
    ReadersAgree(Encode(Frame(T_OK, [])) + tail);
  }
}
