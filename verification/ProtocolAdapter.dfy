/** The self-describing envelope around a message: src/interconnect/message_protocol_adapter.cpp. */
module ProtocolAdapter {
  import opened Types
  import opened Decimal
  import opened Codec

  const PROTOCOL_PREFIX := "pm="
  const VERSION_PREFIX := "pv="
  const HEADER_SEPARATOR := ';'

  function ProtocolTag(mode: ProtocolMode): string {
    match mode
    case LegacyPipe => "legacy"
    case Compact => "compact"
    case ProtobufReserved => "protobuf"
    case CborReserved => "cbor"
  }

  function ParseProtocolTag(tag: string): ProtocolMode {
    if tag == "legacy" then LegacyPipe
    else if tag == "compact" then Compact
    else if tag == "protobuf" then ProtobufReserved
    else if tag == "cbor" then CborReserved
    else LegacyPipe
  }

  function WireVersion(mode: ProtocolMode): nat {
    match mode
    case LegacyPipe => 1
    case Compact => 1
    case ProtobufReserved => 2
    case CborReserved => 2
  }

  predicate IsFramed(mode: ProtocolMode) {
    mode.ProtobufReserved? || mode.CborReserved?
  }

  function FrameMarker(mode: ProtocolMode): string
    requires IsFramed(mode)
  {
    if mode.ProtobufReserved? then "PBV2;" else "CBV2;"
  }

  /** `text.find(';', from)`. */
  function FindSeparator(text: string, from: nat): (r: Option<nat>)
    requires from <= |text|
    ensures r.Some? ==> from <= r.value < |text| && text[r.value] == HEADER_SEPARATOR
    ensures r.Some? ==> forall i :: from <= i < r.value ==> text[i] != HEADER_SEPARATOR
    ensures r.None? ==> forall i :: from <= i < |text| ==> text[i] != HEADER_SEPARATOR
    decreases |text| - from
  {
    if from == |text| then None
    else if text[from] == HEADER_SEPARATOR then Some(from)
    else FindSeparator(text, from + 1)
  }

  datatype Declared = Declared(mode: ProtocolMode, body: string)

  /** Drops the version token, if there is a further ';' at all; the token must start with "pv=". */
  function SplitVersion(mode: ProtocolMode, rest: string): Option<Declared> {
    var second := FindSeparator(rest, 0);
    if second.None? then Some(Declared(mode, rest))
    else if !(VERSION_PREFIX <= rest[..second.value]) then None
    else Some(Declared(mode, rest[second.value + 1..]))
  }

  function SplitEnvelopeHeader(text: string): Option<Declared> {
    if !(PROTOCOL_PREFIX <= text) then Some(Declared(LegacyPipe, text)) else
    var first := FindSeparator(text, 0);
    if first.None? || first.value <= 3 then None
    else SplitVersion(ParseProtocolTag(text[3..first.value]), text[first.value + 1..])
  }

  /** What follows a frame marker: a length token in digits, a separator, and exactly that many characters. */
  function FramePayload(tail: string): Option<string> {
    var sep := FindSeparator(tail, 0);
    if sep.None? then None else
    var token, payload := tail[..sep.value], tail[sep.value + 1..];
    if token == [] || !AllDigits(token) || |payload| != Value(token) then None else Some(payload)
  }

  function ParseWireFrame(body: string, marker: string): Option<string> {
    if marker <= body then FramePayload(body[|marker|..]) else None
  }

  function BuildWireFrame(marker: string, payload: string): string {
    marker + (ToDecimal(|payload|) + [HEADER_SEPARATOR] + payload)
  }

  function VersionToken(mode: ProtocolMode): string {
    VERSION_PREFIX + ToDecimal(WireVersion(mode))
  }

  function WrapEnvelopeHeader(mode: ProtocolMode, body: string): string {
    PROTOCOL_PREFIX + ProtocolTag(mode) + [HEADER_SEPARATOR] + (VersionToken(mode) + [HEADER_SEPARATOR] + body)
  }

  function EncodeBody(mode: ProtocolMode, e: Envelope): string {
    match mode
    case LegacyPipe => Encode(e)
    case Compact => EncodeCompact(e)
    case ProtobufReserved => BuildWireFrame(FrameMarker(mode), EncodeCompact(e))
    case CborReserved => BuildWireFrame(FrameMarker(mode), EncodeCompact(e))
  }

  function EncodeByProtocol(mode: ProtocolMode, e: Envelope): string {
    WrapEnvelopeHeader(mode, EncodeBody(mode, e))
  }

  function DecodeOnce(mode: ProtocolMode, body: string): Result<Envelope> {
    if !IsFramed(mode) then Decode(body) else
    var payload := ParseWireFrame(body, FrameMarker(mode));
    if payload.None? then Failure(InvalidParam) else Decode(payload.value)
  }

  /** The declared mode is tried first, then the receiver's own mode if it differs. */
  function DecodeByProtocol(receiver: ProtocolMode, text: string): Result<Envelope> {
    if text == [] then Failure(InvalidParam) else
    var declared := SplitEnvelopeHeader(text);
    if declared.None? then Failure(InvalidParam) else
    var first := DecodeOnce(declared.value.mode, declared.value.body);
    if first.Success? || receiver == declared.value.mode then first
    else DecodeOnce(receiver, declared.value.body)
  }

  /** `DecodeByProtocol` with its in-out envelope, which a rejected message never touches. */
  method DecodeInto(receiver: ProtocolMode, text: string, prior: Envelope) returns (ec: ErrorCode, out: Envelope)
    ensures ec == Ok <==> DecodeByProtocol(receiver, text).Success?
    ensures ec == Ok ==> out == DecodeByProtocol(receiver, text).value
    ensures ec != Ok ==> ec == DecodeByProtocol(receiver, text).error && out == prior
  {
    ec, out := InvalidParam, prior;
    if text == [] {
      return;
    }
    var declared := SplitEnvelopeHeader(text);
    if declared.None? {
      return;
    }
    var firstTry, secondTry := declared.value.mode, receiver;
    ec, out := DecodeAttempt(firstTry, declared.value.body, out);
    if ec == Ok {
      return;
    }
    if secondTry != firstTry {
      ec, out := DecodeAttempt(secondTry, declared.value.body, out);
    }
  }

  method DecodeAttempt(mode: ProtocolMode, body: string, prior: Envelope) returns (ec: ErrorCode, out: Envelope)
    ensures DecodeOnce(mode, body).Success? ==> ec == Ok && out == DecodeOnce(mode, body).value
    ensures DecodeOnce(mode, body).Failure? ==> ec == DecodeOnce(mode, body).error == InvalidParam && out == prior
  {
    if !IsFramed(mode) {
      ec, out := DecodeMessage(body, prior);
      return;
    }
    var payload := ParseWireFrame(body, FrameMarker(mode));
    if payload.None? {
      ec, out := InvalidParam, prior;
      return;
    }
    ec, out := DecodeMessage(payload.value, prior);
  }

  // ---------------------------------------------------------------------------------------------
  // Frames and headers are transparent

  lemma {:induction false} FindFirstSeparator(text: string, from: nat, at: nat)
    requires from <= at < |text| && text[at] == HEADER_SEPARATOR
    requires forall i :: from <= i < at ==> text[i] != HEADER_SEPARATOR
    ensures FindSeparator(text, from) == Some(at)
  {
    assert FindSeparator(text, from).Some?;
  }

  lemma PayloadOfParts(token: string, payload: string)
    requires SeparatorFree(token)
    ensures FramePayload(token + [HEADER_SEPARATOR] + payload) ==
            if token != [] && AllDigits(token) && Value(token) == |payload| then Some(payload) else None
  {
    var tail := token + [HEADER_SEPARATOR] + payload;
    FindFirstSeparator(tail, 0, |token|);
    assert tail[..|token|] == token;
    assert tail[|token| + 1..] == payload;
  }

  /** What a frame parser makes of a marker, a separator-free token, and everything after the separator. */
  lemma ParseFrameParts(marker: string, token: string, payload: string)
    requires SeparatorFree(token)
    ensures ParseWireFrame(marker + (token + [HEADER_SEPARATOR] + payload), marker) ==
            if token != [] && AllDigits(token) && Value(token) == |payload| then Some(payload) else None
  {
    var tail := token + [HEADER_SEPARATOR] + payload;
    PayloadOfParts(token, payload);
    assert (marker + tail)[|marker|..] == tail;
  }

  lemma ParseBuiltFrame(marker: string, payload: string)
    ensures ParseWireFrame(BuildWireFrame(marker, payload), marker) == Some(payload)
  {
    var token := ToDecimal(|payload|);
    ValueOfDecimal(|payload|);
    forall i | 0 <= i < |token| ensures token[i] != HEADER_SEPARATOR {
      assert IsDigit(token[i]);
    }
    ParseFrameParts(marker, token, payload);
  }

  lemma TagRoundTrip(mode: ProtocolMode)
    ensures ParseProtocolTag(ProtocolTag(mode)) == mode
    ensures forall i :: 0 <= i < |ProtocolTag(mode)| ==> ProtocolTag(mode)[i] != HEADER_SEPARATOR
  {
    assert |"legacy"| == 6 && |"compact"| == 7 && |"protobuf"| == 8 && |"cbor"| == 4;
  }

  predicate SeparatorFree(s: string) {
    forall i :: 0 <= i < |s| ==> s[i] != HEADER_SEPARATOR
  }

  lemma SplitAfterTag(tag: string, rest: string)
    requires tag != [] && SeparatorFree(tag)
    ensures SplitEnvelopeHeader(PROTOCOL_PREFIX + tag + [HEADER_SEPARATOR] + rest) ==
            SplitVersion(ParseProtocolTag(tag), rest)
  {
    var text := PROTOCOL_PREFIX + tag + [HEADER_SEPARATOR] + rest;
    var first := 3 + |tag|;
    assert text[..3] == PROTOCOL_PREFIX;
    assert text[3..first] == tag;
    assert text[first + 1..] == rest;
    forall i | 0 <= i < first ensures text[i] != HEADER_SEPARATOR {
      assert i < 3 ==> text[i] == PROTOCOL_PREFIX[i];
      assert i >= 3 ==> text[i] == tag[i - 3];
    }
    FindFirstSeparator(text, 0, first);
  }

  lemma SplitVersionToken(mode: ProtocolMode, token: string, body: string)
    requires SeparatorFree(token)
    ensures SplitVersion(mode, token + [HEADER_SEPARATOR] + body) ==
            if VERSION_PREFIX <= token then Some(Declared(mode, body)) else None
  {
    var rest := token + [HEADER_SEPARATOR] + body;
    FindFirstSeparator(rest, 0, |token|);
    assert rest[..|token|] == token;
    assert rest[|token| + 1..] == body;
  }

  lemma SplitWrapped(mode: ProtocolMode, body: string)
    ensures SplitEnvelopeHeader(WrapEnvelopeHeader(mode, body)) == Some(Declared(mode, body))
  {
    TagRoundTrip(mode);
    VersionTokenIsClean(mode);
    SplitAfterTag(ProtocolTag(mode), VersionToken(mode) + [HEADER_SEPARATOR] + body);
    SplitVersionToken(mode, VersionToken(mode), body);
  }

  lemma VersionTokenIsClean(mode: ProtocolMode)
    ensures SeparatorFree(VersionToken(mode)) && VERSION_PREFIX <= VersionToken(mode)
  {
    var digits := ToDecimal(WireVersion(mode));
    var token := VersionToken(mode);
    forall i | 0 <= i < |token| ensures token[i] != HEADER_SEPARATOR {
      assert i >= 3 ==> token[i] == digits[i - 3] && IsDigit(digits[i - 3]);
    }
  }

  /** A wrapped body is tried in the mode it declares, then in the receiver's. */
  lemma DecodeWrapped(receiver: ProtocolMode, sender: ProtocolMode, body: string)
    ensures DecodeByProtocol(receiver, WrapEnvelopeHeader(sender, body)) ==
            if DecodeOnce(sender, body).Success? then DecodeOnce(sender, body) else DecodeOnce(receiver, body)
  {
    SplitWrapped(sender, body);
    assert |WrapEnvelopeHeader(sender, body)| > 3;
  }

  // ---------------------------------------------------------------------------------------------
  // Main results

  /** What each sender mode carries across the wire. */
  function Projection(sender: ProtocolMode, e: Envelope): Envelope {
    if sender.LegacyPipe? then FullProjection(e) else CompactProjection(e)
  }

  lemma DecodeOwnBody(sender: ProtocolMode, e: Envelope)
    ensures DecodeOnce(sender, EncodeBody(sender, e)) ==
            if e.schemaVersion >= 1 then Success(Projection(sender, e)) else Failure(InvalidParam)
  {
    DecodeEncode(e);
    DecodeEncodeCompact(e);
    if IsFramed(sender) {
      ParseBuiltFrame(FrameMarker(sender), EncodeCompact(e));
    }
  }

  /** A body that starts with one mode's marker means nothing to any other mode. */
  lemma MarkedBodyIsForeign(sender: ProtocolMode, receiver: ProtocolMode, body: string)
    requires IsFramed(sender) && FrameMarker(sender) <= body && receiver != sender
    ensures DecodeOnce(receiver, body) == Failure(InvalidParam)
  {
    assert body[0] == FrameMarker(sender)[0];
    if IsFramed(receiver) {
      assert FrameMarker(receiver)[0] != FrameMarker(sender)[0];
    } else {
      DecodeRejectsLetters(body);
    }
  }

  /** An unframed message never looks like a frame: it starts with a digit. */
  lemma PlainBodyIsNoFrame(sender: ProtocolMode, receiver: ProtocolMode, e: Envelope)
    requires !IsFramed(sender) && IsFramed(receiver)
    ensures DecodeOnce(receiver, EncodeBody(sender, e)) == Failure(InvalidParam)
  {
    var body := EncodeBody(sender, e);
    assert ToDecimal(e.schemaVersion) <= body;
    assert IsDigit(ToDecimal(e.schemaVersion)[0]);
    assert body[0] == ToDecimal(e.schemaVersion)[0];
    assert FrameMarker(receiver)[0] != body[0];
  }

  /**
   * Every sender mode is understood by every receiver mode, and the outcome does not depend on the receiver:
   * the sender mode's projection if the schema version is at least one, a rejection otherwise.
   */
  lemma AllPairsInteroperate(sender: ProtocolMode, receiver: ProtocolMode, e: Envelope)
    ensures DecodeByProtocol(receiver, EncodeByProtocol(sender, e)) ==
            if e.schemaVersion >= 1 then Success(Projection(sender, e)) else Failure(InvalidParam)
  {
    var body := EncodeBody(sender, e);
    DecodeWrapped(receiver, sender, body);
    DecodeOwnBody(sender, e);
    if e.schemaVersion < 1 && receiver != sender {
      if IsFramed(sender) {
        assert FrameMarker(sender) <= body;
        MarkedBodyIsForeign(sender, receiver, body);
      } else if IsFramed(receiver) {
        PlainBodyIsNoFrame(sender, receiver, e);
      } else {
        assert DecodeOnce(receiver, body) == DecodeOnce(sender, body);
      }
    }
  }

  /**
   * A message that declares a framed mode and carries that mode's marker is accepted, under every receiver
   * mode, exactly when its frame is sound and the framed payload decodes.
   */
  lemma MarkedMessageAccepted(receiver: ProtocolMode, text: string)
    requires SplitEnvelopeHeader(text).Some?
    requires var d := SplitEnvelopeHeader(text).value; IsFramed(d.mode) && FrameMarker(d.mode) <= d.body
    ensures var d := SplitEnvelopeHeader(text).value;
            var payload := ParseWireFrame(d.body, FrameMarker(d.mode));
            DecodeByProtocol(receiver, text) == if payload.Some? then Decode(payload.value) else Failure(InvalidParam)
  {
    var d := SplitEnvelopeHeader(text).value;
    assert text != [];
    if receiver != d.mode {
      MarkedBodyIsForeign(d.mode, receiver, d.body);
    }
    DecodeFailureIsInvalidParam(d.mode, d.body);
  }

  lemma DecodeFailureIsInvalidParam(mode: ProtocolMode, body: string)
    ensures DecodeOnce(mode, body).Failure? ==> DecodeOnce(mode, body).error == InvalidParam
  {
  }

  /**
   * A length token that disagrees with what follows it is fatal for every message that declares the mode, whatever
   * its version token and whatever the receiver mode.
   */
  lemma WrongLengthRejected(sender: ProtocolMode, receiver: ProtocolMode, token: string, payload: string, text: string)
    requires IsFramed(sender) && token != [] && AllDigits(token) && Value(token) != |payload|
    requires SplitEnvelopeHeader(text) ==
             Some(Declared(sender, FrameMarker(sender) + (token + [HEADER_SEPARATOR] + payload)))
    ensures DecodeByProtocol(receiver, text) == Failure(InvalidParam)
  {
    forall i | 0 <= i < |token| ensures token[i] != HEADER_SEPARATOR {
      assert IsDigit(token[i]);
    }
    ParseFrameParts(FrameMarker(sender), token, payload);
    MarkedMessageAccepted(receiver, text);
  }

  /** A message in the older header format, which carries no version token. */
  function OldFormat(tag: string, body: string): string {
    PROTOCOL_PREFIX + tag + [HEADER_SEPARATOR] + body
  }

  /**
   * The parser is documented to accept the older header too, but it reads up to the next ';' as a version
   * token: such a message keeps its body exactly when the body holds no ';'.
   */
  lemma OldFormatKeepsBody(tag: string, body: string)
    requires tag != [] && SeparatorFree(tag)
    ensures SplitEnvelopeHeader(OldFormat(tag, body)) == Some(Declared(ParseProtocolTag(tag), body)) <==>
            SeparatorFree(body)
  {
    SplitAfterTag(tag, body);
    var second := FindSeparator(body, 0);
    if second.Some? {
      assert |body[second.value + 1..]| < |body|;
    }
  }

  lemma MarkerIsNoVersion(sender: ProtocolMode, mode: ProtocolMode, tail: string)
    requires IsFramed(sender)
    ensures SplitVersion(mode, FrameMarker(sender) + tail).None?
  {
    var rest := FrameMarker(sender) + tail;
    assert forall i :: 0 <= i < 5 ==> rest[i] == FrameMarker(sender)[i];
    FindFirstSeparator(rest, 0, 4);
    assert rest[..4][0] != VERSION_PREFIX[0];
  }

  /** In particular a framed message behind the older header is refused by every receiver. */
  lemma OldFormatFrameRefused(sender: ProtocolMode, receiver: ProtocolMode, e: Envelope)
    requires IsFramed(sender)
    ensures DecodeByProtocol(receiver, OldFormat(ProtocolTag(sender), EncodeBody(sender, e))) == Failure(InvalidParam)
  {
    TagRoundTrip(sender);
    var body := EncodeBody(sender, e);
    SplitAfterTag(ProtocolTag(sender), body);
    var tail := ToDecimal(|EncodeCompact(e)|) + [HEADER_SEPARATOR] + EncodeCompact(e);
    assert body == FrameMarker(sender) + tail;
    MarkerIsNoVersion(sender, sender, tail);
    assert SplitEnvelopeHeader(OldFormat(ProtocolTag(sender), body)).None?;
  }
}
