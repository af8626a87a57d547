/** The texts on the wire, in literals, and what the parsers make of texts the bridge did not write. */
module WireFormat {
  import opened Types
  import opened Decimal
  import opened Codec
  import opened ProtocolAdapter

  // ---------------------------------------------------------------------------------------------
  // Numbers

  lemma {:induction false} LeadingSpacesOf(blanks: string, rest: string)
    requires forall i :: 0 <= i < |blanks| ==> IsSpace(blanks[i])
    requires rest == "" || !IsSpace(rest[0])
    ensures LeadingSpaces(blanks + rest) == |blanks|
  {
    if blanks == "" {
      assert blanks + rest == rest;
    } else {
      LeadingSpacesOf(blanks[1..], rest);
      assert (blanks + rest)[1..] == blanks[1..] + rest;
    }
  }

  lemma {:induction false} LeadingDigitsOf(digits: string, rest: string)
    requires AllDigits(digits) && (rest == "" || !IsDigit(rest[0]))
    ensures LeadingDigits(digits + rest) == |digits|
  {
    if digits == "" {
      assert digits + rest == rest;
    } else {
      LeadingDigitsOf(digits[1..], rest);
      assert (digits + rest)[1..] == digits[1..] + rest;
    }
  }

  lemma CharactersMean(c: char)
    ensures IsSpace(c) <==> c as int == 32 || 9 <= c as int <= 13
    ensures IsDigit(c) <==> 48 <= c as int <= 57
  {
  }

  lemma {:induction false} DigitsMean(digits: string, rest: string)
    requires AllDigits(digits) && (rest == "" || !IsDigit(rest[0]))
    ensures FromDigits(digits + rest) ==
            if digits == "" || Value(digits) >= 0x1_0000_0000_0000_0000 then None else Some(Value(digits))
  {
    LeadingDigitsOf(digits, rest);
    assert (digits + rest)[..|digits|] == digits;
  }

  lemma {:induction false} SignMeans(sign: string, u: string)
    requires sign == "" || sign == "+" || sign == "-"
    requires sign == "" && u != "" ==> u[0] != '+' && u[0] != '-'
    ensures FromSigned(sign + u) ==
            if sign == "-" && FromDigits(u).Some?
            then Some((0x1_0000_0000_0000_0000 - FromDigits(u).value) % 0x1_0000_0000_0000_0000) else FromDigits(u)
  {
    if sign == "" {
      assert sign + u == u;
    } else {
      assert (sign + u)[0] == sign[0] && (sign + u)[1..] == u;
    }
  }

  /**
   * Number fields: blanks, an optional sign, digits, and anything after them. No digits or a magnitude beyond 64
   * bits is an error; a minus sign negates modulo 2^64; what follows the digits is ignored.
   */
  lemma {:induction false} NumberMeans(blanks: string, sign: string, digits: string, rest: string)
    requires forall i :: 0 <= i < |blanks| ==> IsSpace(blanks[i])
    requires sign == "" || sign == "+" || sign == "-"
    requires AllDigits(digits) && (rest == "" || !IsDigit(rest[0]))
    requires sign == "" && digits == "" && rest != "" ==> !IsSpace(rest[0]) && rest[0] != '+' && rest[0] != '-'
    ensures StringToUint64(blanks + (sign + (digits + rest))) ==
            if digits == "" || Value(digits) >= 0x1_0000_0000_0000_0000 then None
            else if sign == "-" then Some((0x1_0000_0000_0000_0000 - Value(digits)) % 0x1_0000_0000_0000_0000)
            else Some(Value(digits))
  {
    FirstAfterSign(sign, digits, rest);
    BlanksMean(blanks, sign + (digits + rest));
    SignMeans(sign, digits + rest);
    DigitsMean(digits, rest);
  }

  lemma {:induction false} FirstAfterSign(sign: string, digits: string, rest: string)
    requires sign == "" || sign == "+" || sign == "-"
    requires AllDigits(digits)
    requires sign == "" && digits == "" && rest != "" ==> !IsSpace(rest[0]) && rest[0] != '+' && rest[0] != '-'
    ensures var u := digits + rest; var t := sign + u;
            && (t != "" ==> !IsSpace(t[0])) && (sign == "" && u != "" ==> u[0] != '+' && u[0] != '-')
  {
    assert digits != "" ==> IsDigit(digits[0]) && (digits + rest)[0] == digits[0];
  }

  lemma {:induction false} BlanksMean(blanks: string, t: string)
    requires forall i :: 0 <= i < |blanks| ==> IsSpace(blanks[i])
    requires t != "" ==> !IsSpace(t[0])
    ensures StringToUint64(blanks + t) == FromSigned(t)
  {
    LeadingSpacesOf(blanks, t);
    assert (blanks + t)[|blanks|..] == t;
  }

  /** The value of digits is positional, leading zeros included. */
  lemma ValueMeans(digits: string, d: char)
    requires AllDigits(digits) && IsDigit(d)
    ensures AllDigits(digits + [d]) && Value("") == 0
    ensures Value(digits + [d]) == 10 * Value(digits) + (d as int - 48)
  {
    assert (digits + [d])[..|digits|] == digits;
  }

  // ---------------------------------------------------------------------------------------------
  // Messages

  lemma EscapesMean(c: char, s: string)
    ensures Escape([]) == [] && Escape([c] + s) == (if c == '|' || c == '\\' then ['\\', c] else [c]) + Escape(s)
  {
    assert ([c] + s)[1..] == s;
  }

  lemma JoinMeans(a: string, b: string, rest: seq<string>)
    ensures Join([a]) == a && Join([a, b] + rest) == a + "|" + Join([b] + rest)
  {
    assert ([a, b] + rest)[1..] == [b] + rest;
  }

  function ChannelName(c: ChannelType): string {
    match c case Control => "control" case Telemetry => "telemetry" case Event => "event"
  }

  function QosName(q: DeliveryQoS): string {
    match q case BestEffort => "best_effort" case AtLeastOnce => "at_least_once"
  }

  /** The fields of a full message, in the order they are sent; strings are escaped. */
  lemma FullFields(e: Envelope)
    ensures Split(Encode(e)) ==
            [ToDecimal(e.schemaVersion), ChannelName(e.channel), QosName(e.qos), ToDecimal(e.sequence),
             ToDecimal(e.timestampMs), ToDecimal(e.ttlMs), Escape(e.source), Escape(e.target), Escape(e.topic),
             Escape(e.traceId), Escape(e.payload)]
  {
    SplitMessage(e, FullTail(e));
    assert EscapeAll(FullTail(e)) ==
           [Escape(e.source), Escape(e.target), Escape(e.topic), Escape(e.traceId), Escape(e.payload)];
  }

  /** ... and of a compact one. */
  lemma CompactFields(e: Envelope)
    ensures Split(EncodeCompact(e)) ==
            [ToDecimal(e.schemaVersion), ChannelName(e.channel), QosName(e.qos), ToDecimal(e.sequence),
             ToDecimal(e.timestampMs), ToDecimal(e.ttlMs), Escape(e.topic), Escape(e.payload)]
  {
    SplitMessage(e, CompactTail(e));
    assert EscapeAll(CompactTail(e)) == [Escape(e.topic), Escape(e.payload)];
  }

  predicate IsChannelName(s: string) {
    s == "control" || s == "telemetry" || s == "event"
  }

  predicate IsQosName(s: string) {
    s == "best_effort" || s == "at_least_once"
  }

  predicate IsNumber(s: string) {
    StringToUint64(s).Some?
  }

  /** The low 32 bits of a number field. */
  function Low32(s: string): nat
    requires IsNumber(s)
  {
    StringToUint64(s).value % 0x1_0000_0000
  }

  predicate IsHeader(f: seq<string>)
    requires |f| >= 6
  {
    && IsNumber(f[0]) && IsNumber(f[3]) && IsNumber(f[4]) && IsNumber(f[5])
    && Low32(f[0]) >= 1 && IsChannelName(f[1]) && IsQosName(f[2])
  }

  ghost predicate CarriesHeader(f: seq<string>, e: Envelope)
    requires |f| >= 6 && IsHeader(f)
  {
    && e.schemaVersion == Low32(f[0]) && ChannelName(e.channel) == f[1] && QosName(e.qos) == f[2]
    && Some(e.sequence) == StringToUint64(f[3]) && Some(e.timestampMs) == StringToUint64(f[4])
    && e.ttlMs == Low32(f[5]) && e.idempotencyKey == ""
  }

  lemma HeaderMeans(f: seq<string>)
    requires |f| >= 6
    ensures DecodeHeader(f).Some? <==> IsHeader(f)
    ensures IsHeader(f) ==>
              var e := DecodeHeader(f).value;
              CarriesHeader(f, e) && e.source == e.target == e.topic == e.traceId == e.payload == ""
  {
  }

  /** Exactly which texts are messages, whoever wrote them, and what each field becomes. */
  lemma DecodeMeans(text: string)
    ensures var f, r := Split(text), Decode(text);
            && (r.Success? <==> text != "" && (|f| == 11 || |f| == 8) && IsHeader(f))
            && (r.Success? ==> CarriesHeader(f, r.value))
            && (r.Success? && |f| == 11 ==>
                  && r.value.source == Unescape(f[6]) && r.value.target == Unescape(f[7])
                  && r.value.topic == Unescape(f[8]) && r.value.traceId == Unescape(f[9])
                  && r.value.payload == Unescape(f[10]))
            && (r.Success? && |f| == 8 ==>
                  && r.value.source == r.value.target == r.value.traceId == ""
                  && r.value.topic == Unescape(f[6]) && r.value.payload == Unescape(f[7]))
  {
    if |Split(text)| >= 6 {
      HeaderMeans(Split(text));
    }
  }

  // ---------------------------------------------------------------------------------------------
  // Headers and frames

  /** Every mode's header, and the frames of the two framed modes. */
  lemma WireTexts(body: string)
    ensures WrapEnvelopeHeader(LegacyPipe, body) == "pm=" + "legacy" + ";" + ("pv=" + "1" + ";" + body)
    ensures WrapEnvelopeHeader(Compact, body) == "pm=" + "compact" + ";" + ("pv=" + "1" + ";" + body)
    ensures WrapEnvelopeHeader(ProtobufReserved, body) == "pm=" + "protobuf" + ";" + ("pv=" + "2" + ";" + body)
    ensures WrapEnvelopeHeader(CborReserved, body) == "pm=" + "cbor" + ";" + ("pv=" + "2" + ";" + body)
    ensures BuildWireFrame(FrameMarker(ProtobufReserved), body) == "PBV2;" + (ToDecimal(|body|) + ";" + body)
    ensures BuildWireFrame(FrameMarker(CborReserved), body) == "CBV2;" + (ToDecimal(|body|) + ";" + body)
  {
    assert ToDecimal(1) == "1" && ToDecimal(2) == "2";
  }

  /** What each mode puts into them. */
  lemma BodiesMean(e: Envelope)
    ensures EncodeBody(LegacyPipe, e) == Encode(e) && EncodeBody(Compact, e) == EncodeCompact(e)
    ensures EncodeBody(ProtobufReserved, e) == BuildWireFrame("PBV2;", EncodeCompact(e))
    ensures EncodeBody(CborReserved, e) == BuildWireFrame("CBV2;", EncodeCompact(e))
  {
  }

  /** A tag the parser does not know means legacy. */
  lemma TagsMean(tag: string)
    ensures ParseProtocolTag(tag) ==
            if tag == "compact" then Compact
            else if tag == "protobuf" then ProtobufReserved
            else if tag == "cbor" then CborReserved
            else LegacyPipe
  {
  }

  /**
   * Every shape a text can have to the header parser: no prefix is a legacy body; a prefix without a tag or without
   * a separator is an error; after the tag comes a version token if there is another separator, and it must say so.
   */
  lemma HeadersMean(text: string, tag: string, token: string, body: string)
    requires SeparatorFree(tag) && SeparatorFree(token)
    ensures !("pm=" <= text) ==> SplitEnvelopeHeader(text) == Some(Declared(LegacyPipe, text))
    ensures SplitEnvelopeHeader("pm=" + tag).None?
    ensures SplitEnvelopeHeader("pm=;" + body).None?
    ensures tag != "" ==> SplitEnvelopeHeader("pm=" + tag + ";" + token) == Some(Declared(ParseProtocolTag(tag), token))
    ensures tag != "" ==>
              SplitEnvelopeHeader("pm=" + tag + ";" + (token + ";" + body)) ==
              if "pv=" <= token then Some(Declared(ParseProtocolTag(tag), body)) else None
  {
    NoSeparator(tag);
    EmptyTag(body);
    if tag != "" {
      SplitAfterTag(tag, token);
      SplitAfterTag(tag, token + ";" + body);
      SplitVersionToken(ParseProtocolTag(tag), token, body);
    }
  }

  lemma NoSeparator(tag: string)
    requires SeparatorFree(tag)
    ensures SplitEnvelopeHeader("pm=" + tag).None?
  {
    var text := "pm=" + tag;
    forall i | 0 <= i < |text| ensures text[i] != HEADER_SEPARATOR {
      assert text[i] == if i < 3 then "pm="[i] else tag[i - 3];
    }
  }

  lemma EmptyTag(body: string)
    ensures SplitEnvelopeHeader("pm=;" + body).None?
  {
    var text := "pm=;" + body;
    assert text[3] == ';';
    FindFirstSeparator(text, 0, 3);
  }

  /** A text without a header is tried as a legacy message, then in the receiver's mode; an empty one never decodes. */
  lemma HeaderlessDecodes(receiver: ProtocolMode, text: string)
    requires !("pm=" <= text)
    ensures DecodeByProtocol(receiver, text) ==
            if Decode(text).Success? then Decode(text) else DecodeOnce(receiver, text)
    ensures DecodeByProtocol(receiver, "") == Failure(InvalidParam)
  {
  }
}
