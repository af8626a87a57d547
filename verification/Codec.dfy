/** The '|'-separated text codec of src/interconnect/message_codec.cpp. */
module Codec {
  import opened Types
  import opened Decimal

  const SEPARATOR := '|'
  const ESCAPE := '\\'
  const FULL_FIELDS := 11
  const COMPACT_FIELDS := 8

  // ---------------------------------------------------------------------------------------------
  // Escaping one field

  predicate NeedsEscape(c: char) {
    c == ESCAPE || c == SEPARATOR
  }

  function EscapeChar(c: char): string {
    if NeedsEscape(c) then [ESCAPE, c] else [c]
  }

  function Escape(s: string): string {
    if s == [] then [] else EscapeChar(s[0]) + Escape(s[1..])
  }

  /** `escaped` says that the previous character was an unconsumed backslash. */
  function UnescapeFrom(s: string, escaped: bool): string {
    if s == [] then (if escaped then [ESCAPE] else [])
    else if !escaped && s[0] == ESCAPE then UnescapeFrom(s[1..], true)
    else [s[0]] + UnescapeFrom(s[1..], false)
  }

  function Unescape(s: string): string {
    UnescapeFrom(s, false)
  }

  method EscapeField(input: string) returns (out: string)
    ensures out == Escape(input)
    ensures Unescape(out) == input
  {
    out := [];
    for i := 0 to |input|
      invariant out + Escape(input[i..]) == Escape(input)
    {
      var ch := input[i];
      EscapeStep(input, i, out);
      ghost var before := out;
      if ch == ESCAPE || ch == SEPARATOR {
        out := out + [ESCAPE];
      }
      out := out + [ch];
      assert out == before + EscapeChar(ch);
    }
    UnescapeEscape(input);
  }

  lemma EscapeStep(s: string, i: nat, out: string)
    requires i < |s|
    ensures out + Escape(s[i..]) == out + EscapeChar(s[i]) + Escape(s[i + 1..])
  {
    assert s[i..][1..] == s[i + 1..];
    ConcatAssociates(out, EscapeChar(s[i]), Escape(s[i + 1..]));
  }

  method UnescapeField(input: string) returns (out: string)
    ensures out == Unescape(input)
  {
    out := [];
    var escaped := false;
    for i := 0 to |input|
      invariant out + UnescapeFrom(input[i..], escaped) == Unescape(input)
    {
      var ch := input[i];
      UnescapeStep(input, i, escaped, out);
      if escaped {
        out := out + [ch];
        escaped := false;
      } else if ch == ESCAPE {
        escaped := true;
      } else {
        out := out + [ch];
      }
    }
    if escaped {
      out := out + [ESCAPE];
    }
  }

  lemma UnescapeStep(s: string, i: nat, escaped: bool, out: string)
    requires i < |s|
    ensures out + UnescapeFrom(s[i..], escaped) ==
            if !escaped && s[i] == ESCAPE then out + UnescapeFrom(s[i + 1..], true)
            else out + [s[i]] + UnescapeFrom(s[i + 1..], false)
  {
    assert s[i..][1..] == s[i + 1..];
  }

  lemma {:induction false} UnescapeEscape(s: string)
    ensures Unescape(Escape(s)) == s
  {
    if s != [] {
      var c, rest := s[0], Escape(s[1..]);
      UnescapeEscape(s[1..]);
      if NeedsEscape(c) {
        var tail := [c] + rest;
        assert Escape(s)[1..] == tail && tail[1..] == rest;
        assert UnescapeFrom(tail, true) == [c] + UnescapeFrom(rest, false);
      } else {
        assert Escape(s)[1..] == rest;
      }
    }
  }

  lemma {:induction false} EscapeOfPlain(s: string)
    requires forall i :: 0 <= i < |s| ==> !NeedsEscape(s[i])
    ensures Escape(s) == s
  {
    if s != [] {
      EscapeOfPlain(s[1..]);
    }
  }

  // ---------------------------------------------------------------------------------------------
  // Joining and splitting

  function Join(fields: seq<string>): string
    requires fields != []
  {
    if |fields| == 1 then fields[0] else fields[0] + [SEPARATOR] + Join(fields[1..])
  }

  function EscapeAll(fields: seq<string>): (r: seq<string>)
    ensures |r| == |fields|
    ensures forall i :: 0 <= i < |r| ==> r[i] == Escape(fields[i])
  {
    if fields == [] then [] else [Escape(fields[0])] + EscapeAll(fields[1..])
  }

  /** `current` is the open field; `odd` says that it ends in an odd run of backslashes. */
  function SplitFrom(s: string, current: string, odd: bool): (r: seq<string>)
    ensures r != []
  {
    if s == [] then [current]
    else if s[0] == SEPARATOR && !odd then [current] + SplitFrom(s[1..], [], false)
    else SplitFrom(s[1..], current + [s[0]], s[0] == ESCAPE && !odd)
  }

  function Split(text: string): (r: seq<string>)
    ensures r != []
  {
    SplitFrom(text, [], false)
  }

  method SplitEscaped(text: string) returns (fields: seq<string>)
    ensures fields == Split(text)
    ensures fields != [] && Join(fields) == text
  {
    fields := [];
    var current: string := [];
    var backslashRun := 0;
    for i := 0 to |text|
      invariant backslashRun >= 0
      invariant fields + SplitFrom(text[i..], current, backslashRun % 2 == 1) == Split(text)
    {
      var ch := text[i];
      assert text[i..][1..] == text[i + 1..];
      var separatorEscaped := ch == SEPARATOR && backslashRun % 2 == 1;
      if ch == SEPARATOR && !separatorEscaped {
        fields := fields + [current];
        current := [];
        backslashRun := 0;
      } else {
        current := current + [ch];
        if ch == ESCAPE {
          backslashRun := backslashRun + 1;
        } else {
          backslashRun := 0;
        }
      }
    }
    fields := fields + [current];
    JoinSplit(text);
  }

  /** Splitting loses nothing, whatever the text. */
  lemma JoinSplit(text: string)
    ensures Join(Split(text)) == text
  {
    JoinSplitFrom(text, [], false);
  }

  lemma {:induction false} JoinSplitFrom(s: string, current: string, odd: bool)
    ensures Join(SplitFrom(s, current, odd)) == current + s
    decreases s
  {
    if s != [] {
      if s[0] == SEPARATOR && !odd {
        JoinSplitFrom(s[1..], [], false);
        var tail := SplitFrom(s[1..], [], false);
        assert ([current] + tail)[1..] == tail;
        assert current + s == current + [SEPARATOR] + s[1..];
      } else {
        JoinSplitFrom(s[1..], current + [s[0]], s[0] == ESCAPE && !odd);
        assert current + [s[0]] + s[1..] == current + s;
      }
    }
  }

  lemma SplitSkipsChar(c: char, rest: string, current: string)
    ensures SplitFrom(EscapeChar(c) + rest, current, false) == SplitFrom(rest, current + EscapeChar(c), false)
  {
    var text := EscapeChar(c) + rest;
    if NeedsEscape(c) {
      assert text[1..] == [c] + rest;
      assert text[1..][1..] == rest;
      assert current + [ESCAPE] + [c] == current + EscapeChar(c);
    } else {
      assert text[1..] == rest;
    }
  }

  lemma ConcatAssociates(a: string, b: string, c: string)
    ensures (a + b) + c == a + (b + c)
  {
  }

  /** An escaped field is swallowed whole and leaves the backslash parity even. */
  lemma {:induction false} SplitSkipsEscaped(f: string, rest: string, current: string)
    ensures SplitFrom(Escape(f) + rest, current, false) == SplitFrom(rest, current + Escape(f), false)
    decreases f
  {
    if f == [] {
      assert Escape(f) + rest == rest;
      assert current + Escape(f) == current;
    } else {
      var head, tail := EscapeChar(f[0]), Escape(f[1..]);
      ConcatAssociates(head, tail, rest);
      SplitSkipsChar(f[0], tail + rest, current);
      SplitSkipsEscaped(f[1..], rest, current + head);
      ConcatAssociates(current, head, tail);
    }
  }

  /** Splitting the join of escaped fields returns exactly those fields, whatever characters they hold. */
  lemma {:induction false} SplitJoin(fields: seq<string>)
    requires fields != []
    ensures Split(Join(EscapeAll(fields))) == EscapeAll(fields)
  {
    var all := EscapeAll(fields);
    var head := Escape(fields[0]);
    if |fields| == 1 {
      SplitSkipsEscaped(fields[0], [], []);
      assert head + [] == head && [] + head == head;
      assert all == [head];
    } else {
      SplitJoin(fields[1..]);
      assert all[1..] == EscapeAll(fields[1..]);
      var rest := [SEPARATOR] + Join(all[1..]);
      assert Join(all) == head + rest;
      SplitSkipsEscaped(fields[0], rest, []);
      assert rest[1..] == Join(all[1..]);
      assert [] + head == head;
    }
  }

  lemma {:induction false} SplitKeepsPrefix(s: string, current: string, odd: bool)
    ensures current <= SplitFrom(s, current, odd)[0]
    decreases s
  {
    if s != [] && !(s[0] == SEPARATOR && !odd) {
      SplitKeepsPrefix(s[1..], current + [s[0]], s[0] == ESCAPE && !odd);
    }
  }

  // ---------------------------------------------------------------------------------------------
  // Envelopes

  function ChannelToString(c: ChannelType): string {
    match c
    case Control => "control"
    case Telemetry => "telemetry"
    case Event => "event"
  }

  function ChannelFromString(s: string): Option<ChannelType> {
    if s == "control" then Some(Control)
    else if s == "telemetry" then Some(Telemetry)
    else if s == "event" then Some(Event)
    else None
  }

  function QosToString(q: DeliveryQoS): string {
    match q
    case BestEffort => "best_effort"
    case AtLeastOnce => "at_least_once"
  }

  function QosFromString(s: string): Option<DeliveryQoS> {
    if s == "best_effort" then Some(BestEffort)
    else if s == "at_least_once" then Some(AtLeastOnce)
    else None
  }

  /** The six leading fields, which hold no character that needs escaping. */
  function HeaderFields(e: Envelope): (r: seq<string>)
    ensures |r| == 6
  {
    [ToDecimal(e.schemaVersion), ChannelToString(e.channel), QosToString(e.qos),
     ToDecimal(e.sequence), ToDecimal(e.timestampMs), ToDecimal(e.ttlMs)]
  }

  function FullTail(e: Envelope): seq<string> {
    [e.source, e.target, e.topic, e.traceId, e.payload]
  }

  function CompactTail(e: Envelope): seq<string> {
    [e.topic, e.payload]
  }

  function Encode(e: Envelope): string {
    Join(HeaderFields(e) + EscapeAll(FullTail(e)))
  }

  function EncodeCompact(e: Envelope): string {
    Join(HeaderFields(e) + EscapeAll(CompactTail(e)))
  }

  /** The fields other than strings, or `None` if one of them did not parse or the schema is too old. */
  function BuildHeader(schema: Option<Uint64>, channel: Option<ChannelType>, qos: Option<DeliveryQoS>,
                       sequence: Option<Uint64>, timestamp: Option<Uint64>, ttl: Option<Uint64>): Option<Envelope> {
    if schema.None? || sequence.None? || timestamp.None? || ttl.None? then None else
    // static_cast<std::uint32_t> keeps the low 32 bits
    var schemaVersion := schema.value % UINT32_MODULUS;
    if schemaVersion < 1 || channel.None? || qos.None? then None else
    Some(Envelope(schemaVersion, channel.value, qos.value, sequence.value, timestamp.value,
                  ttl.value % UINT32_MODULUS, "", "", "", "", "", ""))
  }

  function DecodeHeader(fields: seq<string>): Option<Envelope>
    requires |fields| >= 6
  {
    BuildHeader(StringToUint64(fields[0]), ChannelFromString(fields[1]), QosFromString(fields[2]),
                StringToUint64(fields[3]), StringToUint64(fields[4]), StringToUint64(fields[5]))
  }

  function Decode(text: string): Result<Envelope> {
    var fields := Split(text);
    if text == [] || (|fields| != FULL_FIELDS && |fields| != COMPACT_FIELDS) then Failure(InvalidParam) else
    var header := DecodeHeader(fields);
    if header.None? then Failure(InvalidParam)
    else if |fields| == COMPACT_FIELDS then
      Success(header.value.(topic := Unescape(fields[6]), payload := Unescape(fields[7])))
    else
      Success(header.value.(source := Unescape(fields[6]), target := Unescape(fields[7]),
                            topic := Unescape(fields[8]), traceId := Unescape(fields[9]),
                            payload := Unescape(fields[10])))
  }

  /** `MessageCodec::Decode` with its in-out envelope: a failure leaves the caller's envelope alone. */
  method DecodeMessage(text: string, prior: Envelope) returns (ec: ErrorCode, out: Envelope)
    ensures Decode(text).Success? ==> ec == Ok && out == Decode(text).value
    ensures Decode(text).Failure? ==> ec == Decode(text).error == InvalidParam && out == prior
  {
    ec, out := InvalidParam, prior;
    if text == [] {
      return;
    }
    var fields := SplitEscaped(text);
    if |fields| != FULL_FIELDS && |fields| != COMPACT_FIELDS {
      return;
    }
    var header := DecodeHeader(fields);
    if header.None? {
      return;
    }
    var parsed := header.value;
    var f6 := UnescapeField(fields[6]);
    var f7 := UnescapeField(fields[7]);
    if |fields| == COMPACT_FIELDS {
      parsed := parsed.(topic := f6, payload := f7);
    } else {
      var f8 := UnescapeField(fields[8]);
      var f9 := UnescapeField(fields[9]);
      var f10 := UnescapeField(fields[10]);
      parsed := parsed.(source := f6, target := f7, topic := f8, traceId := f9, payload := f10);
    }
    ec, out := Ok, parsed;
  }

  /** What a full message carries: everything but the idempotency key. */
  function FullProjection(e: Envelope): Envelope {
    e.(idempotencyKey := "")
  }

  /** What a compact message carries: neither the endpoints nor the trace id. */
  function CompactProjection(e: Envelope): Envelope {
    e.(source := "", target := "", traceId := "", idempotencyKey := "")
  }

  lemma HeaderIsPlain(e: Envelope)
    ensures EscapeAll(HeaderFields(e)) == HeaderFields(e)
  {
    var h := HeaderFields(e);
    DecimalIsPlain(e.schemaVersion);
    EnumsArePlain(e.channel, e.qos);
    DecimalIsPlain(e.sequence);
    DecimalIsPlain(e.timestampMs);
    DecimalIsPlain(e.ttlMs);
    assert forall i :: 0 <= i < |h| ==> Escape(h[i]) == h[i];
  }

  lemma EnumsArePlain(c: ChannelType, q: DeliveryQoS)
    ensures Escape(ChannelToString(c)) == ChannelToString(c)
    ensures Escape(QosToString(q)) == QosToString(q)
  {
    EscapeOfPlain(ChannelToString(c));
    EscapeOfPlain(QosToString(q));
  }

  lemma DecimalIsPlain(n: nat)
    ensures Escape(ToDecimal(n)) == ToDecimal(n)
  {
    EscapeOfPlain(ToDecimal(n));
  }

  lemma ChannelRoundTrip(c: ChannelType)
    ensures ChannelFromString(ChannelToString(c)) == Some(c)
  {
    assert ChannelToString(c)[0] == match c case Control => 'c' case Telemetry => 't' case Event => 'e';
  }

  lemma QosRoundTrip(q: DeliveryQoS)
    ensures QosFromString(QosToString(q)) == Some(q)
  {
    assert QosToString(q)[0] == match q case BestEffort => 'b' case AtLeastOnce => 'a';
  }

  lemma BuildOwnHeader(e: Envelope)
    ensures BuildHeader(Some(e.schemaVersion), Some(e.channel), Some(e.qos),
                        Some(e.sequence), Some(e.timestampMs), Some(e.ttlMs)) ==
            if e.schemaVersion < 1 then None
            else Some(e.(source := "", target := "", topic := "", traceId := "", idempotencyKey := "", payload := ""))
  {
  }

  lemma DecodeHeaderFields(e: Envelope, fields: seq<string>)
    requires |fields| >= 6 && fields[..6] == HeaderFields(e)
    ensures DecodeHeader(fields) ==
            BuildHeader(Some(e.schemaVersion), Some(e.channel), Some(e.qos),
                        Some(e.sequence), Some(e.timestampMs), Some(e.ttlMs))
  {
    assert StringToUint64(fields[0]) == Some(e.schemaVersion) by {
      ParseDecimal(e.schemaVersion);
      assert fields[0] == fields[..6][0];
    }
    assert ChannelFromString(fields[1]) == Some(e.channel) by {
      ChannelRoundTrip(e.channel);
      assert fields[1] == fields[..6][1];
    }
    assert QosFromString(fields[2]) == Some(e.qos) by {
      QosRoundTrip(e.qos);
      assert fields[2] == fields[..6][2];
    }
    assert StringToUint64(fields[3]) == Some(e.sequence) by {
      ParseDecimal(e.sequence);
      assert fields[3] == fields[..6][3];
    }
    assert StringToUint64(fields[4]) == Some(e.timestampMs) by {
      ParseDecimal(e.timestampMs);
      assert fields[4] == fields[..6][4];
    }
    assert StringToUint64(fields[5]) == Some(e.ttlMs) by {
      ParseDecimal(e.ttlMs);
      assert fields[5] == fields[..6][5];
    }
  }

  lemma SplitMessage(e: Envelope, tail: seq<string>)
    ensures Split(Join(HeaderFields(e) + EscapeAll(tail))) == HeaderFields(e) + EscapeAll(tail)
    ensures Join(HeaderFields(e) + EscapeAll(tail)) != []
  {
    HeaderIsPlain(e);
    var fields := HeaderFields(e) + tail;
    assert EscapeAll(fields) == HeaderFields(e) + EscapeAll(tail);
    SplitJoin(fields);
  }

  /** A full message decodes to its envelope exactly when the schema version is at least one. */
  lemma DecodeEncode(e: Envelope)
    ensures Decode(Encode(e)) ==
            if e.schemaVersion >= 1 then Success(FullProjection(e)) else Failure(InvalidParam)
  {
    SplitMessage(e, FullTail(e));
    DecodeHeaderFields(e, HeaderFields(e) + EscapeAll(FullTail(e)));
    BuildOwnHeader(e);
    UnescapeEscape(e.source);
    UnescapeEscape(e.target);
    UnescapeEscape(e.topic);
    UnescapeEscape(e.traceId);
    UnescapeEscape(e.payload);
  }

  /** A compact message decodes to its projection exactly when the schema version is at least one. */
  lemma DecodeEncodeCompact(e: Envelope)
    ensures Decode(EncodeCompact(e)) ==
            if e.schemaVersion >= 1 then Success(CompactProjection(e)) else Failure(InvalidParam)
  {
    SplitMessage(e, CompactTail(e));
    DecodeHeaderFields(e, HeaderFields(e) + EscapeAll(CompactTail(e)));
    BuildOwnHeader(e);
    UnescapeEscape(e.topic);
    UnescapeEscape(e.payload);
  }

  /** Text whose first character cannot start a number is never a message. */
  lemma DecodeRejectsLetters(text: string)
    requires text != [] && !IsSpace(text[0]) && !IsDigit(text[0]) && text[0] != '-' && text[0] != '+'
    ensures Decode(text) == Failure(InvalidParam)
  {
    if text[0] == SEPARATOR {
      assert Split(text)[0] == [];
    } else {
      SplitKeepsPrefix(text[1..], [text[0]], text[0] == ESCAPE);
      assert [] + [text[0]] == [text[0]];
      ParseRejectsLetters(Split(text)[0]);
    }
  }
}
