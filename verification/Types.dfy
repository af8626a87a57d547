/** Values shared by every part of the bridge: error codes, envelopes and policies. */
module Types {

  datatype Option<+T> = None | Some(value: T)

  datatype Result<+T> = Success(value: T) | Failure(error: ErrorCode)

  const UINT32_MODULUS: nat := 0x1_0000_0000
  const UINT64_MODULUS: nat := 0x1_0000_0000_0000_0000

  type Uint32 = x: nat | x < UINT32_MODULUS
  type Uint64 = x: nat | x < UINT64_MODULUS

  /** A 32-bit counter wraps around. */
  function Increment(x: Uint32): Uint32 {
    (x + 1) % UINT32_MODULUS
  }

  /** What a condition adds to a counter. */
  function One(b: bool): nat {
    if b then 1 else 0
  }

  predicate Distinct<T(==)>(s: seq<T>) {
    forall i, j :: 0 <= i < j < |s| ==> s[i] != s[j]
  }

  datatype ErrorCode =
    | Ok
    | InvalidParam
    | Timeout
    | WouldBlock
    | ThreadStartFailed
    | ThreadPrioritySetFailed
    | ThreadQueueFull
    | ThreadTaskRejected
    | QueueCreateFailed
    | QueueSendFailed
    | QueueReceiveFailed
    | InterconnectInvalidEnvelope
    | Unknown

  datatype ChannelType = Control | Telemetry | Event

  datatype DeliveryQoS = BestEffort | AtLeastOnce

  datatype Envelope = Envelope(
    schemaVersion: Uint32,
    channel: ChannelType,
    qos: DeliveryQoS,
    sequence: Uint64,
    timestampMs: Uint64,
    ttlMs: Uint32,
    source: string,
    target: string,
    topic: string,
    traceId: string,
    idempotencyKey: string,
    payload: string)

  datatype ProtocolMode = LegacyPipe | Compact | ProtobufReserved | CborReserved

  datatype BackpressurePolicy = Reject | DropOldestFirst

  datatype DropPolicy = DropNone | DropNew | DropOldest

  datatype RetryBudget = RetryBudget(maxRetries: int, initialBackoffMs: int, maxBackoffMs: int)

  datatype SlaPolicy = SlaPolicy(
    maxLatencyMs: Uint32,
    receiveTimeoutMs: int,
    sendTimeoutMs: int,
    backpressure: BackpressurePolicy,
    drop: DropPolicy,
    retry: RetryBudget,
    enableTimeoutSleep: bool,
    receiveTimeoutSleepMs: Uint32,
    lockPolicy: bool)

  /** The member initializers of `BridgeSlaPolicy`. */
  const DEFAULT_SLA_POLICY: SlaPolicy :=
    SlaPolicy(100, 50, 50, Reject, DropNone, RetryBudget(0, 10, 200), true, 10, false)

  datatype PolicyRule = PolicyRule(
    priority: Uint32,
    anyChannel: bool,
    channel: ChannelType,
    anySource: bool,
    source: string,
    anyTarget: bool,
    target: string,
    anyQos: bool,
    qos: DeliveryQoS,
    topic: string,
    policy: SlaPolicy)

  /** The gate every message passes on publish and again on receipt. */
  predicate IsEnvelopeValid(e: Envelope) {
    e.source != "" && e.target != "" && e.topic != ""
  }
}
