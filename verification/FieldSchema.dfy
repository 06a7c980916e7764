/**
 Field schemas: how a JSON member travels as a protobuf field, and what makes a table of such
 fields sound.  The enumerations of bud/src/proto_wire.rs are spelled out here; the tables
 themselves are in FieldTables.
 */
module FieldSchema {

  datatype EnumKind = OperationState | StreamType | StreamState | ResetReason

  /** How one member is written and read. */
  datatype Codec =
    | Text                              // written when non-empty
    | Flag
    | UInt32                            // written when it fits u32, read as any varint
    | UInt64
    | SInt32                            // read only: the low 32 bits as a signed number
    | Enum(kind: EnumKind)              // written when the name is known
    | Base64Bytes
    | JsonBytes
    | StringMap                         // one chunk per entry
    | Texts                             // one chunk per string
    | Message(fields: seq<Field>)
    | Messages(fields: seq<Field>)      // one chunk per element

  datatype Field = Field(number: nat, key: string, codec: Codec)

  // ---------------------------------------------------------------------------
  // Enumerations
  // ---------------------------------------------------------------------------

  function OperationStateNumber(s: string): (n: nat)
    ensures n < 10
  {
    if s == "offered" then 1
    else if s == "accepted" then 2
    else if s == "rejected" then 3
    else if s == "running" then 4
    else if s == "succeeded" then 5
    else if s == "failed" then 6
    else if s == "canceled" then 7
    else if s == "unknown" then 8
    else if s == "expired" then 9
    else 0
  }

  function OperationStateName(n: nat): string {
    match n
    case 1 => "offered"
    case 2 => "accepted"
    case 3 => "rejected"
    case 4 => "running"
    case 5 => "succeeded"
    case 6 => "failed"
    case 7 => "canceled"
    case 9 => "expired"
    case _ => "unknown"
  }

  function StreamTypeNumber(s: string): (n: nat)
    ensures n < 10
  {
    if s == "terminal_interactive" then 1
    else if s == "localhost_http_proxy" then 2
    else if s == "file_read" then 3
    else if s == "localhost_websocket_proxy" then 4
    else if s == "local_llm_http" then 5
    else 0
  }

  function StreamTypeName(n: nat): string {
    match n
    case 2 => "localhost_http_proxy"
    case 3 => "file_read"
    case 4 => "localhost_websocket_proxy"
    case 5 => "local_llm_http"
    case _ => "terminal_interactive"
  }

  function StreamStateNumber(s: string): (n: nat)
    ensures n < 10
  {
    if s == "opening" then 1
    else if s == "open" then 2
    else if s == "half_closed_local" then 3
    else if s == "half_closed_remote" then 4
    else if s == "closed" then 5
    else if s == "reset" then 6
    else if s == "unknown" then 7
    else if s == "expired" then 8
    else 0
  }

  function StreamStateName(n: nat): string {
    match n
    case 1 => "opening"
    case 2 => "open"
    case 3 => "half_closed_local"
    case 4 => "half_closed_remote"
    case 5 => "closed"
    case 6 => "reset"
    case 8 => "expired"
    case _ => "unknown"
  }

  function ResetReasonNumber(s: string): (n: nat)
    ensures n < 10
  {
    if s == "canceled" then 1
    else if s == "policy_denied" then 2
    else if s == "transport_lost" then 3
    else if s == "timeout" then 4
    else if s == "backpressure" then 5
    else if s == "protocol_error" then 6
    else if s == "local_error" then 7
    else if s == "remote_error" then 8
    else 0
  }

  function ResetReasonName(n: nat): string {
    match n
    case 1 => "canceled"
    case 2 => "policy_denied"
    case 3 => "transport_lost"
    case 4 => "timeout"
    case 5 => "backpressure"
    case 7 => "local_error"
    case 8 => "remote_error"
    case _ => "protocol_error"
  }

  /** The wire number of a name; 0 for a name outside the enumeration. */
  function EnumNumber(kind: EnumKind, s: string): nat {
    match kind
    case OperationState => OperationStateNumber(s)
    case StreamType => StreamTypeNumber(s)
    case StreamState => StreamStateNumber(s)
    case ResetReason => ResetReasonNumber(s)
  }

  function EnumName(kind: EnumKind, n: nat): string {
    match kind
    case OperationState => OperationStateName(n)
    case StreamType => StreamTypeName(n)
    case StreamState => StreamStateName(n)
    case ResetReason => ResetReasonName(n)
  }

  lemma OperationStateRoundTrip(s: string)
    requires OperationStateNumber(s) > 0
    ensures OperationStateName(OperationStateNumber(s)) == s
  {
  }

  lemma StreamTypeRoundTrip(s: string)
    requires StreamTypeNumber(s) > 0
    ensures StreamTypeName(StreamTypeNumber(s)) == s
  {
  }

  lemma StreamStateRoundTrip(s: string)
    requires StreamStateNumber(s) > 0
    ensures StreamStateName(StreamStateNumber(s)) == s
  {
  }

  lemma ResetReasonRoundTrip(s: string)
    requires ResetReasonNumber(s) > 0
    ensures ResetReasonName(ResetReasonNumber(s)) == s
  {
  }

  /** Every name that has a number is read back from it. */
  lemma EnumRoundTrip(kind: EnumKind, s: string)
    requires EnumNumber(kind, s) > 0
    ensures EnumName(kind, EnumNumber(kind, s)) == s
  {
    match kind
    case OperationState => OperationStateRoundTrip(s);
    case StreamType => StreamTypeRoundTrip(s);
    case StreamState => StreamStateRoundTrip(s);
    case ResetReason => ResetReasonRoundTrip(s);
  }

  /** Numbers outside an enumeration are read as the name that stands for them. */
  lemma EnumDefault(kind: EnumKind, n: nat)
    ensures EnumNumber(kind, EnumName(kind, n))
         == match kind
            case OperationState => if 1 <= n <= 9 then n else 8
            case StreamType => if 1 <= n <= 5 then n else 1
            case StreamState => if 1 <= n <= 8 then n else 7
            case ResetReason => if 1 <= n <= 8 then n else 6
  {
  }

  // ---------------------------------------------------------------------------
  // Soundness of tables
  // ---------------------------------------------------------------------------

  /** Numbers ascend and differ, and so do the keys. */
  ghost predicate Distinct(fields: seq<Field>) {
    forall i, j :: 0 <= i < j < |fields| ==>
      fields[i].number < fields[j].number && fields[i].key != fields[j].key
  }

  /** Distinct at every depth, and no number reaches the frame_json field. */
  ghost predicate Sound(fields: seq<Field>) {
    && Distinct(fields)
    && (forall i :: 0 <= i < |fields| ==> 0 < fields[i].number < 99 && SoundCodec(fields[i].codec))
  }

  ghost predicate SoundCodec(codec: Codec) {
    match codec
    case Message(fields) => Sound(fields)
    case Messages(fields) => Sound(fields)
    case _ => true
  }
}
