/**
 The field tables of bud/src/proto_wire.rs: which JSON member travels under which field number
 and how.  The encoder and the decoder of the program spell their tables out separately, so the
 model keeps two sets of tables; `TablesAgree` proves that they describe the same messages.
 */
module FieldTables {
  import opened Wrappers
  import opened FieldSchema

  // ---------------------------------------------------------------------------
  // What the encoder writes
  // ---------------------------------------------------------------------------

  const ERROR_WRITTEN: seq<Field> := [
    Field(1, "code", Text),
    Field(2, "message", Text),
    Field(3, "retryable", Flag),
    Field(4, "details", StringMap)]

  const OPERATION_WRITTEN: seq<Field> := [
    Field(1, "operation_id", Text),
    Field(2, "state", Enum(OperationState)),
    Field(3, "error", Message(ERROR_WRITTEN)),
    Field(4, "operation_type", Text),
    Field(5, "updated_at", Text)]

  const STREAM_WRITTEN: seq<Field> := [
    Field(1, "stream_id", Text),
    Field(2, "operation_id", Text),
    Field(3, "stream_type", Enum(StreamType)),
    Field(4, "state", Enum(StreamState)),
    Field(5, "send_offset", UInt64),
    Field(6, "receive_offset", UInt64),
    Field(7, "reset_reason", Enum(ResetReason)),
    Field(8, "error", Message(ERROR_WRITTEN)),
    Field(9, "updated_at", Text)]

  const HELLO_WRITTEN: seq<Field> := [
    Field(1, "name", Text),
    Field(2, "os", Text),
    Field(3, "arch", Text),
    Field(4, "version", Text),
    Field(5, "installation_id", Text),
    Field(6, "token", Text),
    Field(7, "bud_id", Text),
    Field(8, "capabilities", JsonBytes)]

  const HELLO_ACK_WRITTEN: seq<Field> := [
    Field(1, "session_id", Text),
    Field(2, "bud_id", Text),
    Field(3, "heartbeat_sec", UInt32),
    Field(4, "device_secret", Text)]

  const HELLO_CHALLENGE_WRITTEN: seq<Field> := [Field(1, "nonce", Text)]

  const HELLO_PROOF_WRITTEN: seq<Field> := [Field(1, "bud_id", Text), Field(2, "hmac", Text)]

  const HEARTBEAT_WRITTEN: seq<Field> := [Field(1, "session_id", Text)]

  const RECONNECT_REPORT_WRITTEN: seq<Field> := [
    Field(1, "bud_id", Text),
    Field(2, "device_session_id", Text),
    Field(3, "operations", Messages(OPERATION_WRITTEN)),
    Field(4, "streams", Messages(STREAM_WRITTEN)),
    Field(5, "local_policy_version", Text),
    Field(6, "terminal_sessions", Texts)]

  const RECONCILIATION_DECISION_WRITTEN: seq<Field> := [
    Field(1, "operations", Messages(OPERATION_WRITTEN)),
    Field(2, "streams", Messages(STREAM_WRITTEN))]

  const DATA_ATTACH_WRITTEN: seq<Field> := [
    Field(1, "bud_id", Text),
    Field(2, "device_session_id", Text),
    Field(3, "control_transport_session_id", Text),
    Field(4, "streams", Texts),
    Field(5, "max_chunk_bytes", UInt32),
    Field(6, "initial_credit_bytes", UInt64)]

  const DATA_ATTACH_ACK_WRITTEN: seq<Field> := [
    Field(1, "bud_id", Text),
    Field(2, "device_session_id", Text),
    Field(3, "transport_session_id", Text),
    Field(4, "streams", Texts),
    Field(5, "max_chunk_bytes", UInt32),
    Field(6, "initial_credit_bytes", UInt64)]

  const STREAM_DATA_WRITTEN: seq<Field> := [
    Field(1, "stream_id", Text),
    Field(2, "stream_type", Enum(StreamType)),
    Field(3, "offset", UInt64),
    Field(4, "data", Base64Bytes),
    Field(5, "end_stream", Flag)]

  const STREAM_CREDIT_WRITTEN: seq<Field> := [
    Field(1, "stream_id", Text),
    Field(2, "receive_offset", UInt64),
    Field(3, "credit_bytes", UInt64)]

  const STREAM_RESET_WRITTEN: seq<Field> := [
    Field(1, "stream_id", Text),
    Field(2, "reason", Enum(ResetReason)),
    Field(3, "error", Message(ERROR_WRITTEN))]

  const STREAM_CLOSE_WRITTEN: seq<Field> := [
    Field(1, "stream_id", Text),
    Field(2, "final_offset", UInt64)]

  /** The members written for a frame type; none when it has no field-level encoding. */
  function Written(frameType: string): Option<seq<Field>> {
    if frameType == "error" then Some(ERROR_WRITTEN)
    else if frameType == "hello" then Some(HELLO_WRITTEN)
    else if frameType == "hello_ack" then Some(HELLO_ACK_WRITTEN)
    else if frameType == "hello_challenge" then Some(HELLO_CHALLENGE_WRITTEN)
    else if frameType == "hello_proof" then Some(HELLO_PROOF_WRITTEN)
    else if frameType == "heartbeat" || frameType == "heartbeat_ack" then Some(HEARTBEAT_WRITTEN)
    else if frameType == "reconnect_report" then Some(RECONNECT_REPORT_WRITTEN)
    else if frameType == "reconciliation_decision" then Some(RECONCILIATION_DECISION_WRITTEN)
    else if frameType == "data_attach" then Some(DATA_ATTACH_WRITTEN)
    else if frameType == "data_attach_ack" then Some(DATA_ATTACH_ACK_WRITTEN)
    else if frameType == "stream_data" then Some(STREAM_DATA_WRITTEN)
    else if frameType == "stream_credit" then Some(STREAM_CREDIT_WRITTEN)
    else if frameType == "stream_reset" then Some(STREAM_RESET_WRITTEN)
    else if frameType == "stream_close" then Some(STREAM_CLOSE_WRITTEN)
    else None
  }

  // ---------------------------------------------------------------------------
  // What the decoder reads
  // ---------------------------------------------------------------------------

  const ERROR_READ: seq<Field> := [
    Field(1, "code", Text),
    Field(2, "message", Text),
    Field(3, "retryable", Flag),
    Field(4, "details", StringMap)]

  const OPERATION_READ: seq<Field> := [
    Field(1, "operation_id", Text),
    Field(2, "state", Enum(OperationState)),
    Field(3, "error", Message(ERROR_READ)),
    Field(4, "operation_type", Text),
    Field(5, "updated_at", Text)]

  const STREAM_READ: seq<Field> := [
    Field(1, "stream_id", Text),
    Field(2, "operation_id", Text),
    Field(3, "stream_type", Enum(StreamType)),
    Field(4, "state", Enum(StreamState)),
    Field(5, "send_offset", UInt64),
    Field(6, "receive_offset", UInt64),
    Field(7, "reset_reason", Enum(ResetReason)),
    Field(8, "error", Message(ERROR_READ)),
    Field(9, "updated_at", Text)]

  const CONFIG_READ: seq<Field> := [
    Field(1, "shell", Text),
    Field(2, "cwd", Text),
    Field(3, "env", StringMap),
    Field(4, "cols", UInt64),
    Field(5, "rows", UInt64)]

  const HELLO_READ: seq<Field> := [
    Field(1, "name", Text),
    Field(2, "os", Text),
    Field(3, "arch", Text),
    Field(4, "version", Text),
    Field(5, "installation_id", Text),
    Field(6, "token", Text),
    Field(7, "bud_id", Text),
    Field(8, "capabilities", JsonBytes)]

  const HELLO_ACK_READ: seq<Field> := [
    Field(1, "session_id", Text),
    Field(2, "bud_id", Text),
    Field(3, "heartbeat_sec", UInt32),
    Field(4, "device_secret", Text)]

  const HELLO_CHALLENGE_READ: seq<Field> := [Field(1, "nonce", Text)]

  const HELLO_PROOF_READ: seq<Field> := [Field(1, "bud_id", Text), Field(2, "hmac", Text)]

  const HEARTBEAT_READ: seq<Field> := [Field(1, "session_id", Text)]

  const RECONNECT_REPORT_READ: seq<Field> := [
    Field(1, "bud_id", Text),
    Field(2, "device_session_id", Text),
    Field(3, "operations", Messages(OPERATION_READ)),
    Field(4, "streams", Messages(STREAM_READ)),
    Field(5, "local_policy_version", Text),
    Field(6, "terminal_sessions", Texts)]

  const RECONCILIATION_DECISION_READ: seq<Field> := [
    Field(1, "operations", Messages(OPERATION_READ)),
    Field(2, "streams", Messages(STREAM_READ))]

  const DATA_ATTACH_READ: seq<Field> := [
    Field(1, "bud_id", Text),
    Field(2, "device_session_id", Text),
    Field(3, "control_transport_session_id", Text),
    Field(4, "streams", Texts),
    Field(5, "max_chunk_bytes", UInt32),
    Field(6, "initial_credit_bytes", UInt64)]

  const DATA_ATTACH_ACK_READ: seq<Field> := [
    Field(1, "bud_id", Text),
    Field(2, "device_session_id", Text),
    Field(3, "transport_session_id", Text),
    Field(4, "streams", Texts),
    Field(5, "max_chunk_bytes", UInt32),
    Field(6, "initial_credit_bytes", UInt64)]

  const STREAM_DATA_READ: seq<Field> := [
    Field(1, "stream_id", Text),
    Field(2, "stream_type", Enum(StreamType)),
    Field(3, "offset", UInt64),
    Field(4, "data", Base64Bytes),
    Field(5, "end_stream", Flag)]

  const STREAM_CREDIT_READ: seq<Field> := [
    Field(1, "stream_id", Text),
    Field(2, "receive_offset", UInt64),
    Field(3, "credit_bytes", UInt64)]

  const STREAM_RESET_READ: seq<Field> := [
    Field(1, "stream_id", Text),
    Field(2, "reason", Enum(ResetReason)),
    Field(3, "error", Message(ERROR_READ))]

  const STREAM_CLOSE_READ: seq<Field> := [
    Field(1, "stream_id", Text),
    Field(2, "final_offset", UInt64)]

  const TERMINAL_ENSURE_READ: seq<Field> := [
    Field(1, "session_id", Text),
    Field(2, "config", Message(CONFIG_READ)),
    Field(3, "resume_from_offset", UInt64)]

  const TERMINAL_INPUT_READ: seq<Field> := [
    Field(1, "session_id", Text),
    Field(2, "data", Base64Bytes),
    Field(4, "input_seq", UInt64)]

  const TERMINAL_RESIZE_READ: seq<Field> := [
    Field(1, "session_id", Text),
    Field(2, "cols", UInt64),
    Field(3, "rows", UInt64)]

  const TERMINAL_CLOSE_READ: seq<Field> := [
    Field(1, "session_id", Text),
    Field(2, "reason", Text)]

  const TERMINAL_SEND_READ: seq<Field> := [
    Field(1, "session_id", Text),
    Field(2, "request_id", Text),
    Field(3, "text", Text),
    Field(4, "submit", Flag),
    Field(5, "key", Text),
    Field(9, "await", Text)]

  const TERMINAL_OBSERVE_READ: seq<Field> := [
    Field(1, "session_id", Text),
    Field(2, "request_id", Text),
    Field(3, "view", Text),
    Field(4, "lines", SInt32),
    Field(7, "await", Text),
    Field(8, "quiet_ms", UInt64)]

  /** The members read for a frame type that may carry a field-level payload. */
  function Read(frameType: string): Option<seq<Field>> {
    if frameType == "error" then Some(ERROR_READ)
    else if frameType == "hello" then Some(HELLO_READ)
    else if frameType == "hello_ack" then Some(HELLO_ACK_READ)
    else if frameType == "hello_challenge" then Some(HELLO_CHALLENGE_READ)
    else if frameType == "hello_proof" then Some(HELLO_PROOF_READ)
    else if frameType == "heartbeat" || frameType == "heartbeat_ack" then Some(HEARTBEAT_READ)
    else if frameType == "reconnect_report" then Some(RECONNECT_REPORT_READ)
    else if frameType == "reconciliation_decision" then Some(RECONCILIATION_DECISION_READ)
    else if frameType == "data_attach" then Some(DATA_ATTACH_READ)
    else if frameType == "data_attach_ack" then Some(DATA_ATTACH_ACK_READ)
    else if frameType == "stream_data" then Some(STREAM_DATA_READ)
    else if frameType == "stream_credit" then Some(STREAM_CREDIT_READ)
    else if frameType == "stream_reset" then Some(STREAM_RESET_READ)
    else if frameType == "stream_close" then Some(STREAM_CLOSE_READ)
    // Terminal frames are written as frame_json; these tables are inbound tolerance only.
    else if frameType == "terminal_ensure" then Some(TERMINAL_ENSURE_READ)
    else if frameType == "terminal_input" then Some(TERMINAL_INPUT_READ)
    else if frameType == "terminal_resize" then Some(TERMINAL_RESIZE_READ)
    else if frameType == "terminal_close" then Some(TERMINAL_CLOSE_READ)
    else if frameType == "terminal_send" then Some(TERMINAL_SEND_READ)
    else if frameType == "terminal_observe" then Some(TERMINAL_OBSERVE_READ)
    else None
  }

  // ---------------------------------------------------------------------------
  // Soundness of the tables
  // ---------------------------------------------------------------------------

  const BASE_KEYS := {"proto", "type", "id", "ts", "ext"}

  /** A table of members that can be added to a frame's base members. */
  ghost predicate SoundFrame(fields: seq<Field>) {
    && Sound(fields)
    && forall i :: 0 <= i < |fields| ==> fields[i].key !in BASE_KEYS
  }

  lemma ErrorSound()
    ensures SoundFrame(ERROR_READ)
  {
    assert Distinct(ERROR_READ);
  }

  lemma OperationSound()
    ensures Sound(OPERATION_READ)
  {
    ErrorSound();
    assert Distinct(OPERATION_READ);
  }

  lemma StreamSound()
    ensures Sound(STREAM_READ)
  {
    ErrorSound();
    assert Distinct(STREAM_READ);
  }

  lemma HelloDistinct()
    ensures Distinct(HELLO_READ)
  {
  }

  lemma HelloSound()
    ensures SoundFrame(HELLO_READ)
  {
    HelloDistinct();
  }

  lemma HelloAckDistinct()
    ensures Distinct(HELLO_ACK_READ)
  {
  }

  lemma HelloAckSound()
    ensures SoundFrame(HELLO_ACK_READ)
  {
    HelloAckDistinct();
  }

  lemma HelloChallengeSound()
    ensures SoundFrame(HELLO_CHALLENGE_READ)
  {
    assert Distinct(HELLO_CHALLENGE_READ);
  }

  lemma HelloProofSound()
    ensures SoundFrame(HELLO_PROOF_READ)
  {
    assert Distinct(HELLO_PROOF_READ);
  }

  lemma HeartbeatSound()
    ensures SoundFrame(HEARTBEAT_READ)
  {
    assert Distinct(HEARTBEAT_READ);
  }

  lemma ReconnectReportSound()
    ensures SoundFrame(RECONNECT_REPORT_READ)
  {
    OperationSound();
    StreamSound();
    assert Distinct(RECONNECT_REPORT_READ);
  }

  lemma ReconciliationDecisionSound()
    ensures SoundFrame(RECONCILIATION_DECISION_READ)
  {
    OperationSound();
    StreamSound();
    assert Distinct(RECONCILIATION_DECISION_READ);
  }

  lemma DataAttachDistinct()
    ensures Distinct(DATA_ATTACH_READ)
  {
  }

  lemma DataAttachSound()
    ensures SoundFrame(DATA_ATTACH_READ)
  {
    DataAttachDistinct();
  }

  lemma DataAttachAckDistinct()
    ensures Distinct(DATA_ATTACH_ACK_READ)
  {
  }

  lemma DataAttachAckSound()
    ensures SoundFrame(DATA_ATTACH_ACK_READ)
  {
    DataAttachAckDistinct();
  }

  lemma StreamDataDistinct()
    ensures Distinct(STREAM_DATA_READ)
  {
  }

  lemma StreamDataSound()
    ensures SoundFrame(STREAM_DATA_READ)
  {
    StreamDataDistinct();
  }

  lemma StreamCreditSound()
    ensures SoundFrame(STREAM_CREDIT_READ)
  {
    assert Distinct(STREAM_CREDIT_READ);
  }

  lemma StreamResetSound()
    ensures SoundFrame(STREAM_RESET_READ)
  {
    ErrorSound();
    assert Distinct(STREAM_RESET_READ);
  }

  lemma StreamCloseSound()
    ensures SoundFrame(STREAM_CLOSE_READ)
  {
    assert Distinct(STREAM_CLOSE_READ);
  }

  /** Each member the encoder writes is read back by the decoder under the same number. */
  lemma TablesAgree(frameType: string)
    requires Written(frameType).Some?
    ensures Read(frameType) == Written(frameType)
  {
  }

  lemma TablesSound(frameType: string)
    requires Written(frameType).Some?
    ensures Read(frameType) == Written(frameType) && SoundFrame(Read(frameType).value)
  {
    TablesAgree(frameType);
    if frameType == "error" {
      ErrorSound();
    } else if frameType == "hello" {
      HelloSound();
    } else if frameType == "hello_ack" {
      HelloAckSound();
    } else if frameType == "hello_challenge" {
      HelloChallengeSound();
    } else if frameType == "hello_proof" {
      HelloProofSound();
    } else if frameType == "reconnect_report" {
      ReconnectReportSound();
    } else if frameType == "reconciliation_decision" {
      ReconciliationDecisionSound();
    } else if frameType == "data_attach" {
      DataAttachSound();
    } else if frameType == "data_attach_ack" {
      DataAttachAckSound();
    } else if frameType == "stream_data" {
      StreamDataSound();
    } else if frameType == "stream_credit" {
      StreamCreditSound();
    } else if frameType == "stream_reset" {
      StreamResetSound();
    } else if frameType == "stream_close" {
      StreamCloseSound();
    } else {
      HeartbeatSound();
    }
  }
}
