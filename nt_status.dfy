/**
 * NTSTATUS values as the three modules use them, and the optional-handle
 * wrapper that stands for a nullable WDF handle or pointer.
 *
 * An NTSTATUS is a 32-bit value; the severity lives in the two top bits, and
 * NT_SUCCESS holds exactly for the values whose top bit is clear (success and
 * informational codes, STATUS_PENDING among them).
 */
module NtStatus {

  type NtStatus = x: int | 0 <= x < 0x1_0000_0000

  const STATUS_SUCCESS: NtStatus := 0x0000_0000
  const STATUS_PENDING: NtStatus := 0x0000_0103
  const STATUS_UNSUCCESSFUL: NtStatus := 0xC000_0001
  const STATUS_INVALID_PARAMETER: NtStatus := 0xC000_000D
  const STATUS_INVALID_DEVICE_REQUEST: NtStatus := 0xC000_0010
  const STATUS_ACCESS_DENIED: NtStatus := 0xC000_0022
  const STATUS_BUFFER_TOO_SMALL: NtStatus := 0xC000_0023
  const STATUS_OBJECTID_NOT_FOUND: NtStatus := 0xC000_02F0

  /** NT_SUCCESS: the status, read as a signed 32-bit value, is not negative. */
  predicate NtSuccess(s: NtStatus)
  {
    s < 0x8000_0000
  }

  /** A nullable handle or pointer: None is NULL. */
  datatype Option<T> = None | Some(value: T)

  /** A value, or the failing NTSTATUS that stands in its place. */
  datatype Result<T> = Ok(value: T) | Err(status: NtStatus)
}
