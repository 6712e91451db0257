/** The error taxonomy of karapace/backup/v3/errors.py, one sum type per phase,
    plus the failures the reader can meet that are not part of that taxonomy. */
module Errors {
  import opened Schema

  /** Python's `range(start, stop)`: the integers start <= v < stop. */
  datatype IntRange = IntRange(start: int, stop: int) {
    predicate Contains(v: int) { start <= v < stop }
  }

  /** EncodeError: a value outside the range of its fixed-width encoding. */
  datatype EncodeError =
    | IntegerBelowBound(valid: IntRange, value: int)
    | IntegerAboveBound(valid: IntRange, value: int)

  /** DecodeRecordError. InvalidBytesConsumed is declared by the format but no
      reader produces it: a short payload is handed to the decoder as it is. */
  datatype DecodeRecordError =
    | InvalidChecksum(stored: Bytes, computed: Digest)
    | InvalidBytesConsumed

  /** Everything reading a frame can fail with: a DecodeRecordError, the
      `struct.error` of unpacking fewer bytes than the format width, or the
      structured decoder rejecting the payload. */
  datatype ReadError =
    | DecodeRecord(cause: DecodeRecordError)
    | StructError(wanted: nat, got: nat)
    | DeserializeError
}
