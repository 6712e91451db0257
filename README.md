# Karapace schema backup, disk format v3

A Dafny model of the v3 backup disk format of Karapace's schema backup tool:
the length-prefixed, checksummed framing of the record stream of one Kafka
topic-partition, and the backend that writes and restores it.

A v3 file is a Metadata frame followed by zero or more Envelope frames, with no
magic number and no footer:

    [u32 length][Metadata payload]
    ([u32 length][Envelope payload])*

Every integer is fixed-width big-endian. The Envelope of a Record holds the
Record's structured (Avro) encoding and the 8-byte xxHash64 digest of that
encoding.

Modules, one per source file or collaborator:

- `Schema` (`schema.dfy`): the records `Metadata`, `Header`, `Record` and
  `Envelope`. It also holds the two foreign capabilities the format is built
  on, passed in as values. `Codec<T>` is the structured encoder of one record
  type (serialize, and deserialize that may fail). `Formats` bundles the three
  codecs with the digest. `Lawful` states that every codec reads back what it
  wrote. For the Metadata codec that holds only up to the millisecond of
  `createdAt`, since Avro stores a `datetime` as `timestamp-millis`.
  `Lawful` is a hypothesis of the round-trip lemmas, never an axiom.
- `Errors` (`errors.dfy`): the encode and decode error sum types. `ReadError`
  also covers the failures a reader meets outside that taxonomy: the
  `struct.error` of unpacking too few bytes, and a decoder rejecting its input.
- `Streams` (`streams.dfy`): the `IO[bytes]` buffer as a class with its
  contents and position. `read(n)` returns at most n bytes and advances by what
  it returned. `write(b)` overwrites from the position on, which is an append at
  the end.
- `Struct` (`struct.dfy`): `struct.pack`/`struct.unpack` for `">I"` and `">Q"`.
- `Writers` (`writers.dfy`): the writers as methods that append to the buffer,
  and as functions the bytes they lay down (`Frame`, `RecordFrame`,
  `BackupImage`).
- `Readers` (`readers.dfy`): the readers as methods that advance the buffer.
  Each is proved against a function that gives the value read (or the failure)
  and the position after it.
- `RoundTrip` (`roundtrip.dfy`): the readers undo the writers, for integers,
  frames, records and whole files. The module also proves corruption detection
  and the write-then-read sequences of the unit tests.
- `Backend` (`backend.dfy`): `store_metadata`, `store_record` and `read`, the
  partition and topic checks, and the field mappings. It proves that a backup
  restores as the messages that were stored.

## Model

| member | source | states |
|---|---|---|
| `Schema.AtMillis` | karapace/backup/v3/schema.py:30 | the instant a `timestamp-millis` field keeps is a whole millisecond, at most one millisecond earlier than the original, and equal to it when the original is already a whole millisecond |
| `Schema.MetadataAtMillis` | karapace/backup/v3/schema.py:26-36 | the Metadata that reads back from an encoding keeps every field, and `createdAt` to the millisecond; it is the original when `createdAt` is a whole millisecond |
| `Struct.Pack` | karapace/backup/v3/writers.py:31 | packing succeeds exactly for 0 <= v < 256^width; then the result is `width` bytes that unpack to v |
| `Struct.Unpack` | karapace/backup/v3/readers.py:17 | unpacking succeeds exactly on inputs of the format's width; every such byte pattern is a value in range, and packing that value gives the same bytes back |
| `Struct.FromBigEndian` | karapace/backup/v3/readers.py:17 | the value decoded from n bytes is below 256^n |
| `Struct.FromBigEndianOfBigEndian` | karapace/backup/v3/writers.py:31 | decoding the big-endian encoding of an in-range value gives the value |
| `Struct.BigEndianOfFromBigEndian` | karapace/backup/v3/readers.py:17 | encoding a decoded value at the same width gives the original bytes (the codec is a bijection) |
| `Streams.OverwrittenTwice` | karapace/backup/v3/writers.py:48-49 | two consecutive writes to the stream leave it as one write of their concatenation would |
| `Writers.ReraiseForBound` | karapace/backup/v3/writers.py:17-22 | a value below the range gives IntegerBelowBound and one at or above its stop gives IntegerAboveBound, each carrying the range and the value; the lower bound is tested first, so exactly one applies; only an in-range value reaches the re-raise of the original error |
| `Writers.Frame` | karapace/backup/v3/writers.py:46-49 | a sized frame is 4 + n bytes long, ends with the n payload bytes, and starts with 4 bytes that decode to n whenever n fits in 32 bits |
| `Writers.Seal` | karapace/backup/v3/writers.py:62-66 | the Envelope holds the record's encoding and, as its checksum, the xxh64 digest of exactly those bytes |
| `Writers.Uint32Fixtures` | tests/unit/backup/v3/test_disk_format.py:55-92 | 0, 2^32-1 and 67 pack to 00000000, FFFFFFFF and 00000043; -1 fails with IntegerBelowBound and 2^32 with IntegerAboveBound for range(0, 2^32) |
| `Writers.Uint64Fixtures` | tests/unit/backup/v3/test_disk_format.py:105-142 | 0, 2^64-1 and 67 pack to their 8-byte forms; -1 and 2^64 fail with the bound errors of range(0, 2^64) |
| `Writers.WriteUint32` | karapace/backup/v3/writers.py:25-33 | succeeds exactly for values in range(0, 2^32) and then writes their 4 big-endian bytes at the position; otherwise fails with the bound error and leaves the buffer unchanged |
| `Writers.WriteUint64` | karapace/backup/v3/writers.py:36-40 | as WriteUint32, with 8 bytes and range(0, 2^64) |
| `Writers.WriteSized` | karapace/backup/v3/writers.py:46-49 | writes the u32 length of the encoded model followed by the encoding, and advances by 4 + length; a payload of 2^32 bytes or more fails with IntegerAboveBound before anything is written |
| `Writers.WriteMetadata` | karapace/backup/v3/writers.py:52-53 | exactly WriteSized of the metadata with the metadata codec |
| `Writers.WriteRecord` | karapace/backup/v3/writers.py:56-67 | writes the sized frame of an Envelope holding the record's encoding and the xxh64 digest of that encoding |
| `Writers.RecordFramesSnoc` | karapace/backup/v3/writers.py:56-67 | the frames of records written one after another lie in the file in call order |
| `Writers.BackupImageStep` | karapace/backup/v3/writers.py:56-67 | writing the next record at the end of a file appends that record's frame to the file |
| `Readers.ParseUint` | karapace/backup/v3/readers.py:16-21 | succeeds exactly when `width` bytes remain; it then advances by exactly `width` and returns the value whose encoding those bytes are; otherwise it fails with a struct error and has consumed the rest of the stream |
| `Readers.ParseSized` | karapace/backup/v3/readers.py:27-29 | reads the u32 length n and then at most n bytes (fewer at the end of the stream); it returns what the decoder makes of exactly those bytes and fails with a decode error when the decoder rejects them; with fewer than 4 bytes left it fails with a struct error |
| `Readers.ParseRecord` | karapace/backup/v3/readers.py:36-52 | fails with InvalidChecksum exactly when a well-read Envelope's checksum differs from the digest of its record bytes; otherwise it returns the decoding of those bytes; Envelope read failures pass through; it consumes exactly the Envelope frame |
| `Readers.ParseRecords` | karapace/backup/v3/readers.py:55-62 | with no bytes left it ends cleanly with no records; a clean end happens only at the end of the stream, never after a count |
| `Readers.ParseRecordsAfterRecord` | karapace/backup/v3/readers.py:55-62 | when a record reads successfully, the loop yields it first and then whatever the loop yields from the position after it |
| `Readers.ReadUint32` | karapace/backup/v3/readers.py:16-17 | the value or failure and the new position are those of ParseUint at width 4; the contents are unchanged |
| `Readers.ReadUint64` | karapace/backup/v3/readers.py:20-21 | the value or failure and the new position are those of ParseUint at width 8 |
| `Readers.ReadSized` | karapace/backup/v3/readers.py:27-29 | the value or failure and the new position are those of ParseSized |
| `Readers.ReadMetadata` | karapace/backup/v3/readers.py:32-33 | exactly ParseSized with the metadata codec |
| `Readers.ReadRecord` | karapace/backup/v3/readers.py:36-52 | the record or failure and the new position are those of ParseRecord |
| `Readers.ReadRecords` | karapace/backup/v3/readers.py:55-62 | the peek-and-step-back loop yields the records of ParseRecords in stream order and stops where it does, after a clean end or after a failure |
| `RoundTrip.ParseUintOfBigEndian` | karapace/backup/v3/readers.py:16-21 | reading an integer where its encoding was written returns the integer and advances by exactly its width |
| `RoundTrip.ParseSizedOfFrame` | karapace/backup/v3/readers.py:27-29 | reading a sized frame returns what the decoder makes of the encoding it was written from; the position ends just past the frame |
| `RoundTrip.ParseRecordOfFrame` | karapace/backup/v3/readers.py:46-52 | a written record passes its checksum and reads back as itself |
| `RoundTrip.CorruptedRecordRejected` | karapace/backup/v3/readers.py:48-50 | a record whose bytes were changed after the checksum was taken fails with InvalidChecksum, whenever the change alters the digest |
| `RoundTrip.ParseRecordsOfFrames` | karapace/backup/v3/readers.py:55-62 | the read loop over written records yields exactly those records, in order, and ends cleanly at the end of the stream |
| `RoundTrip.ReadBackImage` | tests/unit/backup/v3/test_disk_format.py:189-193 | a written file reads back as its metadata, with `createdAt` to the millisecond, followed by all its records in write order |
| `RoundTrip.Uint32RoundTrip` | tests/unit/backup/v3/test_disk_format.py:95-102 | writing any value of range(0, 2^32) to an empty buffer, seeking to 0 and reading returns the value |
| `RoundTrip.Uint64RoundTrip` | tests/unit/backup/v3/test_disk_format.py:145-152 | the same for range(0, 2^64) |
| `RoundTrip.WriteImage` | tests/unit/backup/v3/test_disk_format.py:189 | writing the metadata and then each record, in order, into an empty buffer leaves exactly the backup file of that metadata and those records, with the position at its end |
| `RoundTrip.FullRoundTrip` | tests/unit/backup/v3/test_disk_format.py:155-193 | the buffer methods compose: writing the metadata and every record, seeking to 0 and reading gives back the same records with no failure, and the metadata with `createdAt` to the millisecond; the metadata comes back equal when `createdAt` is a whole millisecond, as the test's zeroed microseconds make it |
| `Backend.PairsOfHeadersOf` | karapace/backup/v3/backend.py:74 | headers turned into Header records and back into pairs are the same pairs, in the same order |
| `Backend.HeadersOf` | karapace/backup/v3/backend.py:74 | one Header per (key, value) pair, in the same order, carrying that pair's key and value |
| `Backend.PairsOf` | karapace/backup/v3/backend.py:34 | one (key, value) pair per Header, in the same order, carrying that Header's key and value |
| `Backend.RecordOf` | karapace/backup/v3/backend.py:71-79 | the Record of a consumed message has the message's key, value, partition and offset, its timestamp as `timestampMs`, and headers that turn back into the message's header pairs |
| `Backend.SendOf` | karapace/backup/v3/backend.py:30-37 | the send of a record goes to the caller's topic with the record's key, value, partition and timestamp, and one (key, value) pair per header, in order |
| `Backend.RecordsOf` | karapace/backup/v3/backend.py:67-80 | one Record per consumed message, in order, each as store_record builds it |
| `Backend.StoredMetadata` | karapace/backup/v3/backend.py:55-64 | the Metadata store_metadata builds has version 3, tool name "karapace", the running tool version and creation time, and the caller's estimated record count, topic name, topic id and partition count |
| `Backend.SendOfRecordOf` | karapace/backup/v3/backend.py:71-79 | a consumed message, stored and restored, becomes a send to the caller's topic with the message's key, value, headers, partition and timestamp |
| `Backend.Restore` | karapace/backup/v3/backend.py:20-37 | no send is yielded when the metadata fails to read, has a partition count other than 1, or names another topic; a clean end happens only at the end of the stream |
| `Backend.RestoreFrom` | karapace/backup/v3/backend.py:23-37 | once the metadata has been read: a read failure, a partition count other than 1 or another topic name ends the restore at the end of the metadata frame with a failure and no send |
| `Backend.RestoreOfImage` | karapace/backup/v3/backend.py:29-37 | a backup of the caller's single-partition topic restores as one send per record, in write order, and ends cleanly |
| `Backend.RestoreRefusesMultiPartition` | karapace/backup/v3/backend.py:23-24 | metadata with a partition count other than 1 is refused before any record is read, whatever follows it, given only that its own encoding reads back |
| `Backend.RestoreRefusesDifferingTopic` | karapace/backup/v3/backend.py:26-27 | metadata naming another topic is refused before any record is read, given only that its own encoding reads back |
| `Backend.BackupThenRestore` | karapace/backup/v3/backend.py:67-80 | the file of the Metadata store_metadata builds and the Records store_record builds restores every stored message, in order, to the same topic with its key, value, headers, partition and timestamp |
| `Backend.StoreMetadata` | karapace/backup/v3/backend.py:42-65 | a partition count other than 1 fails before any byte is written; otherwise it writes one frame of the Metadata with version 3, tool name "karapace" and the given topic name, topic id, estimated record count and partition count |
| `Backend.StoreRecord` | karapace/backup/v3/backend.py:67-80 | writes the record frame of the Record whose key, value, partition and offset are the message's, whose timestamp is the message's timestamp, and which has one Header per header pair, in order |
| `Backend.YieldSends` | karapace/backup/v3/backend.py:29-37 | one send per record, in record order, each the send of that record to the caller's topic |
| `Backend.ReadBackup` | karapace/backup/v3/backend.py:19-37 | the sends, the failure and the final position are those of Restore: metadata checks first, then one send per record read, in order |
| `Backend.StoreBackup` | karapace/backup/v3/backend.py:42-80 | store_metadata for a single-partition topic and then store_record for each message, into an empty buffer, leave exactly the backup file of the stored Metadata and the messages' Records, with the position at its end |
| `Backend.StoreThenRead` | karapace/backup/v3/backend.py:19-80 | storing the messages and calling read from the start of the buffer for the same topic yields, with no failure, one send per message, in order, with the message's key, value, headers, partition and timestamp |

## Left out

- Avro encoding (`serialize`/`deserialize` of dataclasses_avroschema) is a foreign library. The model injects it as `Codec` values and takes its round trip as a hypothesis of the lemmas that need it. Serialization is total here: a field outside its Avro int or long range is not modelled as a failure.
- The Metadata codec keeps `createdAt` only to the millisecond, because Avro `timestamp-millis` drops the microseconds `datetime.now` carries. `Schema.MetadataRoundTrips` states the round trip up to that loss. The model rounds down to the millisecond. How the Avro library rounds instants before 1970 is not modelled.
- xxHash64 is a foreign call. It is injected as a function to 8-byte digests, and its arithmetic is not modelled.
- RoundTrip.CorruptedRecordRejected: it assumes the corruption changes the digest. A corruption that collides under xxHash64 goes undetected in the code as well.
- `datetime.now` and `__version__` are nondeterministic or external. They are parameters of `StoreMetadata` (`createdAt`, `toolVersion`). A UUID is a 128-bit number.
- Kafka's `ConsumerRecord` and `ProducerSend` are external classes. Only the fields the backend reads or fills are modelled, and header keys are bytes.
- Python generators are lazy, so a consumer sees records while later ones are still unread. The model runs each loop to its end. It returns the records yielded before the first failure, the failure, and the final position. The interleaving with the consumer is not modelled.
- The exception hierarchy (`DecodeRecordError`, `EncodeError`, their `ValueError` base) is not modelled. Each error is a tagged variant with its data. The error message texts are not modelled.
- `InvalidBytesConsumed` is declared but never raised. The error is documented for a frame that claims more bytes than remain, but `read_sized` hands the short slice to the decoder anyway. The model follows the code: `ParseSized` passes at most n bytes on, and only the decoder can reject them.
- `MessageNotProcessable` appears only in a docstring of `read_record` and is not implemented.
- The last branch of `_reraise_for_bound` re-raises the original `struct.error`. It is `None` in `Writers.ReraiseForBound`. No writer takes it, because packing an integer fails only outside the range.
- `Streams.Buffer.Seek` accepts only positions inside the buffer. The core seeks only back to a position it read with `tell()`.
- `write_backup` is imported by tests/unit/backup/v3/test_disk_format.py:10, but karapace/backup/v3/writers.py does not define it, so it is not part of this model. `RoundTrip.WriteImage` is a reconstruction, not a model of source lines: it writes the metadata and then each record in order, which is the layout the test reads back.
- Files, CLI handling and broker I/O around the backend are not modelled.
