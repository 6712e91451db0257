/** What the readers promise about what the writers wrote: the integer, frame,
    record and whole-file round trips, the checksum catching a corrupted record,
    and the write-then-read sequences of tests/unit/backup/v3/test_disk_format.py. */
module RoundTrip {
  import opened Wrappers
  import opened Schema
  import opened Errors
  import opened Streams
  import opened Struct
  import opened Writers
  import opened Readers

  /** An integer read where its encoding was written reads back as itself,
      and the position moves past exactly its `width` bytes. */
  lemma ParseUintOfBigEndian(width: nat, prefix: Bytes, value: nat, rest: Bytes)
    requires value < Pow256(width)
    ensures ParseUint(width, prefix + BigEndian(value, width) + rest, |prefix|) == Parsed(Success(value), |prefix| + width)
  {
    var data := prefix + BigEndian(value, width) + rest;
    assert Slice(data, |prefix|, width) == BigEndian(value, width);
    FromBigEndianOfBigEndian(value, width);
  }

  /** A frame reads back as what the decoder makes of the encoding it was
      written from, and the position moves just past the frame. */
  lemma ParseSizedOfFrame<T>(codec: Codec<T>, prefix: Bytes, model: T, decoded: T, rest: Bytes)
    requires codec.deserialize(codec.serialize(model)) == Some(decoded)
    requires |codec.serialize(model)| < 0x1_0000_0000
    ensures ParseSized(codec, prefix + Frame(codec.serialize(model)) + rest, |prefix|)
         == Parsed(Success(decoded), |prefix| + |Frame(codec.serialize(model))|)
  {
    var encoded := codec.serialize(model);
    var data := prefix + Frame(encoded) + rest;
    Widths();
    assert data == prefix + BigEndian(|encoded|, 4) + (encoded + rest);
    ParseUintOfBigEndian(4, prefix, |encoded|, encoded + rest);
    assert Slice(data, |prefix| + 4, |encoded|) == encoded;
  }

  /** A written record reads back: its checksum verifies and its bytes decode. */
  lemma ParseRecordOfFrame(formats: Formats, prefix: Bytes, record: Record, rest: Bytes)
    requires Lawful(formats)
    requires |formats.envelope.serialize(Seal(formats, record))| < 0x1_0000_0000
    ensures ParseRecord(formats, prefix + RecordFrame(formats, record) + rest, |prefix|)
         == Parsed(Success(record), |prefix| + |RecordFrame(formats, record)|)
  {
    ParseSizedOfFrame(formats.envelope, prefix, Seal(formats, record), Seal(formats, record), rest);
  }

  /** A record whose bytes were corrupted after its checksum was taken is
      rejected with InvalidChecksum, whenever the corruption changes the digest. */
  lemma CorruptedRecordRejected(formats: Formats, prefix: Bytes, record: Record, corrupted: Bytes, rest: Bytes)
    requires Lawful(formats)
    requires formats.xxh64(corrupted) != formats.xxh64(formats.record.serialize(record))
    requires |formats.envelope.serialize(Envelope(corrupted, formats.xxh64(formats.record.serialize(record))))| < 0x1_0000_0000
    ensures ParseRecord(formats, prefix + Frame(formats.envelope.serialize(Envelope(corrupted, formats.xxh64(formats.record.serialize(record))))) + rest, |prefix|).result
         == Failure(DecodeRecord(InvalidChecksum(formats.xxh64(formats.record.serialize(record)), formats.xxh64(corrupted))))
  {
    var envelope := Envelope(corrupted, formats.xxh64(formats.record.serialize(record)));
    ParseSizedOfFrame(formats.envelope, prefix, envelope, envelope, rest);
  }

  /** The read loop over written records yields exactly those records, in order,
      and ends cleanly at the end of the stream. */
  lemma {:induction false} ParseRecordsOfFrames(formats: Formats, prefix: Bytes, records: seq<Record>)
    requires Lawful(formats)
    requires forall i :: 0 <= i < |records| ==> |formats.envelope.serialize(Seal(formats, records[i]))| < 0x1_0000_0000
    ensures ParseRecords(formats, prefix + RecordFrames(formats, records), |prefix|)
         == Drained(records, None, |prefix| + |RecordFrames(formats, records)|)
    decreases |records|
  {
    if records == [] {
      assert prefix + RecordFrames(formats, records) == prefix;
    } else {
      var first := RecordFrame(formats, records[0]);
      var later := RecordFrames(formats, records[1..]);
      assert prefix + RecordFrames(formats, records) == (prefix + first) + later;
      ParseRecordsOfFrames(formats, prefix + first, records[1..]);
      ParseRecordsOfFrame(formats, prefix, records[0], later, records[1..], |prefix + first| + |later|);
      assert [records[0]] + records[1..] == records;
    }
  }

  /** One written record in front of frames that read back as `later` reads back
      as itself followed by `later`. */
  lemma ParseRecordsOfFrame(formats: Formats, prefix: Bytes, record: Record, rest: Bytes, later: seq<Record>, next: nat)
    requires Lawful(formats)
    requires |formats.envelope.serialize(Seal(formats, record))| < 0x1_0000_0000
    requires |prefix + RecordFrame(formats, record)| <= |prefix + RecordFrame(formats, record) + rest|
    requires ParseRecords(formats, prefix + RecordFrame(formats, record) + rest, |prefix + RecordFrame(formats, record)|)
          == Drained(later, None, next)
    ensures ParseRecords(formats, prefix + RecordFrame(formats, record) + rest, |prefix|) == Drained([record] + later, None, next)
  {
    ParseRecordOfFrame(formats, prefix, record, rest);
    ParseRecordsAfterRecord(formats, prefix + RecordFrame(formats, record) + rest, |prefix|, record);
  }

  /** The whole file: the metadata frame reads back as the metadata (its
      creation time to the millisecond), and the read loop after it yields the
      records in the order they were written. */
  lemma ReadBackImage(formats: Formats, metadata: Metadata, records: seq<Record>)
    requires Lawful(formats) && Framable(formats, metadata, records)
    ensures ParseSized(formats.metadata, BackupImage(formats, metadata, records), 0)
         == Parsed(Success(MetadataAtMillis(metadata)), |Frame(formats.metadata.serialize(metadata))|)
    ensures ParseRecords(formats, BackupImage(formats, metadata, records), |Frame(formats.metadata.serialize(metadata))|)
         == Drained(records, None, |BackupImage(formats, metadata, records)|)
  {
    var head := Frame(formats.metadata.serialize(metadata));
    var frames := RecordFrames(formats, records);
    assert [] + head + frames == BackupImage(formats, metadata, records);
    ParseSizedOfFrame(formats.metadata, [], metadata, MetadataAtMillis(metadata), frames);
    ParseRecordsOfFrames(formats, head, records);
  }

  /** test_uint32_roundtrip: write a value into an empty buffer, seek back, read it. */
  method Uint32RoundTrip(value: int) returns (read: Result<nat, ReadError>)
    requires UINT32_RANGE.Contains(value)
    ensures read == Success(value)
  {
    var buffer := new Buffer([]);
    var written := WriteUint32(buffer, value);
    OverwrittenAtEnd([], BigEndian(value, 4));
    buffer.Seek(0);
    read := ReadUint32(buffer);
    Widths();
    ParseUintOfBigEndian(4, [], value, []);
    assert [] + BigEndian(value, 4) + [] == BigEndian(value, 4);
  }

  /** test_uint64_roundtrip */
  method Uint64RoundTrip(value: int) returns (read: Result<nat, ReadError>)
    requires UINT64_RANGE.Contains(value)
    ensures read == Success(value)
  {
    var buffer := new Buffer([]);
    var written := WriteUint64(buffer, value);
    OverwrittenAtEnd([], BigEndian(value, 8));
    buffer.Seek(0);
    read := ReadUint64(buffer);
    Widths();
    ParseUintOfBigEndian(8, [], value, []);
    assert [] + BigEndian(value, 8) + [] == BigEndian(value, 8);
  }

  /** The writing half of test_full_roundtrip: the metadata and then each record,
      written in order into an empty buffer, lay down the backup file. */
  method WriteImage(formats: Formats, metadata: Metadata, records: seq<Record>) returns (buffer: Buffer)
    requires Framable(formats, metadata, records)
    ensures fresh(buffer) && buffer.Valid()
    ensures buffer.data == BackupImage(formats, metadata, records) && buffer.pos == |buffer.data|
  {
    buffer := new Buffer([]);
    var written := WriteMetadata(buffer, formats, metadata);
    OverwrittenAtEnd([], Frame(formats.metadata.serialize(metadata)));
    var i := 0;
    while i < |records|
      invariant 0 <= i <= |records|
      invariant buffer.Valid() && buffer.pos == |buffer.data|
      invariant buffer.data == BackupImage(formats, metadata, records[..i])
    {
      ghost var before := buffer.data;
      written := WriteRecord(buffer, formats, records[i]);
      OverwrittenAtEnd(before, RecordFrame(formats, records[i]));
      BackupImageStep(formats, metadata, records, i);
      i := i + 1;
    }
    assert records[..i] == records;
  }

  /** test_full_roundtrip: write the metadata and then each record into an empty
      buffer, seek back, and read the metadata and the records back. The metadata
      comes back equal when its creation time is a whole millisecond, as the
      test's is (it zeroes the microseconds). */
  method FullRoundTrip(formats: Formats, metadata: Metadata, records: seq<Record>)
    returns (readMetadata: Result<Metadata, ReadError>, readRecords: seq<Record>, failure: Option<ReadError>)
    requires Lawful(formats) && Framable(formats, metadata, records)
    ensures readMetadata == Success(MetadataAtMillis(metadata))
    ensures metadata.createdAt.microseconds % 1000 == 0 ==> readMetadata == Success(metadata)
    ensures readRecords == records && failure == None
  {
    var buffer := WriteImage(formats, metadata, records);
    ReadBackImage(formats, metadata, records);
    buffer.Seek(0);
    readMetadata := ReadMetadata(buffer, formats);
    readRecords, failure := ReadRecords(buffer, formats);
  }
}
