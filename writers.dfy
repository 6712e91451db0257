/** karapace/backup/v3/writers.py: the fixed-width integer writers, the sized
    frame and the checksummed record envelope, each appending to the buffer;
    and, as functions, the bytes those writers lay down. */
module Writers {
  import opened Wrappers
  import opened Schema
  import opened Errors
  import opened Streams
  import opened Struct

  const UINT32_RANGE: IntRange := IntRange(0, 0x1_0000_0000)
  const UINT64_RANGE: IntRange := IntRange(0, 0x1_0000_0000_0000_0000)

  /** The error to raise once packing `value` failed. None is the last branch,
      which re-raises the original `struct.error`: it is taken only for a value
      inside `valid`, which packing never rejects. The lower bound is tested
      first, so exactly one bound error describes an out-of-range value. */
  function ReraiseForBound(valid: IntRange, value: int): (e: Option<EncodeError>)
    ensures e.None? <==> valid.Contains(value)
    ensures e.Some? ==> e.value.valid == valid && e.value.value == value
    ensures e.Some? ==> (e.value.IntegerBelowBound? <==> value < valid.start)
    ensures e.Some? && e.value.IntegerAboveBound? ==> value >= valid.stop
  {
    if value < valid.start then Some(IntegerBelowBound(valid, value))
    else if value >= valid.stop then Some(IntegerAboveBound(valid, value))
    else None
  }

  /** A sized frame: the payload's length as a 4-byte big-endian prefix, then the
      payload. The prefix decodes to the length of any payload that fits it. */
  function Frame(payload: Bytes): (frame: Bytes)
    ensures |frame| == 4 + |payload| && frame[4..] == payload
    ensures |payload| < 0x1_0000_0000 ==> FromBigEndian(frame[..4]) == |payload|
  {
    var prefix := BigEndian(|payload|, 4);
    assert prefix == (prefix + payload)[..4];
    Widths();
    if |payload| < 0x1_0000_0000 then
      FromBigEndianOfBigEndian(|payload|, 4);
      prefix + payload
    else
      prefix + payload
  }

  /** The Envelope `write_record` builds: the encoded record and its digest. */
  function Seal(formats: Formats, record: Record): (envelope: Envelope)
    ensures envelope.record == formats.record.serialize(record)
    ensures envelope.checksum == formats.xxh64(envelope.record)
  {
    var encoded := formats.record.serialize(record);
    Envelope(encoded, formats.xxh64(encoded))
  }

  /** The frame `write_record` lays down for one record. */
  function RecordFrame(formats: Formats, record: Record): Bytes
  {
    Frame(formats.envelope.serialize(Seal(formats, record)))
  }

  /** The frames of a sequence of records, in order. */
  function RecordFrames(formats: Formats, records: seq<Record>): Bytes
  {
    if records == [] then [] else RecordFrame(formats, records[0]) + RecordFrames(formats, records[1..])
  }

  /** A whole backup file: the metadata frame followed by one frame per record. */
  function BackupImage(formats: Formats, metadata: Metadata, records: seq<Record>): Bytes
  {
    Frame(formats.metadata.serialize(metadata)) + RecordFrames(formats, records)
  }

  /** Every frame of the file has a length that fits its 4-byte prefix. */
  predicate Framable(formats: Formats, metadata: Metadata, records: seq<Record>)
  {
    && |formats.metadata.serialize(metadata)| < 0x1_0000_0000
    && forall i :: 0 <= i < |records| ==> |formats.envelope.serialize(Seal(formats, records[i]))| < 0x1_0000_0000
  }

  /** Appending a record appends its frame. */
  lemma {:induction false} RecordFramesSnoc(formats: Formats, records: seq<Record>, record: Record)
    ensures RecordFrames(formats, records + [record]) == RecordFrames(formats, records) + RecordFrame(formats, record)
  {
    if records == [] {
      assert records + [record] == [record];
    } else {
      assert (records + [record])[1..] == records[1..] + [record];
      RecordFramesSnoc(formats, records[1..], record);
    }
  }

  /** Writing the next record at the end of a file appends its frame. */
  lemma BackupImageStep(formats: Formats, metadata: Metadata, records: seq<Record>, i: nat)
    requires i < |records|
    ensures BackupImage(formats, metadata, records[..i + 1]) == BackupImage(formats, metadata, records[..i]) + RecordFrame(formats, records[i])
  {
    assert records[..i + 1] == records[..i] + [records[i]];
    RecordFramesSnoc(formats, records[..i], records[i]);
  }

  /** The documented encodings and bound errors of `write_uint32`. */
  lemma Uint32Fixtures()
    ensures Pack(4, 0) == Some([0x00, 0x00, 0x00, 0x00])
    ensures Pack(4, 0xFFFF_FFFF) == Some([0xFF, 0xFF, 0xFF, 0xFF])
    ensures Pack(4, 67) == Some([0x00, 0x00, 0x00, 0x43])
    ensures Pack(4, -1) == None && ReraiseForBound(UINT32_RANGE, -1) == Some(IntegerBelowBound(UINT32_RANGE, -1))
    ensures Pack(4, 0x1_0000_0000) == None
    ensures ReraiseForBound(UINT32_RANGE, 0x1_0000_0000) == Some(IntegerAboveBound(UINT32_RANGE, 0x1_0000_0000))
  {
    Widths();
    assert BigEndian(0, 4) == [0x00, 0x00, 0x00, 0x00];
    assert BigEndian(0xFFFF_FFFF, 4) == [0xFF, 0xFF, 0xFF, 0xFF];
    assert BigEndian(67, 4) == [0x00, 0x00, 0x00, 0x43];
  }

  /** The documented encodings and bound errors of `write_uint64`. */
  lemma Uint64Fixtures()
    ensures Pack(8, 0) == Some([0x00, 0x00, 0x00, 0x00, 0x00, 0x00, 0x00, 0x00])
    ensures Pack(8, 0xFFFF_FFFF_FFFF_FFFF) == Some([0xFF, 0xFF, 0xFF, 0xFF, 0xFF, 0xFF, 0xFF, 0xFF])
    ensures Pack(8, 67) == Some([0x00, 0x00, 0x00, 0x00, 0x00, 0x00, 0x00, 0x43])
    ensures Pack(8, -1) == None && ReraiseForBound(UINT64_RANGE, -1) == Some(IntegerBelowBound(UINT64_RANGE, -1))
    ensures Pack(8, 0x1_0000_0000_0000_0000) == None
    ensures ReraiseForBound(UINT64_RANGE, 0x1_0000_0000_0000_0000)
         == Some(IntegerAboveBound(UINT64_RANGE, 0x1_0000_0000_0000_0000))
  {
    Widths();
    BigEndian64Fixtures();
  }

  lemma BigEndian64Fixtures()
    ensures BigEndian(0, 8) == [0x00, 0x00, 0x00, 0x00, 0x00, 0x00, 0x00, 0x00]
    ensures BigEndian(0xFFFF_FFFF_FFFF_FFFF, 8) == [0xFF, 0xFF, 0xFF, 0xFF, 0xFF, 0xFF, 0xFF, 0xFF]
    ensures BigEndian(67, 8) == [0x00, 0x00, 0x00, 0x00, 0x00, 0x00, 0x00, 0x43]
  {
    assert BigEndian(0, 1) == [0x00];
    assert BigEndian(0, 2) == [0x00, 0x00];
    assert BigEndian(0, 3) == [0x00, 0x00, 0x00];
    assert BigEndian(0, 4) == [0x00, 0x00, 0x00, 0x00];
    assert BigEndian(0, 5) == [0x00, 0x00, 0x00, 0x00, 0x00];
    assert BigEndian(0, 6) == [0x00, 0x00, 0x00, 0x00, 0x00, 0x00];
    assert BigEndian(0, 7) == [0x00, 0x00, 0x00, 0x00, 0x00, 0x00, 0x00];
    assert BigEndian(0xFF, 1) == [0xFF];
    assert BigEndian(0xFFFF, 2) == [0xFF, 0xFF];
    assert BigEndian(0xFF_FFFF, 3) == [0xFF, 0xFF, 0xFF];
    assert BigEndian(0xFFFF_FFFF, 4) == [0xFF, 0xFF, 0xFF, 0xFF];
    assert BigEndian(0xFF_FFFF_FFFF, 5) == [0xFF, 0xFF, 0xFF, 0xFF, 0xFF];
    assert BigEndian(0xFFFF_FFFF_FFFF, 6) == [0xFF, 0xFF, 0xFF, 0xFF, 0xFF, 0xFF];
    assert BigEndian(0xFF_FFFF_FFFF_FFFF, 7) == [0xFF, 0xFF, 0xFF, 0xFF, 0xFF, 0xFF, 0xFF];
  }

  /** `write_uint32`: an in-range value appends its four bytes; any other value
      raises its bound error and writes nothing, since packing fails first. */
  method WriteUint32(buffer: Buffer, value: int) returns (r: Outcome<EncodeError>)
    requires buffer.Valid()
    modifies buffer
    ensures buffer.Valid()
    ensures r.Pass? <==> UINT32_RANGE.Contains(value)
    ensures r.Pass? ==> (buffer.data == Overwritten(old(buffer.data), old(buffer.pos), BigEndian(value, 4))
                     && buffer.pos == old(buffer.pos) + 4)
    ensures r.Fail? ==> (Some(r.error) == ReraiseForBound(UINT32_RANGE, value)
                     && buffer.data == old(buffer.data) && buffer.pos == old(buffer.pos))
  {
    Widths();
    match Pack(4, value)
    case Some(packed) =>
      buffer.Write(packed);
      r := Pass;
    case None =>
      r := Fail(ReraiseForBound(UINT32_RANGE, value).value);
  }

  /** `write_uint64`: as `write_uint32`, with eight bytes and the bound 2^64. */
  method WriteUint64(buffer: Buffer, value: int) returns (r: Outcome<EncodeError>)
    requires buffer.Valid()
    modifies buffer
    ensures buffer.Valid()
    ensures r.Pass? <==> UINT64_RANGE.Contains(value)
    ensures r.Pass? ==> (buffer.data == Overwritten(old(buffer.data), old(buffer.pos), BigEndian(value, 8))
                     && buffer.pos == old(buffer.pos) + 8)
    ensures r.Fail? ==> (Some(r.error) == ReraiseForBound(UINT64_RANGE, value)
                     && buffer.data == old(buffer.data) && buffer.pos == old(buffer.pos))
  {
    Widths();
    match Pack(8, value)
    case Some(packed) =>
      buffer.Write(packed);
      r := Pass;
    case None =>
      r := Fail(ReraiseForBound(UINT64_RANGE, value).value);
  }

  /** `write_sized`: the length prefix, then the encoded model. A payload too long
      for the prefix fails in the prefix write, before anything is written. */
  method WriteSized<T>(buffer: Buffer, codec: Codec<T>, model: T) returns (r: Outcome<EncodeError>)
    requires buffer.Valid()
    modifies buffer
    ensures buffer.Valid()
    ensures r.Pass? <==> |codec.serialize(model)| < 0x1_0000_0000
    ensures r.Pass? ==> (buffer.data == Overwritten(old(buffer.data), old(buffer.pos), Frame(codec.serialize(model)))
                     && buffer.pos == old(buffer.pos) + 4 + |codec.serialize(model)|)
    ensures r.Fail? ==> (r.error == IntegerAboveBound(UINT32_RANGE, |codec.serialize(model)|)
                     && buffer.data == old(buffer.data) && buffer.pos == old(buffer.pos))
  {
    var encoded := codec.serialize(model);
    r := WriteUint32(buffer, |encoded|);
    if r.Pass? {
      buffer.Write(encoded);
      OverwrittenTwice(old(buffer.data), old(buffer.pos), BigEndian(|encoded|, 4), encoded);
    }
  }

  /** `write_metadata`: exactly `write_sized` of the metadata. */
  method WriteMetadata(buffer: Buffer, formats: Formats, metadata: Metadata) returns (r: Outcome<EncodeError>)
    requires buffer.Valid()
    modifies buffer
    ensures buffer.Valid()
    ensures r.Pass? <==> |formats.metadata.serialize(metadata)| < 0x1_0000_0000
    ensures r.Pass? ==> (buffer.data == Overwritten(old(buffer.data), old(buffer.pos), Frame(formats.metadata.serialize(metadata)))
                     && buffer.pos == old(buffer.pos) + 4 + |formats.metadata.serialize(metadata)|)
    ensures r.Fail? ==> (r.error == IntegerAboveBound(UINT32_RANGE, |formats.metadata.serialize(metadata)|)
                     && buffer.data == old(buffer.data) && buffer.pos == old(buffer.pos))
  {
    r := WriteSized(buffer, formats.metadata, metadata);
  }

  /** `write_record`: encode the record, wrap the encoding and its xxh64 digest
      in an Envelope, and write the Envelope as a sized frame. */
  method WriteRecord(buffer: Buffer, formats: Formats, record: Record) returns (r: Outcome<EncodeError>)
    requires buffer.Valid()
    modifies buffer
    ensures buffer.Valid()
    ensures r.Pass? <==> |formats.envelope.serialize(Seal(formats, record))| < 0x1_0000_0000
    ensures r.Pass? ==> (buffer.data == Overwritten(old(buffer.data), old(buffer.pos), RecordFrame(formats, record))
                     && buffer.pos == old(buffer.pos) + |RecordFrame(formats, record)|)
    ensures r.Fail? ==> (r.error == IntegerAboveBound(UINT32_RANGE, |formats.envelope.serialize(Seal(formats, record))|)
                     && buffer.data == old(buffer.data) && buffer.pos == old(buffer.pos))
  {
    var encodedRecord := formats.record.serialize(record);
    var envelope := Envelope(encodedRecord, formats.xxh64(encodedRecord));
    r := WriteSized(buffer, formats.envelope, envelope);
  }
}
