/** karapace/backup/v3/readers.py. Each reader is a method that advances the
    shared buffer; each is proved against a function of the buffer's contents and
    position that gives the value read (or the failure) and the position after it. */
module Readers {
  import opened Wrappers
  import opened Schema
  import opened Errors
  import opened Streams
  import opened Struct

  /** The outcome of reading one item at some position, and the position after it. */
  datatype Parsed<T> = Parsed(result: Result<T, ReadError>, next: nat)

  /** The records a read loop yields, the failure that stopped it (None when the
      stream ended cleanly), and the position it stopped at. */
  datatype Drained = Drained(records: seq<Record>, failure: Option<ReadError>, next: nat)

  /** Reading a `width`-byte unsigned integer: `buffer.read(width)`, then unpacking. */
  function ParseUint(width: nat, data: Bytes, pos: nat): (p: Parsed<nat>)
    requires pos <= |data|
    ensures pos <= p.next <= |data|
    ensures p.result.Success? <==> pos + width <= |data|
    ensures p.result.Success? ==> p.next == pos + width && Pack(width, p.result.value) == Some(data[pos..pos + width])
    ensures p.result.Failure? ==> p.result.error == StructError(width, |data| - pos) && p.next == |data|
  {
    var s := Slice(data, pos, width);
    match Unpack(width, s)
    case Some(value) => Parsed(Success(value), pos + |s|)
    case None => Parsed(Failure(StructError(width, |s|)), pos + |s|)
  }

  /** Reading a sized frame: the 4-byte length n, then at most n further bytes,
      handed to the decoder as they are (a short payload is not rejected here). */
  function ParseSized<T>(codec: Codec<T>, data: Bytes, pos: nat): (p: Parsed<T>)
    requires pos <= |data|
    ensures pos <= p.next <= |data|
    ensures pos + 4 > |data| ==> p.result == Failure(StructError(4, |data| - pos)) && p.next == |data|
    ensures pos + 4 <= |data| ==>
              var size := FromBigEndian(data[pos..pos + 4]);
              && p.next == pos + 4 + Min(size, |data| - (pos + 4))
              && (p.result.Success? <==> codec.deserialize(data[pos + 4..p.next]).Some?)
              && (p.result.Success? ==> codec.deserialize(data[pos + 4..p.next]) == Some(p.result.value))
              && (p.result.Failure? ==> p.result.error == DeserializeError)
  {
    var size := ParseUint(4, data, pos);
    match size.result
    case Failure(e) => Parsed(Failure(e), size.next)
    case Success(n) =>
      var payload := Slice(data, size.next, n);
      var next := size.next + |payload|;
      match codec.deserialize(payload)
      case Some(value) => Parsed(Success(value), next)
      case None => Parsed(Failure(DeserializeError), next)
  }

  /** Reading a record: an Envelope frame whose checksum must be the digest of its
      record bytes, which are then decoded as a Record. */
  function ParseRecord(formats: Formats, data: Bytes, pos: nat): (p: Parsed<Record>)
    requires pos <= |data|
    ensures p.next == ParseSized(formats.envelope, data, pos).next
    ensures p.result.Success? ==> pos + 4 <= p.next
    ensures var envelope := ParseSized(formats.envelope, data, pos).result;
            && (envelope.Failure? ==> p.result == Failure(envelope.error))
            && ((p.result.Failure? && p.result.error.DecodeRecord?) <==>
                  (envelope.Success? && envelope.value.checksum != formats.xxh64(envelope.value.record)))
            && (envelope.Success? && envelope.value.checksum != formats.xxh64(envelope.value.record) ==>
                  p.result.error == DecodeRecord(InvalidChecksum(envelope.value.checksum, formats.xxh64(envelope.value.record))))
            && (envelope.Success? && envelope.value.checksum == formats.xxh64(envelope.value.record) ==>
                  && (p.result.Success? <==> formats.record.deserialize(envelope.value.record).Some?)
                  && (p.result.Success? ==> formats.record.deserialize(envelope.value.record) == Some(p.result.value)))
  {
    var envelope := ParseSized(formats.envelope, data, pos);
    match envelope.result
    case Failure(e) => Parsed(Failure(e), envelope.next)
    case Success(env) =>
      var digest := formats.xxh64(env.record);
      if env.checksum != digest then
        Parsed(Failure(DecodeRecord(InvalidChecksum(env.checksum, digest))), envelope.next)
      else
        match formats.record.deserialize(env.record)
        case Some(record) => Parsed(Success(record), envelope.next)
        case None => Parsed(Failure(DeserializeError), envelope.next)
  }

  /** The read loop: records in stream order until no byte remains, or until the
      first record that fails to read. */
  function ParseRecords(formats: Formats, data: Bytes, pos: nat): (d: Drained)
    requires pos <= |data|
    ensures pos <= d.next <= |data|
    ensures d.failure.None? ==> d.next == |data|
    ensures pos == |data| ==> d == Drained([], None, pos)
    decreases |data| - pos
  {
    if pos == |data| then
      Drained([], None, pos)
    else
      var first := ParseRecord(formats, data, pos);
      match first.result
      case Failure(e) => Drained([], Some(e), first.next)
      case Success(record) =>
        var rest := ParseRecords(formats, data, first.next);
        Drained([record] + rest.records, rest.failure, rest.next)
  }

  /** One turn of the read loop that reads a record: that record comes first,
      and the loop carries on after it. */
  lemma ParseRecordsAfterRecord(formats: Formats, data: Bytes, pos: nat, record: Record)
    requires pos <= |data|
    requires ParseRecord(formats, data, pos).result == Success(record)
    ensures var rest := ParseRecords(formats, data, ParseRecord(formats, data, pos).next);
            ParseRecords(formats, data, pos) == Drained([record] + rest.records, rest.failure, rest.next)
  {
  }

  /** `read_uint32` */
  method ReadUint32(buffer: Buffer) returns (r: Result<nat, ReadError>)
    requires buffer.Valid()
    modifies buffer
    ensures buffer.Valid() && buffer.data == old(buffer.data)
    ensures Parsed(r, buffer.pos) == ParseUint(4, old(buffer.data), old(buffer.pos))
  {
    var bytes := buffer.Read(4);
    match Unpack(4, bytes)
    case Some(value) => r := Success(value);
    case None => r := Failure(StructError(4, |bytes|));
  }

  /** `read_uint64` */
  method ReadUint64(buffer: Buffer) returns (r: Result<nat, ReadError>)
    requires buffer.Valid()
    modifies buffer
    ensures buffer.Valid() && buffer.data == old(buffer.data)
    ensures Parsed(r, buffer.pos) == ParseUint(8, old(buffer.data), old(buffer.pos))
  {
    var bytes := buffer.Read(8);
    match Unpack(8, bytes)
    case Some(value) => r := Success(value);
    case None => r := Failure(StructError(8, |bytes|));
  }

  /** `read_sized` */
  method ReadSized<T>(buffer: Buffer, codec: Codec<T>) returns (r: Result<T, ReadError>)
    requires buffer.Valid()
    modifies buffer
    ensures buffer.Valid() && buffer.data == old(buffer.data)
    ensures Parsed(r, buffer.pos) == ParseSized(codec, old(buffer.data), old(buffer.pos))
  {
    var size := ReadUint32(buffer);
    match size
    case Failure(e) =>
      r := Failure(e);
    case Success(n) =>
      var payload := buffer.Read(n);
      match codec.deserialize(payload)
      case Some(value) => r := Success(value);
      case None => r := Failure(DeserializeError);
  }

  /** `read_metadata`: exactly `read_sized` of a Metadata. */
  method ReadMetadata(buffer: Buffer, formats: Formats) returns (r: Result<Metadata, ReadError>)
    requires buffer.Valid()
    modifies buffer
    ensures buffer.Valid() && buffer.data == old(buffer.data)
    ensures Parsed(r, buffer.pos) == ParseSized(formats.metadata, old(buffer.data), old(buffer.pos))
  {
    r := ReadSized(buffer, formats.metadata);
  }

  /** `read_record` */
  method ReadRecord(buffer: Buffer, formats: Formats) returns (r: Result<Record, ReadError>)
    requires buffer.Valid()
    modifies buffer
    ensures buffer.Valid() && buffer.data == old(buffer.data)
    ensures Parsed(r, buffer.pos) == ParseRecord(formats, old(buffer.data), old(buffer.pos))
  {
    var envelope := ReadSized(buffer, formats.envelope);
    if envelope.Failure? {
      return Failure(envelope.error);
    }
    var env := envelope.value;
    if env.checksum != formats.xxh64(env.record) {
      return Failure(DecodeRecord(InvalidChecksum(env.checksum, formats.xxh64(env.record))));
    }
    match formats.record.deserialize(env.record)
    case Some(record) => r := Success(record);
    case None => r := Failure(DeserializeError);
  }

  /** `read_records`: peek one byte to test for the end of the stream, step back,
      and read a record; the records come out in stream order, and a failure
      ends the loop after the records already yielded. */
  method ReadRecords(buffer: Buffer, formats: Formats) returns (records: seq<Record>, failure: Option<ReadError>)
    requires buffer.Valid()
    modifies buffer
    ensures buffer.Valid() && buffer.data == old(buffer.data)
    ensures Drained(records, failure, buffer.pos) == ParseRecords(formats, old(buffer.data), old(buffer.pos))
  {
    ghost var data, start := buffer.data, buffer.pos;
    records, failure := [], None;
    while true
      invariant buffer.Valid() && buffer.data == data && start <= buffer.pos
      invariant var rest := ParseRecords(formats, data, buffer.pos);
                ParseRecords(formats, data, start) == Drained(records + rest.records, rest.failure, rest.next)
      decreases |data| - buffer.pos
    {
      var position := buffer.Tell();
      var peeked := buffer.Read(1);
      if peeked == [] {
        break;
      }
      buffer.Seek(position);
      var record := ReadRecord(buffer, formats);
      if record.Failure? {
        failure := Some(record.error);
        assert records + [] == records;
        return;
      }
      ParseRecordsAfterRecord(formats, data, position, record.value);
      ghost var rest := ParseRecords(formats, data, buffer.pos);
      assert records + ([record.value] + rest.records) == (records + [record.value]) + rest.records;
      records := records + [record.value];
    }
    assert records + [] == records;
  }
}
