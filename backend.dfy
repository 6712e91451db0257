/** karapace/backup/v3/backend.py: the producer side stores the metadata and the
    records of one partition through the writers; the reader side reads the
    metadata, refuses multi-partition backups and foreign topics, and turns each
    record read into a send for the producer that restores it. */
module Backend {
  import opened Wrappers
  import opened Schema
  import opened Errors
  import opened Streams
  import opened Writers
  import opened Readers
  import opened RoundTrip

  const FORMAT_VERSION := 3
  const TOOL_NAME := "karapace"

  /** The fields of a consumed message that a backup keeps. */
  datatype ConsumerRecord = ConsumerRecord(
    key: Option<Bytes>,
    value: Option<Bytes>,
    headers: seq<(Bytes, Bytes)>,
    partition: int,
    offset: int,
    timestamp: int)

  /** A message to produce when restoring. */
  datatype ProducerSend = ProducerSend(
    topicName: string,
    value: Option<Bytes>,
    key: Option<Bytes>,
    headers: seq<(Bytes, Bytes)>,
    partition: int,
    timestampMs: int)

  /** The RuntimeErrors of the backend, and the writer and reader failures it passes on. */
  datatype BackendError =
    | MultiPartitionBackup(partitionCount: int)     // store_metadata refuses any count but 1
    | MultiPartitionRestore(partitionCount: int)    // read refuses metadata with any count but 1
    | DifferingTopicName(expected: string, found: string)  // read refuses metadata of another topic
    | Encode(encodeError: EncodeError)
    | Read(readError: ReadError)

  /** The sends a restore yields, the failure that ended it (None on a clean end)
      and the position it stopped at. */
  datatype Restored = Restored(sends: seq<ProducerSend>, failure: Option<BackendError>, next: nat)

  /** One Header per (key, value) pair, in order. */
  function HeadersOf(pairs: seq<(Bytes, Bytes)>): (headers: seq<Header>)
    ensures |headers| == |pairs|
    ensures forall i :: 0 <= i < |pairs| ==> headers[i].key == pairs[i].0 && headers[i].value == pairs[i].1
  {
    seq(|pairs|, i requires 0 <= i < |pairs| => Header(pairs[i].0, pairs[i].1))
  }

  /** One (key, value) pair per Header, in order. */
  function PairsOf(headers: seq<Header>): (pairs: seq<(Bytes, Bytes)>)
    ensures |pairs| == |headers|
    ensures forall i :: 0 <= i < |headers| ==> pairs[i].0 == headers[i].key && pairs[i].1 == headers[i].value
  {
    seq(|headers|, i requires 0 <= i < |headers| => (headers[i].key, headers[i].value))
  }

  /** The Record `store_record` builds from a consumed message. */
  function RecordOf(message: ConsumerRecord): (record: Record)
    ensures record.key == message.key && record.value == message.value
    ensures PairsOf(record.headers) == message.headers
    ensures record.partition == message.partition && record.offset == message.offset
    ensures record.timestampMs == message.timestamp
  {
    PairsOfHeadersOf(message.headers);
    Record(message.key, message.value, HeadersOf(message.headers), message.partition, message.offset, message.timestamp)
  }

  /** The send `read` yields for a record read back. */
  function SendOf(topicName: string, record: Record): (send: ProducerSend)
    ensures send.topicName == topicName
    ensures send.key == record.key && send.value == record.value
    ensures |send.headers| == |record.headers|
    ensures forall i :: 0 <= i < |record.headers| ==> send.headers[i] == (record.headers[i].key, record.headers[i].value)
    ensures send.partition == record.partition && send.timestampMs == record.timestampMs
  {
    ProducerSend(topicName, record.value, record.key, PairsOf(record.headers), record.partition, record.timestampMs)
  }

  /** The Records `store_record` builds from a sequence of consumed messages. */
  function RecordsOf(messages: seq<ConsumerRecord>): (records: seq<Record>)
    ensures |records| == |messages|
    ensures forall i :: 0 <= i < |messages| ==> records[i] == RecordOf(messages[i])
  {
    seq(|messages|, i requires 0 <= i < |messages| => RecordOf(messages[i]))
  }

  /** One send per record, in order. */
  function SendsOf(topicName: string, records: seq<Record>): seq<ProducerSend>
  {
    seq(|records|, i requires 0 <= i < |records| => SendOf(topicName, records[i]))
  }

  /** Converting one more record appends its send. */
  lemma SendsOfSnoc(topicName: string, records: seq<Record>, record: Record)
    ensures SendsOf(topicName, records + [record]) == SendsOf(topicName, records) + [SendOf(topicName, record)]
  {
  }

  /** The Metadata `store_metadata` writes; the tool version and the creation
      time are what `__version__` and the UTC clock give at that moment. */
  function StoredMetadata(
    topicName: string, topicId: Option<Uuid>, estimatedRecordCount: int, partitionCount: int,
    toolVersion: string, createdAt: Timestamp): (metadata: Metadata)
    ensures metadata.version == 3 && metadata.toolName == "karapace"
    ensures metadata.toolVersion == toolVersion && metadata.createdAt == createdAt
    ensures metadata.estimatedRecordCount == estimatedRecordCount
    ensures metadata.topicName == topicName && metadata.topicId == topicId
    ensures metadata.partitionCount == partitionCount
  {
    Metadata(FORMAT_VERSION, TOOL_NAME, toolVersion, createdAt, estimatedRecordCount, topicName, topicId, partitionCount)
  }

  /** Headers survive the trip from a consumed message through a Record to a send:
      same pairs, same order. */
  lemma PairsOfHeadersOf(pairs: seq<(Bytes, Bytes)>)
    ensures PairsOf(HeadersOf(pairs)) == pairs
  {
  }

  /** A consumed message restores as a send to the caller's topic carrying the
      message's key, value, headers, partition and timestamp. */
  lemma SendOfRecordOf(topicName: string, message: ConsumerRecord)
    ensures SendOf(topicName, RecordOf(message))
         == ProducerSend(topicName, message.value, message.key, message.headers, message.partition, message.timestamp)
  {
  }

  /** What `read` yields for the buffer contents `data` read from position `pos`. */
  function Restore(formats: Formats, topicName: string, data: Bytes, pos: nat): (r: Restored)
    requires pos <= |data|
    ensures pos <= r.next <= |data|
    ensures r.failure.None? ==> r.next == |data|
    ensures var metadata := ParseSized(formats.metadata, data, pos).result;
            (metadata.Failure? || metadata.value.partitionCount != 1 || metadata.value.topicName != topicName)
              ==> r.sends == [] && r.failure.Some?
  {
    RestoreFrom(formats, topicName, data, ParseSized(formats.metadata, data, pos))
  }

  /** What `read` yields once the metadata frame has been read as `metadata`. */
  function RestoreFrom(formats: Formats, topicName: string, data: Bytes, metadata: Parsed<Metadata>): (r: Restored)
    requires metadata.next <= |data|
    ensures metadata.next <= r.next <= |data|
    ensures r.failure.None? ==> r.next == |data|
    ensures (metadata.result.Failure? || metadata.result.value.partitionCount != 1 || metadata.result.value.topicName != topicName)
              ==> r.sends == [] && r.failure.Some? && r.next == metadata.next
  {
    match metadata.result
    case Failure(e) => Restored([], Some(Read(e)), metadata.next)
    case Success(m) =>
      if m.partitionCount != 1 then
        Restored([], Some(MultiPartitionRestore(m.partitionCount)), metadata.next)
      else if m.topicName != topicName then
        Restored([], Some(DifferingTopicName(topicName, m.topicName)), metadata.next)
      else
        var drained := ParseRecords(formats, data, metadata.next);
        Restored(SendsOf(topicName, drained.records),
                 if drained.failure.Some? then Some(Read(drained.failure.value)) else None,
                 drained.next)
  }

  /** Restoring a backup of the caller's single-partition topic yields one send
      per record, in the order the records were written, and ends cleanly. */
  lemma RestoreOfImage(formats: Formats, topicName: string, metadata: Metadata, records: seq<Record>)
    requires Lawful(formats) && Framable(formats, metadata, records)
    requires metadata.partitionCount == 1 && metadata.topicName == topicName
    ensures Restore(formats, topicName, BackupImage(formats, metadata, records), 0)
         == Restored(SendsOf(topicName, records), None, |BackupImage(formats, metadata, records)|)
  {
    ReadBackImage(formats, metadata, records);
  }

  /** A multi-partition backup is refused before any record is yielded, whatever
      records follow its metadata. */
  lemma RestoreRefusesMultiPartition(formats: Formats, topicName: string, metadata: Metadata, rest: Bytes)
    requires formats.metadata.deserialize(formats.metadata.serialize(metadata)) == Some(MetadataAtMillis(metadata))
    requires |formats.metadata.serialize(metadata)| < 0x1_0000_0000
    requires metadata.partitionCount != 1
    ensures Restore(formats, topicName, Frame(formats.metadata.serialize(metadata)) + rest, 0)
         == Restored([], Some(MultiPartitionRestore(metadata.partitionCount)), |Frame(formats.metadata.serialize(metadata))|)
  {
    ParseSizedOfFrame(formats.metadata, [], metadata, MetadataAtMillis(metadata), rest);
    assert [] + Frame(formats.metadata.serialize(metadata)) + rest == Frame(formats.metadata.serialize(metadata)) + rest;
  }

  /** A single-partition backup of another topic is refused before any record is yielded. */
  lemma RestoreRefusesDifferingTopic(formats: Formats, topicName: string, metadata: Metadata, rest: Bytes)
    requires formats.metadata.deserialize(formats.metadata.serialize(metadata)) == Some(MetadataAtMillis(metadata))
    requires |formats.metadata.serialize(metadata)| < 0x1_0000_0000
    requires metadata.partitionCount == 1 && metadata.topicName != topicName
    ensures Restore(formats, topicName, Frame(formats.metadata.serialize(metadata)) + rest, 0)
         == Restored([], Some(DifferingTopicName(topicName, metadata.topicName)), |Frame(formats.metadata.serialize(metadata))|)
  {
    ParseSizedOfFrame(formats.metadata, [], metadata, MetadataAtMillis(metadata), rest);
    assert [] + Frame(formats.metadata.serialize(metadata)) + rest == Frame(formats.metadata.serialize(metadata)) + rest;
  }

  /** Backup then restore: the file `store_metadata` and `store_record` lay down
      for a single-partition topic restores, to that topic, every message in
      order with its key, value, headers, partition and timestamp. */
  lemma BackupThenRestore(
    formats: Formats, topicName: string, topicId: Option<Uuid>, estimatedRecordCount: int,
    toolVersion: string, createdAt: Timestamp, messages: seq<ConsumerRecord>)
    requires Lawful(formats)
    requires Framable(formats, StoredMetadata(topicName, topicId, estimatedRecordCount, 1, toolVersion, createdAt),
                      RecordsOf(messages))
    ensures var image := BackupImage(formats, StoredMetadata(topicName, topicId, estimatedRecordCount, 1, toolVersion, createdAt),
                                     RecordsOf(messages));
            var restored := Restore(formats, topicName, image, 0);
            && restored.failure == None
            && |restored.sends| == |messages|
            && forall i :: 0 <= i < |messages| ==>
                 restored.sends[i] == ProducerSend(topicName, messages[i].value, messages[i].key, messages[i].headers,
                                                   messages[i].partition, messages[i].timestamp)
  {
    var metadata := StoredMetadata(topicName, topicId, estimatedRecordCount, 1, toolVersion, createdAt);
    var records := RecordsOf(messages);
    RestoreOfImage(formats, topicName, metadata, records);
    forall i | 0 <= i < |messages|
      ensures SendsOf(topicName, records)[i]
           == ProducerSend(topicName, messages[i].value, messages[i].key, messages[i].headers,
                           messages[i].partition, messages[i].timestamp)
    {
      SendOfRecordOf(topicName, messages[i]);
    }
  }

  /** `SchemaBackupV3Producer.store_metadata`: a multi-partition topic is refused
      before any byte is written; otherwise the version-3 karapace Metadata is
      written as one sized frame. */
  method StoreMetadata(
    buffer: Buffer, formats: Formats, topicName: string, topicId: Option<Uuid>,
    estimatedRecordCount: int, partitionCount: int, toolVersion: string, createdAt: Timestamp)
    returns (r: Outcome<BackendError>)
    requires buffer.Valid()
    modifies buffer
    ensures buffer.Valid()
    ensures partitionCount != 1 ==>
              r == Fail(MultiPartitionBackup(partitionCount)) && buffer.data == old(buffer.data) && buffer.pos == old(buffer.pos)
    ensures partitionCount == 1 ==>
              var encoded := formats.metadata.serialize(
                StoredMetadata(topicName, topicId, estimatedRecordCount, partitionCount, toolVersion, createdAt));
              && (r.Pass? <==> |encoded| < 0x1_0000_0000)
              && (r.Pass? ==> buffer.data == Overwritten(old(buffer.data), old(buffer.pos), Frame(encoded))
                              && buffer.pos == old(buffer.pos) + |Frame(encoded)|)
              && (r.Fail? ==> r.error == Encode(IntegerAboveBound(UINT32_RANGE, |encoded|))
                              && buffer.data == old(buffer.data) && buffer.pos == old(buffer.pos))
  {
    if partitionCount != 1 {
      return Fail(MultiPartitionBackup(partitionCount));
    }
    var written := WriteMetadata(buffer, formats,
      StoredMetadata(topicName, topicId, estimatedRecordCount, partitionCount, toolVersion, createdAt));
    r := if written.Pass? then Pass else Fail(Encode(written.error));
  }

  /** `SchemaBackupV3Producer.store_record`: `write_record` of the message's Record. */
  method StoreRecord(buffer: Buffer, formats: Formats, message: ConsumerRecord) returns (r: Outcome<EncodeError>)
    requires buffer.Valid()
    modifies buffer
    ensures buffer.Valid()
    ensures r.Pass? <==> |formats.envelope.serialize(Seal(formats, RecordOf(message)))| < 0x1_0000_0000
    ensures r.Pass? ==> (buffer.data == Overwritten(old(buffer.data), old(buffer.pos), RecordFrame(formats, RecordOf(message)))
                         && buffer.pos == old(buffer.pos) + |RecordFrame(formats, RecordOf(message))|)
    ensures r.Fail? ==> (r.error == IntegerAboveBound(UINT32_RANGE, |formats.envelope.serialize(Seal(formats, RecordOf(message)))|)
                         && buffer.data == old(buffer.data) && buffer.pos == old(buffer.pos))
  {
    r := WriteRecord(buffer, formats, RecordOf(message));
  }

  /** The loop of `read` that yields one send per record read, in order. */
  method YieldSends(topicName: string, records: seq<Record>) returns (sends: seq<ProducerSend>)
    ensures sends == SendsOf(topicName, records)
  {
    sends := [];
    for i := 0 to |records|
      invariant sends == SendsOf(topicName, records[..i])
    {
      assert records[..i + 1] == records[..i] + [records[i]];
      SendsOfSnoc(topicName, records[..i], records[i]);
      sends := sends + [SendOf(topicName, records[i])];
    }
    assert records[..|records|] == records;
  }

  /** `SchemaBackupV3Reader.read`: the metadata, its two checks, then one send per
      record read, in order; a failure ends the sends already yielded. */
  method ReadBackup(buffer: Buffer, formats: Formats, topicName: string)
    returns (sends: seq<ProducerSend>, failure: Option<BackendError>)
    requires buffer.Valid()
    modifies buffer
    ensures buffer.Valid() && buffer.data == old(buffer.data)
    ensures Restored(sends, failure, buffer.pos) == Restore(formats, topicName, old(buffer.data), old(buffer.pos))
  {
    ghost var data, start := buffer.data, buffer.pos;
    ghost var parsed := ParseSized(formats.metadata, data, start);
    assert Restore(formats, topicName, data, start) == RestoreFrom(formats, topicName, data, parsed);
    var metadata := ReadMetadata(buffer, formats);
    ghost var metadataEnd := buffer.pos;
    if metadata.Failure? {
      return [], Some(Read(metadata.error));
    }
    if metadata.value.partitionCount != 1 {
      return [], Some(MultiPartitionRestore(metadata.value.partitionCount));
    }
    if metadata.value.topicName != topicName {
      return [], Some(DifferingTopicName(topicName, metadata.value.topicName));
    }
    var records, readFailure := ReadRecords(buffer, formats);
    assert Drained(records, readFailure, buffer.pos) == ParseRecords(formats, data, metadataEnd);
    sends := YieldSends(topicName, records);
    failure := if readFailure.Some? then Some(Read(readFailure.value)) else None;
  }

  /** store_metadata for a single-partition topic, then store_record for each
      message in order, into an empty buffer: the buffer then holds the backup
      file of the stored Metadata and the messages' Records. */
  method StoreBackup(
    formats: Formats, topicName: string, topicId: Option<Uuid>, estimatedRecordCount: int,
    toolVersion: string, createdAt: Timestamp, messages: seq<ConsumerRecord>)
    returns (buffer: Buffer)
    requires Framable(formats, StoredMetadata(topicName, topicId, estimatedRecordCount, 1, toolVersion, createdAt),
                      RecordsOf(messages))
    ensures fresh(buffer) && buffer.Valid() && buffer.pos == |buffer.data|
    ensures buffer.data == BackupImage(formats, StoredMetadata(topicName, topicId, estimatedRecordCount, 1, toolVersion, createdAt),
                                       RecordsOf(messages))
  {
    ghost var metadata := StoredMetadata(topicName, topicId, estimatedRecordCount, 1, toolVersion, createdAt);
    ghost var records := RecordsOf(messages);
    buffer := new Buffer([]);
    var stored := StoreMetadata(buffer, formats, topicName, topicId, estimatedRecordCount, 1, toolVersion, createdAt);
    OverwrittenAtEnd([], Frame(formats.metadata.serialize(metadata)));
    var i := 0;
    while i < |messages|
      invariant 0 <= i <= |messages|
      invariant buffer.Valid() && buffer.pos == |buffer.data|
      invariant buffer.data == BackupImage(formats, metadata, records[..i])
    {
      ghost var before := buffer.data;
      var written := StoreRecord(buffer, formats, messages[i]);
      assert records[i] == RecordOf(messages[i]);
      OverwrittenAtEnd(before, RecordFrame(formats, records[i]));
      BackupImageStep(formats, metadata, records, i);
      i := i + 1;
    }
    assert records[..i] == records;
  }

  /** The stored backup, read back from its start by `read` for the same topic:
      every message comes back, in order, as a send with its key, value,
      headers, partition and timestamp, and the restore ends cleanly. */
  method StoreThenRead(
    formats: Formats, topicName: string, topicId: Option<Uuid>, estimatedRecordCount: int,
    toolVersion: string, createdAt: Timestamp, messages: seq<ConsumerRecord>)
    returns (sends: seq<ProducerSend>, failure: Option<BackendError>)
    requires Lawful(formats)
    requires Framable(formats, StoredMetadata(topicName, topicId, estimatedRecordCount, 1, toolVersion, createdAt),
                      RecordsOf(messages))
    ensures failure == None && |sends| == |messages|
    ensures forall i :: 0 <= i < |messages| ==>
              sends[i] == ProducerSend(topicName, messages[i].value, messages[i].key, messages[i].headers,
                                       messages[i].partition, messages[i].timestamp)
  {
    var buffer := StoreBackup(formats, topicName, topicId, estimatedRecordCount, toolVersion, createdAt, messages);
    BackupThenRestore(formats, topicName, topicId, estimatedRecordCount, toolVersion, createdAt, messages);
    buffer.Seek(0);
    sends, failure := ReadBackup(buffer, formats, topicName);
  }
}
