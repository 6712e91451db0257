/** The records of the v3 backup format (karapace/backup/v3/schema.py) and the two
    foreign capabilities the format is built on: the structured (Avro) encoder of
    each record type and the xxHash64 digest. Both capabilities are injected as
    values, so that every property proved about the format holds for any encoder
    that round-trips and for any 8-byte digest. */
module Schema {
  import opened Wrappers

  newtype byte = x: int | 0 <= x < 256

  type Bytes = seq<byte>

  /** What `xxh64(data).digest()` returns: always eight bytes. */
  type Digest = s: Bytes | |s| == 8 witness [0, 0, 0, 0, 0, 0, 0, 0]

  /** A 128-bit UUID. */
  type Uuid = n: nat | n < 0x1_0000_0000_0000_0000_0000_0000_0000_0000

  /** A UTC instant, as microseconds since the Unix epoch (a `datetime`). */
  datatype Timestamp = Timestamp(microseconds: int)

  /** The instant an Avro `timestamp-millis` field keeps: the microseconds
      below the millisecond are dropped. */
  function AtMillis(t: Timestamp): (r: Timestamp)
    ensures r.microseconds % 1000 == 0
    ensures t.microseconds - 1000 < r.microseconds <= t.microseconds
    ensures t.microseconds % 1000 == 0 ==> r == t
  {
    Timestamp(t.microseconds / 1000 * 1000)
  }

  /** The first frame of every backup file. */
  datatype Metadata = Metadata(
    version: int,
    toolName: string,
    toolVersion: string,
    createdAt: Timestamp,
    estimatedRecordCount: int,  // advisory only: reading never stops on a count
    topicName: string,
    topicId: Option<Uuid>,
    partitionCount: int)

  datatype Header = Header(key: Bytes, value: Bytes)

  /** One message of the backed-up partition. */
  datatype Record = Record(
    key: Option<Bytes>,
    value: Option<Bytes>,
    headers: seq<Header>,
    partition: int,
    offset: int,
    timestampMs: int)

  /** The framed form of a Record: its encoded bytes and the digest of those bytes. */
  datatype Envelope = Envelope(record: Bytes, checksum: Bytes)

  /** The structured encoder of one record type: `model.serialize()` and
      `type_.deserialize(data)`, the latter failing (None) on malformed bytes. */
  datatype Codec<!T> = Codec(serialize: T -> Bytes, deserialize: Bytes -> Option<T>)

  /** The Metadata that reads back from the encoding of `m`: the same fields,
      with `createdAt` at millisecond precision. */
  function MetadataAtMillis(m: Metadata): (r: Metadata)
    ensures r.version == m.version && r.toolName == m.toolName && r.toolVersion == m.toolVersion
    ensures r.createdAt == AtMillis(m.createdAt)
    ensures r.estimatedRecordCount == m.estimatedRecordCount && r.topicName == m.topicName
    ensures r.topicId == m.topicId && r.partitionCount == m.partitionCount
    ensures m.createdAt.microseconds % 1000 == 0 ==> r == m
  {
    m.(createdAt := AtMillis(m.createdAt))
  }

  /** The encoder reads back whatever it wrote. */
  ghost predicate RoundTrips<T(!new)>(codec: Codec<T>)
  {
    forall x: T :: codec.deserialize(codec.serialize(x)) == Some(x)
  }

  /** Everything the format delegates: one codec per framed record type and the digest. */
  datatype Formats = Formats(
    metadata: Codec<Metadata>,
    envelope: Codec<Envelope>,
    record: Codec<Record>,
    xxh64: Bytes -> Digest)

  /** The metadata encoder reads back what it wrote, up to the millisecond of
      `createdAt`. */
  ghost predicate MetadataRoundTrips(codec: Codec<Metadata>)
  {
    forall m: Metadata :: codec.deserialize(codec.serialize(m)) == Some(MetadataAtMillis(m))
  }

  ghost predicate Lawful(formats: Formats)
  {
    && MetadataRoundTrips(formats.metadata)
    && RoundTrips(formats.envelope)
    && RoundTrips(formats.record)
  }
}
