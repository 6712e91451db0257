/** The `IO[bytes]` stream every reader and writer works on, with the semantics
    of an in-memory byte buffer: `read(n)` returns at most n bytes and advances
    by what it returned, `write(b)` overwrites from the position on (extending
    the buffer where it runs past the end) and advances by |b|. */
module Streams {
  import opened Schema

  function Min(a: int, b: int): int { if a < b then a else b }

  function Max(a: int, b: int): int { if a < b then b else a }

  /** What `read(n)` returns at position `pos`. */
  function Slice(data: Bytes, pos: nat, n: nat): (s: Bytes)
    requires pos <= |data|
    ensures |s| == Min(n, |data| - pos)
    ensures s == data[pos..pos + |s|]
  {
    data[pos..Min(pos + n, |data|)]
  }

  /** The contents after `write(b)` at position `pos`. */
  function Overwritten(data: Bytes, pos: nat, b: Bytes): (r: Bytes)
    requires pos <= |data|
    ensures |r| == Max(|data|, pos + |b|)
    ensures r[..pos] == data[..pos] && r[pos..pos + |b|] == b
    ensures pos + |b| < |data| ==> r[pos + |b|..] == data[pos + |b|..]
  {
    data[..pos] + b + (if pos + |b| < |data| then data[pos + |b|..] else [])
  }

  /** Writing at the end appends. */
  lemma OverwrittenAtEnd(data: Bytes, b: Bytes)
    ensures Overwritten(data, |data|, b) == data + b
  {
  }

  /** Two consecutive writes are one write of the concatenation. */
  lemma OverwrittenTwice(data: Bytes, pos: nat, a: Bytes, b: Bytes)
    requires pos <= |data|
    ensures Overwritten(Overwritten(data, pos, a), pos + |a|, b) == Overwritten(data, pos, a + b)
  {
  }

  class Buffer {
    var data: Bytes
    var pos: nat

    predicate Valid()
      reads this
    {
      pos <= |data|
    }

    constructor (contents: Bytes)
      ensures Valid() && data == contents && pos == 0
    {
      data := contents;
      pos := 0;
    }

    /** `tell()` */
    method Tell() returns (p: nat)
      ensures p == pos
    {
      p := pos;
    }

    /** `seek(p)`, to a position inside the buffer. */
    method Seek(p: nat)
      requires p <= |data|
      modifies this
      ensures Valid() && data == old(data) && pos == p
    {
      pos := p;
    }

    /** `read(n)` */
    method Read(n: nat) returns (s: Bytes)
      requires Valid()
      modifies this
      ensures Valid() && data == old(data)
      ensures s == Slice(data, old(pos), n) && pos == old(pos) + |s|
    {
      s := Slice(data, pos, n);
      pos := pos + |s|;
    }

    /** `write(b)` */
    method Write(b: Bytes)
      requires Valid()
      modifies this
      ensures Valid()
      ensures data == Overwritten(old(data), old(pos), b) && pos == old(pos) + |b|
    {
      data := Overwritten(data, pos, b);
      pos := pos + |b|;
    }
  }
}
