/** Python's `struct.pack` and `struct.unpack` for the big-endian unsigned
    formats the backup format uses: ">I" (4 bytes) and ">Q" (8 bytes). */
module Struct {
  import opened Wrappers
  import opened Schema

  function Pow256(n: nat): (r: nat)
    ensures r > 0
  {
    if n == 0 then 1 else 256 * Pow256(n - 1)
  }

  lemma Widths()
    ensures Pow256(4) == 0x1_0000_0000
    ensures Pow256(8) == 0x1_0000_0000_0000_0000
  {
  }

  /** The low `width` bytes of `value`, most significant first. */
  function BigEndian(value: nat, width: nat): (s: Bytes)
    ensures |s| == width
  {
    if width == 0 then [] else BigEndian(value / 256, width - 1) + [(value % 256) as byte]
  }

  /** The unsigned integer whose big-endian form is `s`. */
  function FromBigEndian(s: Bytes): (value: nat)
    ensures value < Pow256(|s|)
  {
    if s == [] then 0 else FromBigEndian(s[..|s| - 1]) * 256 + s[|s| - 1] as nat
  }

  lemma {:induction false} FromBigEndianOfBigEndian(value: nat, width: nat)
    requires value < Pow256(width)
    ensures FromBigEndian(BigEndian(value, width)) == value
  {
    if width > 0 {
      var s := BigEndian(value, width);
      assert s[..|s| - 1] == BigEndian(value / 256, width - 1);
      FromBigEndianOfBigEndian(value / 256, width - 1);
    }
  }

  lemma {:induction false} BigEndianOfFromBigEndian(s: Bytes)
    ensures BigEndian(FromBigEndian(s), |s|) == s
  {
    if s != [] {
      var init := s[..|s| - 1];
      BigEndianOfFromBigEndian(init);
      var value := FromBigEndian(s);
      assert value / 256 == FromBigEndian(init);
      assert (value % 256) as byte == s[|s| - 1];
      assert s == init + [s[|s| - 1]];
    }
  }

  /** `struct.pack` of a `width`-byte big-endian unsigned integer; None stands for
      the `struct.error` it raises on a value outside [0, 256^width). */
  function Pack(width: nat, value: int): (packed: Option<Bytes>)
    ensures packed.Some? <==> 0 <= value < Pow256(width)
    ensures packed.Some? ==> |packed.value| == width && FromBigEndian(packed.value) == value
  {
    if 0 <= value < Pow256(width) then
      FromBigEndianOfBigEndian(value, width);
      Some(BigEndian(value, width))
    else
      None
  }

  /** `struct.unpack` of a `width`-byte big-endian unsigned integer; None stands for
      the `struct.error` it raises on an input of any other length. Every byte
      pattern of the right length is a value, and packing it gives it back. */
  function Unpack(width: nat, s: Bytes): (value: Option<nat>)
    ensures value.Some? <==> |s| == width
    ensures value.Some? ==> value.value < Pow256(width) && Pack(width, value.value) == Some(s)
  {
    if |s| == width then
      BigEndianOfFromBigEndian(s);
      Some(FromBigEndian(s))
    else
      None
  }
}
