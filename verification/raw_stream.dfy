/**
  Fixed-width unsigned integers as the MTProto raw stream reads and writes
  them: little-endian, 4 bytes for a 32-bit value and 8 bytes for a 64-bit
  value. The stream class itself (CRawStream) is not part of this model; a
  read that finds too few bytes left reports `None`.
 */
module RawStream {
  import opened Wrappers

  type byte = x: int | 0 <= x < 0x100
  type u32 = x: int | 0 <= x < 0x1_0000_0000
  type u64 = x: int | 0 <= x < 0x1_0000_0000_0000_0000
  type Bytes = seq<byte>

  function Pow256(n: nat): (r: nat)
    ensures r > 0
  {
    if n == 0 then 1 else 256 * Pow256(n - 1)
  }

  lemma Pow256Widths()
    ensures Pow256(4) == 0x1_0000_0000
    ensures Pow256(8) == 0x1_0000_0000_0000_0000
  {
    assert Pow256(2) == 0x1_0000;
    assert Pow256(4) == 0x1_0000_0000;
  }

  /** The value of a little-endian byte string. */
  function DecodeLE(s: Bytes): (r: nat)
    ensures r < Pow256(|s|)
  {
    if s == [] then 0
    else
      var rest := DecodeLE(s[1..]);
      assert s[0] + 256 * rest <= 255 + 256 * (Pow256(|s| - 1) - 1);
      s[0] + 256 * rest
  }

  /** The n-byte little-endian representation of x. */
  function EncodeLE(x: nat, n: nat): (r: Bytes)
    requires x < Pow256(n)
    ensures |r| == n
    ensures DecodeLE(r) == x
  {
    if n == 0 then []
    else
      assert x / 256 < Pow256(n - 1);
      var r := [x % 256] + EncodeLE(x / 256, n - 1);
      assert r[1..] == EncodeLE(x / 256, n - 1);
      r
  }

  /** Decoding loses nothing: re-encoding a decoded string at its own width gives it back. */
  lemma {:induction false} EncodeDecodeLE(s: Bytes)
    ensures EncodeLE(DecodeLE(s), |s|) == s
  {
    if s != [] {
      var d := DecodeLE(s[1..]);
      EncodeDecodeLE(s[1..]);
      assert (s[0] + 256 * d) % 256 == s[0];
      assert (s[0] + 256 * d) / 256 == d;
      assert s == [s[0]] + s[1..];
    }
  }

  function EncodeU32(x: u32): (r: Bytes)
    ensures |r| == 4
    ensures DecodeLE(r) == x
  {
    Pow256Widths();
    EncodeLE(x, 4)
  }

  function EncodeU64(x: u64): (r: Bytes)
    ensures |r| == 8
    ensures DecodeLE(r) == x
  {
    Pow256Widths();
    EncodeLE(x, 8)
  }

  /** `stream >> x` for a 32-bit value: the value and the unread rest. */
  function ReadU32(s: Bytes): (r: Option<(u32, Bytes)>)
    ensures r.Some? <==> |s| >= 4
    ensures r.Some? ==> EncodeU32(r.value.0) == s[..4] && r.value.1 == s[4..]
  {
    if |s| < 4 then None
    else
      Pow256Widths();
      var x := DecodeLE(s[..4]);
      EncodeDecodeLE(s[..4]);
      Some((x, s[4..]))
  }

  /** `stream >> x` for a 64-bit value: the value and the unread rest. */
  function ReadU64(s: Bytes): (r: Option<(u64, Bytes)>)
    ensures r.Some? <==> |s| >= 8
    ensures r.Some? ==> EncodeU64(r.value.0) == s[..8] && r.value.1 == s[8..]
  {
    if |s| < 8 then None
    else
      Pow256Widths();
      var x := DecodeLE(s[..8]);
      EncodeDecodeLE(s[..8]);
      Some((x, s[8..]))
  }

  /** Reading back what was written yields the value and leaves what follows. */
  lemma ReadU32Written(x: u32, rest: Bytes)
    ensures ReadU32(EncodeU32(x) + rest) == Some((x, rest))
  {
    var s := EncodeU32(x) + rest;
    assert s[..4] == EncodeU32(x);
    var y := ReadU32(s).value.0;
    assert DecodeLE(EncodeU32(y)) == y;
  }

  lemma ReadU64Written(x: u64, rest: Bytes)
    ensures ReadU64(EncodeU64(x) + rest) == Some((x, rest))
  {
    var s := EncodeU64(x) + rest;
    assert s[..8] == EncodeU64(x);
    var y := ReadU64(s).value.0;
    assert DecodeLE(EncodeU64(y)) == y;
  }
}
