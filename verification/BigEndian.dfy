/** Unsigned integers as big-endian bytes, as `to_be_bytes` and `from_be_bytes` convert them. */
module BigEndian {
  import opened Common

  function Pow256(k: nat): (p: nat)
    ensures p >= 1
  {
    if k == 0 then 1 else 256 * Pow256(k - 1)
  }

  function ToBytes(n: nat, k: nat): (bytes: seq<byte>)
    ensures |bytes| == k
  {
    if k == 0 then [] else ToBytes(n / 256, k - 1) + [n % 256]
  }

  function FromBytes(bytes: seq<byte>): (n: nat)
    ensures n < Pow256(|bytes|)
  {
    if bytes == [] then 0 else FromBytes(bytes[..|bytes| - 1]) * 256 + bytes[|bytes| - 1]
  }

  lemma {:induction false} FromToBytes(n: nat, k: nat)
    requires n < Pow256(k)
    ensures FromBytes(ToBytes(n, k)) == n
  {
    if k > 0 {
      FromToBytes(n / 256, k - 1);
      var bytes := ToBytes(n, k);
      assert bytes[..|bytes| - 1] == ToBytes(n / 256, k - 1);
    }
  }

  lemma {:induction false} ToFromBytes(bytes: seq<byte>)
    ensures ToBytes(FromBytes(bytes), |bytes|) == bytes
  {
    hide FromBytes;
    if bytes != [] {
      var init, last := bytes[..|bytes| - 1], bytes[|bytes| - 1];
      ToFromBytes(init);
      FromBytesLast(bytes);
      assert FromBytes(bytes) / 256 == FromBytes(init) && FromBytes(bytes) % 256 == last;
    }
  }

  lemma FromBytesLast(bytes: seq<byte>)
    requires bytes != []
    ensures FromBytes(bytes) == FromBytes(bytes[..|bytes| - 1]) * 256 + bytes[|bytes| - 1]
  {
  }

  lemma Widths()
    ensures Pow256(4) == U32_SPAN && Pow256(8) == U64_MAX + 1
  {
    assert Pow256(1) == 256 && Pow256(2) == 0x1_0000 && Pow256(3) == 0x100_0000 && Pow256(4) == U32_SPAN;
    assert Pow256(5) == 256 * U32_SPAN && Pow256(6) == 0x1_0000 * U32_SPAN && Pow256(7) == 0x100_0000 * U32_SPAN;
  }

  /** The first byte counts for the most. */
  lemma {:induction false} FirstByteCounts(b: byte, rest: seq<byte>)
    ensures FromBytes([b] + rest) == b * Pow256(|rest|) + FromBytes(rest)
  {
    var all := [b] + rest;
    if rest == [] {
      assert all[..0] == [];
    } else {
      var n := |rest| - 1;
      FirstByteCounts(b, rest[..n]);
      assert all[..|all| - 1] == [b] + rest[..n];
      assert b * Pow256(|rest|) == 256 * (b * Pow256(n));
    }
  }

  /** The bytes of a number, most significant first. */
  lemma FourBytes(n: u32)
    ensures ToBytes(n, 4) == [n / 0x100_0000, n / 0x1_0000 % 256, n / 256 % 256, n % 256]
  {
    assert ToBytes(n / 0x100_0000, 0) == [];
    assert n / 256 / 256 == n / 0x1_0000 && n / 0x1_0000 / 256 == n / 0x100_0000;
    assert ToBytes(n / 0x100_0000, 1) == [n / 0x100_0000];
    assert ToBytes(n / 0x1_0000, 2) == [n / 0x100_0000, n / 0x1_0000 % 256];
    assert ToBytes(n / 256, 3) == [n / 0x100_0000, n / 0x1_0000 % 256, n / 256 % 256];
  }
}
