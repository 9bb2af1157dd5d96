/** Bytes, 32-bit words and their little-endian memory image. */
module Bytes {

  type byte = n: nat | n < 256

  type uint32 = n: nat | n < 0x1_0000_0000

  type pos = n: nat | n > 0 witness 1

  /** std::string as the bytes it holds. */
  type Str = seq<byte>

  datatype Option<+T> = None | Some(value: T)

  const TWO_TO_32: nat := 0x1_0000_0000
  const INT_MAX: nat := 0x7FFF_FFFF

  function Min(a: nat, b: nat): (m: nat)
    ensures m <= a && m <= b
  {
    if a <= b then a else b
  }

  /** The four bytes of a word as they lie in memory. */
  function Le32(n: uint32): (b: seq<byte>)
    ensures |b| == 4
  {
    [n % 256, n / 256 % 256, n / 65536 % 256, n / 16777216]
  }

  /** The word that four bytes of memory hold. */
  function FromLe32(b: seq<byte>): (n: uint32)
    requires |b| == 4
  {
    (b[0] as int) + 256 * (b[1] as int) + 65536 * (b[2] as int) + 16777216 * (b[3] as int)
  }

  lemma DecodeEncode32(n: uint32)
    ensures FromLe32(Le32(n)) == n
  {
    var q1, q2 := n / 256, n / 65536;
    assert q2 == q1 / 256;
    assert n == 256 * q1 + n % 256;
    assert q1 == 256 * q2 + q1 % 256;
    assert q2 == 256 * (n / 16777216) + q2 % 256;
  }

  lemma SplitByte(n: nat, q: nat, r: byte)
    requires n == 256 * q + r
    ensures n / 256 == q && n % 256 == r
  {
  }

  lemma NestedQuotients(n: nat)
    ensures n / 65536 == n / 256 / 256 && n / 16777216 == n / 256 / 256 / 256
  {
  }

  lemma EncodeDecode32(b: seq<byte>)
    requires |b| == 4
    ensures Le32(FromLe32(b)) == b
  {
    var n := FromLe32(b);
    var high := (b[2] as int) + 256 * (b[3] as int);
    SplitByte(n, (b[1] as int) + 256 * high, b[0]);
    SplitByte(n / 256, high, b[1]);
    SplitByte(high, b[3], b[2]);
    NestedQuotients(n);
    hide FromLe32;
  }

  lemma Le32Injective(m: uint32, n: uint32)
    requires Le32(m) == Le32(n)
    ensures m == n
  {
    DecodeEncode32(m);
    DecodeEncode32(n);
  }

  function Zeros(k: nat): (z: seq<byte>)
    ensures |z| == k && forall i | 0 <= i < k :: z[i] == 0
  {
    seq(k, _ => 0)
  }

  /** memcpy: `chunk` overwrites the bytes of `buf` from `off` on. */
  function Splice<T>(buf: seq<T>, off: nat, chunk: seq<T>): (r: seq<T>)
    requires off + |chunk| <= |buf|
    ensures |r| == |buf|
    ensures r[..off] == buf[..off] && r[off..off + |chunk|] == chunk
    ensures r[off + |chunk|..] == buf[off + |chunk|..]
  {
    buf[..off] + chunk + buf[off + |chunk|..]
  }

  lemma ConcatAssociative<T>(a: seq<T>, b: seq<T>, c: seq<T>)
    ensures (a + b) + c == a + (b + c)
  {
  }

  function Pow256(k: nat): (p: nat)
    ensures p >= 1
  {
    if k == 0 then 1 else 256 * Pow256(k - 1)
  }

  lemma Residues(n: nat)
    ensures n % 65536 == n % 256 + 256 * (n / 256 % 256)
    ensures n % 16777216 == n % 256 + 256 * (n / 256 % 256) + 65536 * (n / 65536 % 256)
  {
    NestedQuotients(n);
    var q := n / 256;
    assert q == 256 * (q / 256) + q % 256 && n == 256 * q + n % 256;
    assert n == 65536 * (q / 256) + (256 * (q % 256) + n % 256);
    assert n == 16777216 * (n / 16777216) + (65536 * (n / 65536 % 256) + 256 * (q % 256) + n % 256);
  }

  /** The first k bytes of a size field, with the rest still zero, read as the residue mod 256^k. */
  lemma PartialSize(n: uint32, k: nat)
    requires k <= 4
    ensures FromLe32(Le32(n)[..k] + Zeros(4 - k)) == n % Pow256(k)
  {
    DecodeEncode32(n);
    Residues(n);
    assert Pow256(1) == 256 && Pow256(2) == 65536 && Pow256(3) == 16777216;
    assert Pow256(4) == TWO_TO_32 by { assert Pow256(4) == 256 * Pow256(3); }
    if k == 4 {
      assert Le32(n)[..k] + Zeros(4 - k) == Le32(n);
    }
  }
}
