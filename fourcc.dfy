/** The `FOURCC` and `FOURCC_STR` macros of util/util.h: a pixel format tag
    packs four characters into a `uint32_t`, first character lowest. */
module Fourcc {
  import opened Common

  /** `(uint8_t)(x)`: the low byte of x.  Dafny's `%` is Euclidean, which is
      also what C's conversion of a negative `char` to `uint8_t` yields. */
  function Low8(x: int): (r: nat)
    ensures r < 256
  {
    x % 256
  }

  /** Byte k (0 = least significant) of a 32-bit value. */
  function ByteOf(v: u32, k: nat): (r: nat)
    requires k < 4
    ensures r < 256
  {
    if k == 0 then v % 0x100 else ByteOf(v / 0x100, k - 1)
  }

  /** A byte below a multiple of 256: division and remainder split them. */
  lemma SplitByte(a: nat, x: nat)
    requires a < 256
    ensures (a + 0x100 * x) % 0x100 == a && (a + 0x100 * x) / 0x100 == x
  {
  }

  /** Four bytes side by side.  The macro combines the shifted bytes with
      `|`; the bytes occupy disjoint bit ranges, so that is this sum. */
  function Pack(a: nat, b: nat, c: nat, d: nat): (r: u32)
    requires a < 256 && b < 256 && c < 256 && d < 256
    ensures ByteOf(r, 0) == a && ByteOf(r, 1) == b
    ensures ByteOf(r, 2) == c && ByteOf(r, 3) == d
  {
    var cd := c + 0x100 * d;
    var bcd := b + 0x100 * cd;
    SplitByte(a, bcd);
    SplitByte(b, cd);
    SplitByte(c, d);
    var r := a + 0x100 * bcd;
    assert ByteOf(r, 3) == ByteOf(bcd, 2) == ByteOf(cd, 1) == ByteOf(d, 0);
    assert ByteOf(r, 2) == ByteOf(bcd, 1) == ByteOf(cd, 0);
    r
  }

  /** `FOURCC(a, b, c, d)`: each argument truncated to 8 bits and placed in
      its own byte, a lowest and d highest. */
  function FourccOf(a: int, b: int, c: int, d: int): (r: u32)
    ensures ByteOf(r, 0) == a % 256 && ByteOf(r, 1) == b % 256
    ensures ByteOf(r, 2) == c % 256 && ByteOf(r, 3) == d % 256
  {
    Pack(Low8(a), Low8(b), Low8(c), Low8(d))
  }

  /** Every 32-bit value is the tag of its own four bytes, so the byte
      extraction above inverts `FOURCC`. */
  lemma PackOfBytes(v: u32)
    ensures Pack(ByteOf(v, 0), ByteOf(v, 1), ByteOf(v, 2), ByteOf(v, 3)) == v
  {
  }

  /** Two tags are equal exactly when their arguments agree modulo 256: on
      bytes, `FOURCC` is injective. */
  lemma FourccInjective(a: int, b: int, c: int, d: int, a': int, b': int, c': int, d': int)
    ensures FourccOf(a, b, c, d) == FourccOf(a', b', c', d') <==>
      a % 256 == a' % 256 && b % 256 == b' % 256 && c % 256 == c' % 256 && d % 256 == d' % 256
  {
  }

  /** `FOURCC_STR(str)`: the tag of the first four characters. */
  function FourccStr(s: string): (r: u32)
    requires |s| >= 4
    ensures forall k :: 0 <= k < 4 ==> ByteOf(r, k) == (s[k] as int) % 256
  {
    FourccOf(s[0] as int, s[1] as int, s[2] as int, s[3] as int)
  }

  // The formats the backends know, as the values FOURCC gives them.
  const AR24: u32 := 0x3432_5241
  const UYVY: u32 := 0x5956_5955
  const YUYV: u32 := 0x5659_5559
  const NV12: u32 := 0x3231_564E
  const I420: u32 := 0x3032_3449

  /** The constants are the tags of their names. */
  lemma KnownFormatsPacked()
    ensures AR24 == FourccOf('A' as int, 'R' as int, '2' as int, '4' as int)
    ensures UYVY == FourccOf('U' as int, 'Y' as int, 'V' as int, 'Y' as int)
    ensures YUYV == FourccOf('Y' as int, 'U' as int, 'Y' as int, 'V' as int)
    ensures NV12 == FourccOf('N' as int, 'V' as int, '1' as int, '2' as int)
    ensures I420 == FourccOf('I' as int, '4' as int, '2' as int, '0' as int)
  {
  }

  /** `FOURCC_STR("NV12")`, as the decoder test writes it, is NV12. */
  lemma Nv12FromString()
    ensures FourccStr("NV12") == NV12
  {
  }
}
