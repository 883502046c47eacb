/** Byte-level building blocks shared by the three encoders: the byte type,
    Python's `struct.pack('<I')` / `struct.pack('<i')` / `'<b'` packings, the
    ASCII `str.encode()` of header literals, and the decimal text of
    `f"{n:6d}"`. Each packing comes with the decoder it is the inverse of. */
module Bytes {

  type byte = b: int | 0 <= b < 256

  const TwoTo32: int := 0x1_0000_0000
  const TwoTo31: int := 0x8000_0000

  function Pow256(n: nat): (r: nat)
    ensures r >= 1
  {
    if n == 0 then 1 else 256 * Pow256(n - 1)
  }

  /** The `n` low bytes of `v`, least significant first. */
  function LittleEndian(v: nat, n: nat): (r: seq<byte>)
    ensures |r| == n
  {
    if n == 0 then [] else [v % 256] + LittleEndian(v / 256, n - 1)
  }

  /** Reads bytes least significant first. */
  function FromLittleEndian(b: seq<byte>): nat
  {
    if b == [] then 0 else b[0] + 256 * FromLittleEndian(b[1..])
  }

  lemma {:induction false} LittleEndianRoundTrip(v: nat, n: nat)
    requires v < Pow256(n)
    ensures FromLittleEndian(LittleEndian(v, n)) == v
  {
    if n > 0 {
      LittleEndianRoundTrip(v / 256, n - 1);
      assert LittleEndian(v, n)[1..] == LittleEndian(v / 256, n - 1);
    }
  }

  /** `struct.pack('<I', v)`: four bytes, least significant first. */
  function PackU32(v: int): (r: seq<byte>)
    requires 0 <= v < TwoTo32
    ensures |r| == 4
  {
    LittleEndian(v, 4)
  }

  /** Reads a little-endian unsigned 32-bit value. */
  function UnpackU32(b: seq<byte>): int
    requires |b| == 4
  {
    FromLittleEndian(b)
  }

  lemma PackU32RoundTrip(v: int)
    requires 0 <= v < TwoTo32
    ensures UnpackU32(PackU32(v)) == v
  {
    assert Pow256(4) == TwoTo32;
    LittleEndianRoundTrip(v, 4);
  }

  /** Two's complement byte of a value in [-128, 127]: `struct.pack('<b', v)`,
      and also `v & 0xff` for such a value. */
  function SignedByte(v: int): (r: byte)
    requires -128 <= v < 128
    ensures v >= 0 ==> r == v
    ensures v < 0 ==> r == v + 256
  {
    v % 256
  }

  /** Reads a byte as a two's complement signed value. */
  function ToSigned(b: byte): int
  {
    if b < 128 then b else b - 256
  }

  lemma {:induction false} SignedByteRoundTrip(v: int)
    requires -128 <= v < 128
    ensures ToSigned(SignedByte(v)) == v
  {
  }

  /** `struct.pack('<i', v)`: the two's complement of `v` as four bytes. */
  function PackI32(v: int): (r: seq<byte>)
    requires -TwoTo31 <= v < TwoTo31
    ensures |r| == 4
  {
    PackU32(if v < 0 then v + TwoTo32 else v)
  }

  /** Reads a little-endian signed 32-bit value. */
  function UnpackI32(b: seq<byte>): int
    requires |b| == 4
  {
    var u := UnpackU32(b);
    if u < TwoTo31 then u else u - TwoTo32
  }

  lemma PackI32RoundTrip(v: int)
    requires -TwoTo31 <= v < TwoTo31
    ensures UnpackI32(PackI32(v)) == v
  {
    PackU32RoundTrip(if v < 0 then v + TwoTo32 else v);
  }

  /** A slice inside the first part of a concatenation. */
  lemma SliceOfConcat<T>(a: seq<T>, b: seq<T>, i: nat, j: nat)
    requires i <= j <= |a|
    ensures (a + b)[i..j] == a[i..j]
  {
  }

  /** A slice inside the second part of a concatenation. */
  lemma SliceOfSecond<T>(a: seq<T>, b: seq<T>, lo: nat, hi: nat, i: nat, j: nat)
    requires i <= j <= |b| && lo == |a| + i && hi == |a| + j
    ensures (a + b)[lo..hi] == b[i..j]
  {
  }

  /** What follows the first part of a concatenation. */
  /** `[f(x) for x in xs]`. */
  function Map<T, U>(f: T -> U, xs: seq<T>): (ys: seq<U>)
    ensures |ys| == |xs|
  {
    seq(|xs|, i requires 0 <= i < |xs| => f(xs[i]))
  }

  /** Mapping one more element adds its image at the end. */
  lemma MapSnoc<T, U>(f: T -> U, xs: seq<T>, i: nat)
    requires i < |xs|
    ensures Map(f, xs[..i + 1]) == Map(f, xs[..i]) + [f(xs[i])]
  {
    assert Map(f, xs[..i + 1])[..i] == Map(f, xs[..i]);
  }

  lemma MapPrefix<T, U>(f: T -> U, xs: seq<T>, n: nat)
    requires n <= |xs|
    ensures Map(f, xs[..n]) == Map(f, xs)[..n]
  {
  }

  /** Overwriting the middle of `a + mid + rest` with a part of the same length. */
  lemma Overwrite<T>(a: seq<T>, mid: seq<T>, mid2: seq<T>, rest: seq<T>, s: seq<T>, lo: nat, hi: nat)
    requires |mid| == |mid2| && s == a + mid + rest && lo == |a| && hi == |a| + |mid|
    ensures s[..lo] + mid2 + s[hi..] == a + mid2 + rest
  {
    assert s[..lo] == a;
    assert s[hi..] == rest;
  }

  lemma DropOfSecond<T>(a: seq<T>, b: seq<T>, lo: nat, i: nat)
    requires i <= |b| && lo == |a| + i
    ensures (a + b)[lo..] == b[i..]
  {
  }

  lemma TailOfConcat<T>(a: seq<T>, b: seq<T>)
    ensures (a + b)[|a|..] == b
  {
  }

  /** `bytes(n)`, `b'\x00' * n`: n zero bytes. */
  function Zeros(n: nat): (r: seq<byte>)
    ensures |r| == n
  {
    seq(n, i => 0)
  }

  predicate IsAscii(s: string)
  {
    forall i | 0 <= i < |s| :: s[i] < 128 as char
  }

  /** `s.encode()` of an ASCII string: one byte per character, its code. */
  function Ascii(s: string): (r: seq<byte>)
    requires IsAscii(s)
    ensures |r| == |s|
    ensures forall i | 0 <= i < |s| :: r[i] == s[i] as int
  {
    seq(|s|, i requires 0 <= i < |s| => s[i] as int)
  }

  lemma AsciiAppend(s: string, t: string)
    requires IsAscii(s) && IsAscii(t)
    ensures IsAscii(s + t) && Ascii(s + t) == Ascii(s) + Ascii(t)
  {
  }

  function DigitChar(d: int): (c: char)
    requires 0 <= d < 10
  {
    ['0', '1', '2', '3', '4', '5', '6', '7', '8', '9'][d]
  }

  predicate IsDigit(c: char)
  {
    '0' <= c <= '9'
  }

  /** `str(n)` for a non-negative integer: its decimal digits, no leading zero. */
  function Decimal(n: nat): (s: string)
    ensures 1 <= |s|
    ensures forall i | 0 <= i < |s| :: IsDigit(s[i])
    ensures |s| > 1 ==> s[0] != '0'
    decreases n
  {
    if n < 10 then [DigitChar(n)] else Decimal(n / 10) + [DigitChar(n % 10)]
  }

  /** Reads a string of decimal digits back as a number. */
  function ParseDecimal(s: string): nat
    requires forall i | 0 <= i < |s| :: IsDigit(s[i])
  {
    if s == [] then 0
    else
      assert IsDigit(s[|s| - 1]);
      10 * ParseDecimal(s[..|s| - 1]) + (s[|s| - 1] as int - '0' as int)
  }

  lemma {:induction false} DecimalRoundTrip(n: nat)
    ensures ParseDecimal(Decimal(n)) == n
    decreases n
  {
    var s := Decimal(n);
    if n < 10 {
      assert s[..0] == [];
    } else {
      DecimalRoundTrip(n / 10);
      assert s[..|s| - 1] == Decimal(n / 10);
    }
  }

  function Pow10(k: nat): (r: nat)
    ensures r >= 1
  {
    if k == 0 then 1 else 10 * Pow10(k - 1)
  }

  /** `str(n)` has at most `k` digits exactly when n < 10^k. */
  lemma {:induction false} DecimalLength(n: nat, k: nat)
    requires k >= 1
    ensures |Decimal(n)| <= k <==> n < Pow10(k)
    decreases n
  {
    if n >= 10 {
      if k == 1 {
        assert |Decimal(n)| == |Decimal(n / 10)| + 1;
        DecimalLength(n / 10, 1);
      } else {
        DecimalLength(n / 10, k - 1);
      }
    } else {
      assert Pow10(k) >= 10 by { Pow10AtLeastTen(k); }
    }
  }

  lemma {:induction false} Pow10AtLeastTen(k: nat)
    requires k >= 1
    ensures Pow10(k) >= 10
  {
    if k > 1 {
      Pow10AtLeastTen(k - 1);
    }
  }

  function Spaces(k: nat): (s: string)
    ensures |s| == k && forall i | 0 <= i < k :: s[i] == ' '
  {
    seq(k, i => ' ')
  }

  /** `f"{n:6d}"` and its kin: `str(n)` right-justified with spaces to `width`. */
  function RightJustify(s: string, width: nat): (r: string)
    ensures |r| == if |s| < width then width else |s|
    ensures r[|r| - |s|..] == s
    ensures forall i | 0 <= i < |r| - |s| :: r[i] == ' '
  {
    if |s| < width then Spaces(width - |s|) + s else s
  }

  lemma DecimalIsAscii(n: nat)
    ensures IsAscii(Decimal(n))
  {
    var s := Decimal(n);
    forall i | 0 <= i < |s| ensures s[i] < 128 as char {
      assert IsDigit(s[i]);
    }
  }
}
