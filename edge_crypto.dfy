/**
 * The comparison and hex encoding of the session-token code: `safeCompare` and
 * `bufferToHex` in src/lib/auth/edge-crypto.ts. A JavaScript string is a sequence of
 * UTF-16 code units; `charCodeAt` gives one unit, so strings are `seq<bv16>` here.
 */
module EdgeCrypto {

  type CodeUnits = seq<bv16>

  /** The accumulator after the first `n` positions: the OR of the XORs of the units. */
  function Accumulated(a: CodeUnits, b: CodeUnits, n: nat): bv16
    requires n <= |a| && n <= |b|
  {
    if n == 0 then 0 else Accumulated(a, b, n - 1) | (a[n - 1] ^ b[n - 1])
  }

  lemma OrZero(x: bv16, y: bv16)
    ensures x | y == 0 <==> x == 0 && y == 0
  {
  }

  lemma XorZero(x: bv16, y: bv16)
    ensures x ^ y == 0 <==> x == y
  {
  }

  /** Two prefixes one longer agree iff the shorter ones do and so do the next units. */
  lemma PrefixSnoc(a: CodeUnits, b: CodeUnits, n: nat)
    requires 0 < n <= |a| && n <= |b|
    ensures a[..n] == b[..n] <==> a[..n - 1] == b[..n - 1] && a[n - 1] == b[n - 1]
  {
    assert a[..n] == a[..n - 1] + [a[n - 1]] && b[..n] == b[..n - 1] + [b[n - 1]];
    if a[..n] == b[..n] {
      assert a[..n - 1] == a[..n][..n - 1];
      assert b[..n - 1] == b[..n][..n - 1];
      assert a[n - 1] == a[..n][n - 1];
    }
  }

  /** The accumulator is zero exactly when the first `n` units agree. */
  lemma {:induction false} AccumulatedZero(a: CodeUnits, b: CodeUnits, n: nat)
    requires n <= |a| && n <= |b|
    ensures Accumulated(a, b, n) == 0 <==> a[..n] == b[..n]
  {
    if n > 0 {
      AccumulatedZero(a, b, n - 1);
      OrZero(Accumulated(a, b, n - 1), a[n - 1] ^ b[n - 1]);
      XorZero(a[n - 1], b[n - 1]);
      PrefixSnoc(a, b, n);
    }
  }

  /** Swapping the arguments does not change the accumulator. */
  lemma {:induction false} AccumulatedSymmetric(a: CodeUnits, b: CodeUnits, n: nat)
    requires n <= |a| && n <= |b|
    ensures Accumulated(a, b, n) == Accumulated(b, a, n)
  {
    if n > 0 {
      AccumulatedSymmetric(a, b, n - 1);
      assert a[n - 1] ^ b[n - 1] == b[n - 1] ^ a[n - 1];
    }
  }

  /**
   * `safeCompare`: false at once for different lengths; otherwise every position is
   * visited, without early exit, and the strings are equal iff the accumulator is zero.
   * `steps` counts the loop's iterations.
   */
  method SafeCompare(a: CodeUnits, b: CodeUnits) returns (equal: bool, steps: nat)
    ensures equal <==> a == b
    ensures |a| != |b| ==> steps == 0
    ensures |a| == |b| ==> steps == |a| && (equal <==> Accumulated(a, b, |a|) == 0)
  {
    if |a| != |b| {
      return false, 0;
    }
    var result: bv16 := 0;
    var i := 0;
    while i < |a|
      invariant 0 <= i <= |a|
      invariant result == Accumulated(a, b, i)
    {
      result := result | (a[i] ^ b[i]);
      i := i + 1;
    }
    AccumulatedZero(a, b, |a|);
    assert a[..|a|] == a && b[..|b|] == b;
    return result == 0, i;
  }

  /** The comparison gives the same answer with its arguments swapped. */
  lemma CompareSymmetric(a: CodeUnits, b: CodeUnits)
    requires |a| == |b|
    ensures Accumulated(a, b, |a|) == 0 <==> Accumulated(b, a, |b|) == 0
    ensures Accumulated(a, b, |a|) == 0 <==> a == b
  {
    AccumulatedSymmetric(a, b, |a|);
    AccumulatedZero(a, b, |a|);
    assert a[..|a|] == a && b[..|b|] == b;
  }

  /** An element of a `Uint8Array`. */
  newtype Byte = x: int | 0 <= x < 256

  /** A lowercase hex digit. */
  predicate IsHexDigit(c: char) {
    '0' <= c <= '9' || 'a' <= c <= 'f'
  }

  /** The digit of `d` in "0123456789abcdef". */
  function HexDigit(d: int): (c: char)
    requires 0 <= d < 16
    ensures IsHexDigit(c)
  {
    if d < 10 then ('0' as int + d) as char else ('a' as int + d - 10) as char
  }

  /** `b.toString(16)`: lowercase hexadecimal without leading zeros. */
  function ToHexString(b: Byte): string {
    if b < 16 then [HexDigit(b as int)] else [HexDigit(b as int / 16), HexDigit(b as int % 16)]
  }

  /** `s.padStart(2, "0")`. */
  function PadStart2(s: string): string {
    if |s| < 2 then seq(2 - |s|, _ => '0') + s else s
  }

  /** One byte as two lowercase hex digits, high nibble first. */
  function ByteHex(b: Byte): (h: string)
    ensures h == [HexDigit(b as int / 16), HexDigit(b as int % 16)]
  {
    PadStart2(ToHexString(b))
  }

  /** `bufferToHex`: the bytes' hex pairs, joined. */
  function BufferToHex(buf: seq<Byte>): (h: string)
    ensures |h| == 2 * |buf|
    ensures forall i :: 0 <= i < |h| ==> IsHexDigit(h[i])
  {
    if buf == [] then [] else BufferToHex(buf[..|buf| - 1]) + ByteHex(buf[|buf| - 1])
  }

  /** The value of a lowercase hex digit. */
  function DigitValue(c: char): (v: int)
    requires IsHexDigit(c)
    ensures 0 <= v < 16 && HexDigit(v) == c
  {
    if '0' <= c <= '9' then c as int - '0' as int else c as int - 'a' as int + 10
  }

  lemma DigitValueOf(d: int)
    requires 0 <= d < 16
    ensures DigitValue(HexDigit(d)) == d
  {
  }

  /** Reading the hex text back, two digits per byte. */
  function HexToBuffer(h: string): (buf: seq<Byte>)
    requires |h| % 2 == 0 && forall i :: 0 <= i < |h| ==> IsHexDigit(h[i])
    ensures |buf| * 2 == |h|
  {
    if h == [] then []
    else
      var n := |h| - 2;
      HexToBuffer(h[..n]) + [(DigitValue(h[n]) * 16 + DigitValue(h[n + 1])) as Byte]
  }

  /** The last two digits of the text decode to the last byte. */
  lemma HexToBufferSnoc(h: string, b: Byte)
    requires |h| % 2 == 0 && forall i :: 0 <= i < |h| ==> IsHexDigit(h[i])
    ensures HexToBuffer(h + ByteHex(b)) == HexToBuffer(h) + [b]
  {
    var hi, lo := b as int / 16, b as int % 16;
    assert hi * 16 + lo == b as int;
    var h' := h + ByteHex(b);
    assert h'[..|h|] == h;
    assert h'[|h|] == HexDigit(hi) && h'[|h| + 1] == HexDigit(lo);
    DigitValueOf(hi);
    DigitValueOf(lo);
  }

  /** Decoding the output gives back the input: no information is lost. */
  lemma {:induction false} HexRoundTrip(buf: seq<Byte>)
    ensures HexToBuffer(BufferToHex(buf)) == buf
  {
    if buf != [] {
      var n := |buf| - 1;
      var init, b := buf[..n], buf[n];
      assert buf == init + [b];
      HexRoundTrip(init);
      HexToBufferSnoc(BufferToHex(init), b);
    }
  }

  /** Different buffers give different hex text. */
  lemma HexInjective(a: seq<Byte>, b: seq<Byte>)
    requires BufferToHex(a) == BufferToHex(b)
    ensures a == b
  {
    HexRoundTrip(a);
    HexRoundTrip(b);
  }

  /** Zero-padding and lowercase: bytes 0, 10 and 255 give "000aff". */
  lemma HexExample()
    ensures BufferToHex([0, 10, 255]) == "000aff"
  {
    assert [0, 10, 255][..2] == [0 as Byte, 10];
    assert [0 as Byte, 10][..1] == [0];
  }
}
