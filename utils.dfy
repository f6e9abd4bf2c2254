/**
 * The helpers of Utils.cs: big-endian number reading, the MDX block cipher,
 * Levenshtein distance, and the small text predicates used by the header
 * parser and the search layer.
 */
module Utils {
  import opened Common
  import Ripemd128

  // ---------------------------------------------------------------------
  // Big-endian numbers
  // ---------------------------------------------------------------------

  /** The width of a number field in the file. */
  datatype NumFmt = UInt8 | UInt16 | UInt32 | UInt64

  /** The big-endian value of a byte string. */
  function BeValue(s: seq<byte>): (v: nat)
    ensures v < Pow256(|s|)
    decreases |s|
  {
    if s == [] then 0 else BeValue(s[..|s| - 1]) * 256 + s[|s| - 1] as nat
  }

  /** The k-byte big-endian encoding of n (modulo 256^k). */
  function BeBytes(n: nat, k: nat): (r: seq<byte>)
    ensures |r| == k
  {
    if k == 0 then [] else BeBytes(n / 256, k - 1) + [(n % 256) as byte]
  }

  /** Encoding a number that fits and reading it back gives the number. */
  lemma {:induction false} BeValueOfBytes(n: nat, k: nat)
    requires n < Pow256(k)
    ensures BeValue(BeBytes(n, k)) == n
  {
    if k > 0 {
      var r := BeBytes(n, k);
      assert r[..k - 1] == BeBytes(n / 256, k - 1);
      DivBelow(n, Pow256(k - 1));
      BeValueOfBytes(n / 256, k - 1);
      ByteOfLow(n % 256);
      DivMod256(n);
    }
  }

  /** Reading bytes and encoding the value at the same width gives the bytes back. */
  lemma {:induction false} BytesOfBeValue(s: seq<byte>)
    ensures BeBytes(BeValue(s), |s|) == s
    decreases |s|
  {
    if s != [] {
      var init, last := s[..|s| - 1], s[|s| - 1];
      var v := BeValue(s);
      assert v / 256 == BeValue(init) && v % 256 == last as nat;
      BytesOfBeValue(init);
      assert s == init + [last];
    }
  }

  /** The top two bytes of an 8-byte value decide whether it reaches 2^53. */
  lemma BeValueSplit(s: seq<byte>)
    requires |s| == 8
    ensures BeValue(s) == (256 * s[0] as nat + s[1] as nat) * Pow256(6) + BeValue(s[2..])
  {
    BeValueAppend(s[..2], s[2..]);
    assert s[..2] + s[2..] == s;
    assert s[..2][..1] == [s[0]];
  }

  lemma {:induction false} BeValueAppend(x: seq<byte>, y: seq<byte>)
    ensures BeValue(x + y) == BeValue(x) * Pow256(|y|) + BeValue(y)
    decreases |y|
  {
    if y != [] {
      var y0 := y[..|y| - 1];
      assert (x + y)[..|x + y| - 1] == x + y0;
      assert (x + y)[|x + y| - 1] == y[|y| - 1];
      assert BeValue(y) == BeValue(y0) * 256 + y[|y| - 1] as nat;
      assert Pow256(|y|) == 256 * Pow256(|y0|);
      BeValueAppend(x, y0);
      calc {
        BeValue(x + y);
        BeValue(x + y0) * 256 + y[|y| - 1] as nat;
        (BeValue(x) * Pow256(|y0|) + BeValue(y0)) * 256 + y[|y| - 1] as nat;
        { MulAssoc256(BeValue(x), Pow256(|y0|)); }
        BeValue(x) * Pow256(|y|) + BeValue(y);
      }
    } else {
      assert x + y == x;
    }
  }

  lemma MulAssoc256(a: nat, b: nat)
    ensures a * b * 256 == a * (256 * b)
  {
  }

  /** UInt8BEtoNumber: the first byte. */
  function UInt8BE(bytes: seq<byte>): (r: Result<nat>)
    ensures r.Failure? <==> |bytes| < 1
    ensures r.Success? ==> r.value == BeValue(bytes[..1]) && r.value < 0x100
  {
    if |bytes| < 1 then Failure(OutOfRange) else Success(bytes[0] as nat)
  }

  /** BinaryPrimitives.ReadUInt16BigEndian: the first two bytes, big-endian. */
  function UInt16BE(bytes: seq<byte>): (r: Result<nat>)
    ensures r.Failure? <==> |bytes| < 2
    ensures r.Success? ==> r.value < 0x1_0000
  {
    if |bytes| < 2 then Failure(OutOfRange) else Success(BeValue(bytes[..2]))
  }

  /** BinaryPrimitives.ReadUInt32BigEndian: the first four bytes, big-endian. */
  function UInt32BE(bytes: seq<byte>): (r: Result<nat>)
    ensures r.Failure? <==> |bytes| < 4
    ensures r.Success? ==> r.value < 0x1_0000_0000
  {
    if |bytes| < 4 then Failure(OutOfRange) else Success(BeValue(bytes[..4]))
  }

  /** The largest value a JavaScript number holds exactly, plus one. */
  const Safe53: nat := 0x20_0000_0000_0000

  /**
   * UInt64BEtoNumber: the top bytes are checked first (a second byte of 0x20
   * or more, or a nonzero first byte, raises), then eight bytes are read.
   */
  function UInt64BE(bytes: seq<byte>): (r: Result<nat>)
    ensures r.Success? ==> |bytes| >= 8 && r.value == BeValue(bytes[..8]) && r.value < Safe53
  {
    if |bytes| < 2 then Failure(OutOfRange)
    else if bytes[1] >= 0x20 || bytes[0] > 0 then Failure(TooLarge)
    else if |bytes| < 8 then Failure(OutOfRange)
    else
      BeValueSplit(bytes[..8]);
      Success(BeValue(bytes[..8]))
  }

  /** The guard of UInt64BEtoNumber raises exactly for the values of 2^53 and above. */
  lemma UInt64Guard(bytes: seq<byte>)
    requires |bytes| >= 8
    ensures UInt64BE(bytes) == Failure(TooLarge) <==> BeValue(bytes[..8]) >= Safe53
    ensures UInt64BE(bytes) != Failure(TooLarge) ==> UInt64BE(bytes) == Success(BeValue(bytes[..8]))
  {
    var s := bytes[..8];
    BeValueSplit(s);
    assert s[2..] == bytes[2..8];
  }

  /** The accumulating loop of UInt64BEtoNumber. */
  method UInt64BEtoNumber(bytes: seq<byte>) returns (r: Result<nat>)
    ensures r == UInt64BE(bytes)
  {
    if |bytes| < 2 {
      return Failure(OutOfRange);
    }
    if bytes[1] >= 0x20 || bytes[0] > 0 {
      return Failure(TooLarge);
    }
    var value: nat := 0;
    var i := 0;
    while i < 8
      invariant 0 <= i <= 8 && i <= |bytes|
      invariant value == BeValue(bytes[..i])
    {
      if i == |bytes| {
        return Failure(OutOfRange);
      }
      // `value <<= 8; value |= bytes[i]`: the shift leaves the low byte clear
      assert bytes[..i + 1][..i] == bytes[..i];
      value := value * 256 + bytes[i] as nat;
      i := i + 1;
    }
    return Success(value);
  }

  /** ReadNumber: dispatch on the field width. */
  function ReadNumber(buffer: seq<byte>, format: NumFmt): (r: Result<nat>)
    ensures r.Success? ==> r.value < Pow256(Width(format))
    ensures r.Success? ==> |buffer| >= Width(format) && r.value == BeValue(buffer[..Width(format)])
  {
    match format
    case UInt8 => UInt8BE(buffer)
    case UInt16 => UInt16BE(buffer)
    case UInt32 => UInt32BE(buffer)
    case UInt64 => UInt64BE(buffer)
  }

  /** The number of bytes of a field of format `f`. */
  function Width(f: NumFmt): nat
  {
    match f
    case UInt8 => 1
    case UInt16 => 2
    case UInt32 => 4
    case UInt64 => 8
  }

  /** B2N: the length of the array picks the reader; any other length reads as zero. */
  function B2N(data: seq<byte>): (r: Result<nat>)
    ensures r.Failure? ==> |data| == 8 && r.error == TooLarge
    ensures r.Success? && |data| in {1, 2, 4, 8} ==> r.value == BeValue(data)
    ensures |data| !in {1, 2, 4, 8} ==> r == Success(0)
  {
    assert data[..|data|] == data;
    if |data| == 1 then UInt8BE(data)
    else if |data| == 2 then UInt16BE(data)
    else if |data| == 4 then UInt32BE(data)
    else if |data| == 8 then UInt64BE(data)
    else Success(0)
  }

  /** Every number that fits its width reads back through B2N. */
  lemma B2NOfBeBytes(n: nat, k: nat)
    requires (k in {1, 2, 4} && n < Pow256(k)) || (k == 8 && n < Safe53)
    ensures B2N(BeBytes(n, k)) == Success(n)
  {
    var s := BeBytes(n, k);
    if k == 8 {
      assert Safe53 < Pow256(8);
    }
    BeValueOfBytes(n, k);
    assert s[..k] == s;
    if k == 8 {
      UInt64Guard(s);
    }
  }

  // ---------------------------------------------------------------------
  // The MDX block cipher
  // ---------------------------------------------------------------------

  /** A byte with its two nibbles exchanged. */
  function SwapNibbles(b: byte): byte
  {
    (b >> 4) | (b << 4)
  }

  /** The byte mixed into the next position: 0x36 first, then the previous ciphertext byte. */
  function Prev(c: seq<byte>, i: nat): byte
    requires i <= |c|
  {
    if i == 0 then 0x36 else c[i - 1]
  }

  /** `(byte)(i & 0xff)` for a nonnegative index. */
  function LowByte(i: nat): byte
  {
    (i % 256) as byte
  }

  /** What FastDecrypt computes, position by position. */
  function Decrypted(c: seq<byte>, key: seq<byte>): (p: seq<byte>)
    requires |c| == 0 || |key| > 0
    ensures |p| == |c|
  {
    seq(|c|, i requires 0 <= i < |c| => SwapNibbles(c[i]) ^ Prev(c, i) ^ LowByte(i) ^ key[i % |key|])
  }

  /** The cipher FastDecrypt undoes: each ciphertext byte feeds the next position. */
  function Encrypted(p: seq<byte>, key: seq<byte>): (c: seq<byte>)
    requires |p| == 0 || |key| > 0
    ensures |c| == |p|
    decreases |p|
  {
    if p == [] then []
    else
      var c := Encrypted(p[..|p| - 1], key);
      var i := |p| - 1;
      c + [SwapNibbles(p[i] ^ Prev(c, i) ^ LowByte(i) ^ key[i % |key|])]
  }

  predicate DecryptsFrom(p: seq<byte>, c: seq<byte>, key: seq<byte>)
    requires |c| == 0 || |key| > 0
  {
    |p| == |c| && forall i :: 0 <= i < |c| ==> p[i] == SwapNibbles(c[i]) ^ Prev(c, i) ^ LowByte(i) ^ key[i % |key|]
  }

  lemma DecryptsPrefix(p: seq<byte>, c: seq<byte>, key: seq<byte>, n: nat)
    requires n <= |c| && (|c| == 0 || |key| > 0) && DecryptsFrom(p, c, key)
    ensures DecryptsFrom(p[..n], c[..n], key)
  {
    forall i | 0 <= i < n
      ensures p[..n][i] == SwapNibbles(c[..n][i]) ^ Prev(c[..n], i) ^ LowByte(i) ^ key[i % |key|]
    {
      assert Prev(c[..n], i) == Prev(c, i);
    }
  }

  lemma Unmask(b: byte, x: byte, y: byte, z: byte)
    ensures SwapNibbles(SwapNibbles(b) ^ x ^ y ^ z ^ x ^ y ^ z) == b
  {
  }

  lemma SwapNibblesInvolution(b: byte)
    ensures SwapNibbles(SwapNibbles(b)) == b
  {
  }

  /** Decryption inverts encryption. */
  lemma {:induction false} DecryptEncrypt(p: seq<byte>, key: seq<byte>)
    requires |p| == 0 || |key| > 0
    ensures Decrypted(Encrypted(p, key), key) == p
    decreases |p|
  {
    if p != [] {
      var n := |p| - 1;
      var init := p[..n];
      var c0 := Encrypted(init, key);
      var c := Encrypted(p, key);
      DecryptEncrypt(init, key);
      assert c[..n] == c0;
      var d := Decrypted(c, key);
      forall i | 0 <= i < |p|
        ensures d[i] == p[i]
      {
        if i < n {
          assert Prev(c, i) == Prev(c0, i);
          assert d[i] == Decrypted(c0, key)[i];
        } else {
          var y := p[i] ^ Prev(c0, i) ^ LowByte(i) ^ key[i % |key|];
          SwapNibblesInvolution(y);
          assert Prev(c, i) == Prev(c0, i);
        }
      }
    }
  }

  /** Encryption inverts decryption: the cipher is a bijection on byte strings of each length. */
  lemma EncryptDecrypt(c: seq<byte>, key: seq<byte>)
    requires |c| == 0 || |key| > 0
    ensures Encrypted(Decrypted(c, key), key) == c
  {
    EncryptsTo(Decrypted(c, key), c, key);
  }

  /** Plaintext that decrypts from `c` position by position encrypts back to `c`. */
  lemma {:induction false} EncryptsTo(p: seq<byte>, c: seq<byte>, key: seq<byte>)
    requires (|c| == 0 || |key| > 0) && DecryptsFrom(p, c, key)
    ensures Encrypted(p, key) == c
    decreases |c|
  {
    if c != [] {
      var n := |c| - 1;
      var init := c[..n];
      DecryptsPrefix(p, c, key, n);
      EncryptsTo(p[..n], init, key);
      assert Prev(init, n) == Prev(c, n);
      assert p[n] == SwapNibbles(c[n]) ^ Prev(c, n) ^ LowByte(n) ^ key[n % |key|];
      Unmask(c[n], Prev(c, n), LowByte(n), key[n % |key|]);
      assert c == init + [c[n]];
    }
  }

  /** FastDecrypt: decrypts the array in place, carrying the previous ciphertext byte. */
  method FastDecrypt(data: array<byte>, key: seq<byte>) returns (r: array<byte>)
    requires data.Length == 0 || |key| > 0
    modifies data
    ensures r == data && data[..] == Decrypted(old(data[..]), key)
  {
    ghost var c := data[..];
    var previous: byte := 0x36;
    var i := 0;
    while i < data.Length
      invariant 0 <= i <= data.Length
      invariant forall k :: 0 <= k < i ==> data[k] == Decrypted(c, key)[k]
      invariant forall k :: i <= k < data.Length ==> data[k] == c[k]
      invariant previous == Prev(c, i)
    {
      var t: byte := (data[i] >> 4) | (data[i] << 4);
      t := t ^ previous;
      t := t ^ (i % 256) as byte;
      t := t ^ key[i % |key|];
      previous := data[i];
      data[i] := t;
      i := i + 1;
    }
    assert data[..] == Decrypted(c, key);
    r := data;
  }

  /** The key of a block: RIPEMD-128 of its bytes 4..7 followed by 0x95, 0x36, 0, 0. */
  function MdxKey(block: seq<byte>): (key: seq<byte>)
    requires |block| >= 8
    ensures |key| == 16
  {
    Ripemd128.Digest(block[4..8] + [0x95, 0x36, 0x00, 0x00])
  }

  /** MdxDecrypt: the first 8 bytes pass unchanged, the rest is decrypted under the block's key. */
  function MdxDecrypt(block: seq<byte>): (r: Result<seq<byte>>)
    ensures r.Failure? <==> |block| < 8
    ensures r.Success? ==> |r.value| == |block| && r.value[..8] == block[..8]
    ensures r.Success? ==> r.value[8..] == Decrypted(block[8..], MdxKey(block))
  {
    if |block| < 8 then Failure(OutOfRange)
    else
      var decrypted := Decrypted(block[8..], MdxKey(block));
      var out := block[..8] + decrypted;
      assert out[..8] == block[..8] && out[8..] == decrypted;
      Success(out)
  }

  /** The encryption MdxDecrypt undoes; the key depends only on the unencrypted prefix. */
  function MdxEncrypt(block: seq<byte>): (r: seq<byte>)
    requires |block| >= 8
    ensures |r| == |block| && r[..8] == block[..8]
  {
    var out := block[..8] + Encrypted(block[8..], MdxKey(block));
    assert out[..8] == block[..8];
    out
  }

  lemma MdxRoundTrip(block: seq<byte>)
    requires |block| >= 8
    ensures MdxDecrypt(MdxEncrypt(block)) == Success(block)
  {
    var e := MdxEncrypt(block);
    assert e[4..8] == block[4..8];
    assert MdxKey(e) == MdxKey(block);
    assert e[8..] == Encrypted(block[8..], MdxKey(block));
    DecryptEncrypt(block[8..], MdxKey(block));
    assert block[..8] + block[8..] == block;
  }

  // ---------------------------------------------------------------------
  // Levenshtein distance
  // ---------------------------------------------------------------------

  /** TripleMin: the least of three numbers. */
  function TripleMin(a: int, b: int, c: int): (m: int)
    ensures m <= a && m <= b && m <= c
    ensures m == a || m == b || m == c
  {
    Min(a, Min(b, c))
  }

  /** The edit distance of the dynamic programme, as a recursion over prefixes. */
  function EditDistance(a: Text, b: Text): nat
    decreases |a| + |b|
  {
    if a == [] then |b|
    else if b == [] then |a|
    else if a[|a| - 1] == b[|b| - 1] then EditDistance(a[..|a| - 1], b[..|b| - 1])
    else 1 + TripleMin(EditDistance(a[..|a| - 1], b), EditDistance(a, b[..|b| - 1]),
                       EditDistance(a[..|a| - 1], b[..|b| - 1]))
  }

  lemma {:induction false} EditDistanceSelf(a: Text)
    ensures EditDistance(a, a) == 0
    decreases |a|
  {
    if a != [] {
      EditDistanceSelf(a[..|a| - 1]);
    }
  }

  lemma {:induction false} EditDistanceSymmetric(a: Text, b: Text)
    ensures EditDistance(a, b) == EditDistance(b, a)
    decreases |a| + |b|
  {
    if a != [] && b != [] {
      var a0, b0 := a[..|a| - 1], b[..|b| - 1];
      EditDistanceSymmetric(a0, b0);
      if a[|a| - 1] != b[|b| - 1] {
        EditDistanceSymmetric(a0, b);
        EditDistanceSymmetric(a, b0);
      }
    }
  }

  /** The distance is at least the difference of the lengths and at most the longer length. */
  lemma {:induction false} EditDistanceBounds(a: Text, b: Text)
    ensures |a| - |b| <= EditDistance(a, b) && |b| - |a| <= EditDistance(a, b)
    ensures EditDistance(a, b) <= if |a| < |b| then |b| else |a|
    decreases |a| + |b|
  {
    if a != [] && b != [] {
      var a0, b0 := a[..|a| - 1], b[..|b| - 1];
      EditDistanceBounds(a0, b0);
      if a[|a| - 1] != b[|b| - 1] {
        EditDistanceBounds(a0, b);
        EditDistanceBounds(a, b0);
      }
    }
  }

  /**
   * What LevenshteinDistance gives: 9999 when either text is empty, else
   * the edit distance, which lies between the difference of the lengths and
   * the longer length.
   */
  function Levenshtein(a: Text, b: Text): (d: nat)
    ensures a == [] || b == [] ==> d == 9999
    ensures a != [] && b != [] ==> |a| - |b| <= d && |b| - |a| <= d && d <= if |a| < |b| then |b| else |a|
  {
    EditDistanceBounds(a, b);
    if a == [] || b == [] then 9999 else EditDistance(a, b)
  }

  /** LevenshteinDistance, the dynamic programme over a table of prefix distances. */
  method LevenshteinDistance(a: Text, b: Text) returns (d: int)
    ensures d == Levenshtein(a, b)
  {
    if a == [] || b == [] {
      return 9999;
    }
    var m, n := |a|, |b|;
    var dp := new int[m + 1, n + 1];
    for i := 0 to m + 1
      invariant forall p :: 0 <= p < i ==> dp[p, 0] == p
    {
      dp[i, 0] := i;
    }
    for j := 0 to n + 1
      invariant forall p :: 0 <= p <= m ==> dp[p, 0] == p
      invariant forall q :: 0 <= q < j ==> dp[0, q] == q
    {
      dp[0, j] := j;
    }
    assert a[..0] == [];
    for i := 1 to m + 1
      invariant forall p, q :: 0 <= p < i && 0 <= q <= n ==> dp[p, q] == EditDistance(a[..p], b[..q])
      invariant forall p :: i <= p <= m ==> dp[p, 0] == p
    {
      FillRow(dp, a, b, i);
    }
    assert a[..m] == a && b[..n] == b;
    d := dp[m, n];
  }

  /** One row of LevenshteinDistance's table, from the row above and the first column. */
  method FillRow(dp: array2<int>, a: Text, b: Text, i: nat)
    requires dp.Length0 == |a| + 1 && dp.Length1 == |b| + 1 && 1 <= i <= |a|
    requires dp[i, 0] == i
    requires forall q :: 0 <= q <= |b| ==> dp[i - 1, q] == EditDistance(a[..i - 1], b[..q])
    modifies dp
    ensures forall q :: 0 <= q <= |b| ==> dp[i, q] == EditDistance(a[..i], b[..q])
    ensures forall p, q :: 0 <= p < dp.Length0 && 0 <= q < dp.Length1 && p != i ==> dp[p, q] == old(dp[p, q])
  {
    assert EditDistance(a[..i], b[..0]) == i by {
      assert b[..0] == [];
    }
    for j := 1 to |b| + 1
      invariant forall q :: 0 <= q < j ==> dp[i, q] == EditDistance(a[..i], b[..q])
      invariant forall p, q :: 0 <= p < dp.Length0 && 0 <= q < dp.Length1 && p != i ==> dp[p, q] == old(dp[p, q])
    {
      EditDistanceStep(a, b, i, j);
      if a[i - 1] == b[j - 1] {
        dp[i, j] := dp[i - 1, j - 1];
      } else {
        dp[i, j] := TripleMin(dp[i - 1, j] + 1, dp[i, j - 1] + 1, dp[i - 1, j - 1] + 1);
      }
    }
  }

  /** The recurrence the table fills in, stated on prefixes. */
  lemma EditDistanceStep(a: Text, b: Text, i: nat, j: nat)
    requires 1 <= i <= |a| && 1 <= j <= |b|
    ensures EditDistance(a[..i], b[..j]) ==
      if a[i - 1] == b[j - 1] then EditDistance(a[..i - 1], b[..j - 1])
      else TripleMin(EditDistance(a[..i - 1], b[..j]) + 1, EditDistance(a[..i], b[..j - 1]) + 1,
                     EditDistance(a[..i - 1], b[..j - 1]) + 1)
  {
    assert a[..i][..i - 1] == a[..i - 1] && b[..j][..j - 1] == b[..j - 1];
  }

  /** Empty prefixes: the first row and column of the table. */
  lemma EditDistanceEmpty(a: Text, b: Text)
    ensures EditDistance([], b) == |b| && EditDistance(a, []) == |a|
  {
  }

  // ---------------------------------------------------------------------
  // Text predicates
  // ---------------------------------------------------------------------

  /** A text lowered code unit by code unit (ToLowerInvariant, with the mapping given). */
  function Lowered(lower: CodeUnit -> CodeUnit, s: Text): (r: Text)
    ensures |r| == |s|
  {
    seq(|s|, i requires 0 <= i < |s| => lower(s[i]))
  }

  const Yes: Text := [121, 101, 115]          // "yes"
  const TrueText: Text := [116, 114, 117, 101]  // "true"

  /** IsTrue: null and empty are false; otherwise the lowered text must be "yes" or "true". */
  function IsTrue(v: Option<Text>, lower: CodeUnit -> CodeUnit): (b: bool)
    ensures b <==> v.Some? && (Lowered(lower, v.value) == Yes || Lowered(lower, v.value) == TrueText)
    ensures b ==> v.Some? && 3 <= |v.value| <= 4
    ensures v.None? || v.value == [] ==> !b
  {
    if v.None? || v.value == [] then false
    else
      var l := Lowered(lower, v.value);
      l == Yes || l == TrueText
  }

  /** ToLowerInvariant on the letters A to Z, the only ones "yes" and "true" are made of. */
  function AsciiLower(c: CodeUnit): (l: CodeUnit)
    ensures 65 <= c <= 90 ==> l == c + 32
    ensures !(65 <= c <= 90) ==> l == c
  {
    if 65 <= c <= 90 then c + 32 else c
  }

  /** "YES" and "True" are true, "yess" and "no" are not. */
  lemma IsTrueExamples()
    ensures IsTrue(Some([89, 69, 83]), AsciiLower)
    ensures IsTrue(Some([84, 114, 117, 101]), AsciiLower)
    ensures !IsTrue(Some([121, 101, 115, 115]), AsciiLower)
    ensures !IsTrue(Some([110, 111]), AsciiLower)
  {
    var yes := Lowered(AsciiLower, [89, 69, 83]);
    assert yes[0] == AsciiLower(89) == 121;
    assert yes[1] == AsciiLower(69) == 101;
    assert yes[2] == AsciiLower(83) == 115;
    assert yes == Yes;
    var tru := Lowered(AsciiLower, [84, 114, 117, 101]);
    assert tru[0] == AsciiLower(84) == 116;
    assert tru[1] == AsciiLower(114) == 114;
    assert tru[2] == AsciiLower(117) == 117;
    assert tru[3] == AsciiLower(101) == 101;
    assert tru == TrueText;
    assert Lowered(AsciiLower, [121, 101, 115, 115])[0] == 121;
  }

  /** IsTrue sees no difference between two texts that lower alike. */
  lemma IsTrueCaseInsensitive(s: Text, t: Text, lower: CodeUnit -> CodeUnit)
    requires Lowered(lower, s) == Lowered(lower, t)
    ensures IsTrue(Some(s), lower) == IsTrue(Some(t), lower)
  {
  }

  /** k is the first position below both lengths where the words differ once lowered. */
  predicate FirstCaseDifference(w1: Text, w2: Text, lower: CodeUnit -> CodeUnit, k: int)
  {
    0 <= k < |w1| && k < |w2| && lower(w1[k]) != lower(w2[k]) &&
    forall i :: 0 <= i < k ==> lower(w1[i]) == lower(w2[i])
  }

  /**
   * WordCompare: raises on an empty word; 0 for equal words; otherwise the
   * sign of the first case-insensitive difference; failing one, -1 when the
   * first word is shorter and 1 otherwise.
   */
  method WordCompare(w1: Text, w2: Text, lower: CodeUnit -> CodeUnit) returns (r: Result<int>)
    ensures r.Failure? <==> w1 == [] || w2 == []
    ensures r.Success? ==> (r.value == 0 <==> w1 == w2)
    ensures r.Success? && w1 != w2 ==> r.value == -1 || r.value == 1
    ensures r.Success? ==> forall k :: FirstCaseDifference(w1, w2, lower, k) ==>
      r.value == if lower(w1[k]) < lower(w2[k]) then -1 else 1
    ensures r.Success? && w1 != w2 && (forall i :: 0 <= i < Min(|w1|, |w2|) ==> lower(w1[i]) == lower(w2[i])) ==>
      r.value == if |w1| < |w2| then -1 else 1
  {
    if w1 == [] || w2 == [] {
      return Failure(EmptyWord);
    }
    if w1 == w2 {
      return Success(0);
    }
    var len := Min(|w1|, |w2|);
    var i := 0;
    while i < len
      invariant 0 <= i <= len
      invariant forall p :: 0 <= p < i ==> lower(w1[p]) == lower(w2[p])
    {
      var c1, c2 := w1[i], w2[i];
      if c1 == c2 {
      } else if lower(c1) == lower(c2) {
      } else if lower(c1) < lower(c2) {
        assert FirstCaseDifference(w1, w2, lower, i);
        return Success(-1);
      } else {
        assert FirstCaseDifference(w1, w2, lower, i);
        return Success(1);
      }
      i := i + 1;
    }
    return Success(if |w1| < |w2| then -1 else 1);
  }

  // ---------------------------------------------------------------------
  // Entities
  // ---------------------------------------------------------------------

  const Amp: CodeUnit := 38   // '&'
  const Lt: CodeUnit := 60    // '<'
  const Gt: CodeUnit := 62    // '>'
  const Quot: CodeUnit := 34  // '"'

  const AmpEntity: Text := [Amp, 97, 109, 112, 59]         // "&amp;"
  const LtEntity: Text := [Amp, 108, 116, 59]              // "&lt;"
  const GtEntity: Text := [Amp, 103, 116, 59]              // "&gt;"
  const QuotEntity: Text := [Amp, 113, 117, 111, 116, 59]  // "&quot;"

  /** String.Replace: every occurrence of `pat`, scanning left to right without overlap. */
  function Replace(s: Text, pat: Text, rep: Text): Text
    requires pat != []
    decreases |s|
  {
    if s == [] then []
    else if pat <= s then rep + Replace(s[|pat|..], pat, rep)
    else [s[0]] + Replace(s[1..], pat, rep)
  }

  /** UnescapeEntities: &lt;, &gt;, &quot; and then &amp;, one pass each. */
  function UnescapeEntities(text: Text): Text
  {
    Replace(Replace(Replace(Replace(text, LtEntity, [Lt]), GtEntity, [Gt]), QuotEntity, [Quot]), AmpEntity, [Amp])
  }

  lemma NotPrefixAt(s: Text, pat: Text, k: nat)
    requires k < |pat| && k < |s| && s[k] != pat[k]
    ensures !(pat <= s)
  {
  }

  lemma ReplaceSkip(s: Text, pat: Text, rep: Text)
    requires pat != [] && s != [] && !(pat <= s)
    ensures Replace(s, pat, rep) == [s[0]] + Replace(s[1..], pat, rep)
  {
  }

  lemma ReplaceHit(pat: Text, y: Text, rep: Text)
    requires pat != []
    ensures Replace(pat + y, pat, rep) == rep + Replace(y, pat, rep)
  {
    assert pat <= pat + y;
    assert (pat + y)[|pat|..] == y;
  }

  /** Text with no '&' passes through a replacement of an entity unchanged. */
  lemma {:induction false} ReplacePassThrough(x: Text, y: Text, pat: Text, rep: Text)
    requires pat != [] && pat[0] == Amp
    requires forall i :: 0 <= i < |x| ==> x[i] != Amp
    ensures Replace(x + y, pat, rep) == x + Replace(y, pat, rep)
    decreases |x|
  {
    if x != [] {
      var s := x + y;
      NotPrefixAt(s, pat, 0);
      ReplaceSkip(s, pat, rep);
      assert s[1..] == x[1..] + y;
      ReplacePassThrough(x[1..], y, pat, rep);
      assert x == [x[0]] + x[1..];
    } else {
      assert x + y == y;
    }
  }

  /** The character the pass number k of UnescapeEntities restores. */
  function Target(k: nat): CodeUnit
    requires k < 4
  {
    match k
    case 0 => Lt
    case 1 => Gt
    case 2 => Quot
    case 3 => Amp
  }

  predicate Escaped(c: CodeUnit) { c == Amp || c == Lt || c == Gt || c == Quot }

  function Entity(c: CodeUnit): Text
    requires Escaped(c)
  {
    if c == Amp then AmpEntity else if c == Lt then LtEntity else if c == Gt then GtEntity else QuotEntity
  }

  /** Every entity starts with its only '&', and the second code unit tells them apart. */
  lemma EntityShape(c: CodeUnit, d: CodeUnit)
    requires Escaped(c) && Escaped(d)
    ensures |Entity(c)| >= 4 && Entity(c)[0] == Amp
    ensures forall i :: 1 <= i < |Entity(c)| ==> Entity(c)[i] != Amp
    ensures c != d ==> Entity(c)[1] != Entity(d)[1]
  {
  }

  /** Whether c is still escaped after k passes. */
  predicate Pending(k: nat, c: CodeUnit)
  {
    (c == Lt && k < 1) || (c == Gt && k < 2) || (c == Quot && k < 3) || (c == Amp && k < 4)
  }

  /** One character after k passes of unescaping its escaped form. */
  function Enc(k: nat, c: CodeUnit): Text
  {
    if Pending(k, c) then Entity(c) else [c]
  }

  function Encode(k: nat, s: Text): Text
    decreases |s|
  {
    if s == [] then [] else Enc(k, s[0]) + Encode(k, s[1..])
  }

  /** The escaping UnescapeEntities undoes: &, <, > and " as entities. */
  function EscapeEntities(s: Text): Text
  {
    Encode(0, s)
  }

  /** Pass k acting on the encoding of one character followed by anything. */
  lemma ReplaceToken(k: nat, c: CodeUnit, y: Text)
    requires k < 4
    ensures Replace(Enc(k, c) + y, Entity(Target(k)), [Target(k)]) == Enc(k + 1, c) + Replace(y, Entity(Target(k)), [Target(k)])
  {
    var pat, rep := Entity(Target(k)), [Target(k)];
    var t := Enc(k, c);
    if c == Target(k) {
      assert t == pat && Enc(k + 1, c) == rep;
      ReplaceHit(pat, y, rep);
    } else if Pending(k, c) {
      assert Enc(k + 1, c) == t == Entity(c);
      ReplaceOtherEntity(c, Target(k), y, rep);
    } else {
      assert Enc(k + 1, c) == t == [c] && c != Amp;
      EntityShape(Target(k), Target(k));
      ReplacePassThrough(t, y, pat, rep);
    }
  }

  /** Another entity is not an occurrence of the one being replaced, and passes through. */
  lemma ReplaceOtherEntity(c: CodeUnit, d: CodeUnit, y: Text, rep: Text)
    requires Escaped(c) && Escaped(d) && c != d
    ensures Replace(Entity(c) + y, Entity(d), rep) == Entity(c) + Replace(y, Entity(d), rep)
  {
    var t, pat := Entity(c), Entity(d);
    EntityShape(c, d);
    EntityShape(d, c);
    NotPrefixAt(t + y, pat, 1);
    ReplaceSkip(t + y, pat, rep);
    assert (t + y)[1..] == t[1..] + y;
    ReplacePassThrough(t[1..], y, pat, rep);
    assert t == [t[0]] + t[1..];
  }

  /** Pass k turns the encoding after k passes into the encoding after k + 1. */
  lemma {:induction false} ReplacePass(k: nat, s: Text)
    requires k < 4
    ensures Replace(Encode(k, s), Entity(Target(k)), [Target(k)]) == Encode(k + 1, s)
    decreases |s|
  {
    if s != [] {
      ReplacePass(k, s[1..]);
      ReplaceToken(k, s[0], Encode(k, s[1..]));
    }
  }

  lemma {:induction false} EncodeFinal(s: Text)
    ensures Encode(4, s) == s
    decreases |s|
  {
    if s != [] {
      EncodeFinal(s[1..]);
    }
  }

  /** Unescaping inverts escaping, because &amp; is restored last. */
  lemma UnescapeEscape(s: Text)
    ensures UnescapeEntities(EscapeEntities(s)) == s
  {
    assert Entity(Target(0)) == LtEntity && Entity(Target(1)) == GtEntity;
    assert Entity(Target(2)) == QuotEntity && Entity(Target(3)) == AmpEntity;
    ReplacePass(0, s);
    ReplacePass(1, s);
    ReplacePass(2, s);
    ReplacePass(3, s);
    EncodeFinal(s);
  }

  /** "&amp;lt;" unescapes to "&lt;", not to "<". */
  lemma UnescapeAmpLt()
    ensures UnescapeEntities(AmpEntity + [108, 116, 59]) == LtEntity
  {
    var s: Text := LtEntity;
    assert Encode(0, s) == AmpEntity + [108, 116, 59] by {
      assert Encode(0, s[3..]) == [59];
      assert Encode(0, s[2..]) == [116, 59];
      assert Encode(0, s[1..]) == [108, 116, 59];
    }
    UnescapeEscape(s);
  }
}
