/**
 * RIPEMD-128 (Dobbertin, Bosselaers and Preneel, 1996) as computed by
 * Ripemd128.ComputeHash: MD4-style padding (sections 3.1 and 3.2 of RFC 1320),
 * little-endian words, and per 16-word block a left and a right line of 64
 * steps each whose results are folded into four chaining words.
 */
module Ripemd128 {
  import opened Common

  type word = bv32

  /** Entry k of a 16-entry table row. */
  function NatAt(k: nat, e0: nat, e1: nat, e2: nat, e3: nat, e4: nat, e5: nat, e6: nat, e7: nat, e8: nat, e9: nat, e10: nat, e11: nat, e12: nat, e13: nat, e14: nat, e15: nat): (e: nat)
    requires k < 16
  {
    match k
    case 0 => e0
    case 1 => e1
    case 2 => e2
    case 3 => e3
    case 4 => e4
    case 5 => e5
    case 6 => e6
    case 7 => e7
    case 8 => e8
    case 9 => e9
    case 10 => e10
    case 11 => e11
    case 12 => e12
    case 13 => e13
    case 14 => e14
    case 15 => e15
  }

  /** Rotation amounts: 16 per round, left line rounds 0-3, right line rounds 4-7. */
  function Shift(row: nat, k: nat): (s: nat)
    requires row < 8 && k < 16
    ensures 5 <= s <= 15
  {
    match row
    case 0 => NatAt(k, 11, 14, 15, 12, 5, 8, 7, 9, 11, 13, 14, 15, 6, 7, 9, 8)
    case 1 => NatAt(k, 7, 6, 8, 13, 11, 9, 7, 15, 7, 12, 15, 9, 11, 7, 13, 12)
    case 2 => NatAt(k, 11, 13, 6, 7, 14, 9, 13, 15, 14, 8, 13, 6, 5, 12, 7, 5)
    case 3 => NatAt(k, 11, 12, 14, 15, 14, 15, 9, 8, 9, 14, 5, 6, 8, 6, 5, 12)
    case 4 => NatAt(k, 8, 9, 9, 11, 13, 15, 15, 5, 7, 7, 8, 11, 14, 14, 12, 6)
    case 5 => NatAt(k, 9, 13, 15, 7, 12, 8, 9, 11, 7, 7, 12, 7, 6, 15, 13, 11)
    case 6 => NatAt(k, 9, 7, 15, 11, 8, 6, 6, 14, 12, 13, 5, 14, 13, 13, 7, 5)
    case 7 => NatAt(k, 15, 5, 8, 11, 14, 14, 6, 14, 6, 9, 12, 9, 12, 5, 15, 8)
  }

  /** The rotation amount as the word it is used as. */
  function S(row: nat, k: nat): word
    requires row < 8 && k < 16
  {
    Shift(row, k) as word
  }

  /** Message word selection: 16 per round. */
  function X(row: nat, k: nat): (j: nat)
    requires row < 8 && k < 16
    ensures j < 16
  {
    match row
    case 0 => NatAt(k, 0, 1, 2, 3, 4, 5, 6, 7, 8, 9, 10, 11, 12, 13, 14, 15)
    case 1 => NatAt(k, 7, 4, 13, 1, 10, 6, 15, 3, 12, 0, 9, 5, 2, 14, 11, 8)
    case 2 => NatAt(k, 3, 10, 14, 4, 9, 15, 8, 1, 2, 7, 0, 6, 13, 11, 5, 12)
    case 3 => NatAt(k, 1, 9, 11, 10, 0, 8, 12, 4, 13, 3, 7, 15, 14, 5, 6, 2)
    case 4 => NatAt(k, 5, 14, 7, 0, 9, 2, 11, 4, 13, 6, 15, 8, 1, 10, 3, 12)
    case 5 => NatAt(k, 6, 11, 3, 7, 0, 13, 5, 10, 14, 15, 8, 12, 4, 9, 1, 2)
    case 6 => NatAt(k, 15, 5, 1, 3, 7, 14, 6, 9, 11, 8, 12, 2, 10, 0, 4, 13)
    case 7 => NatAt(k, 8, 6, 4, 1, 3, 11, 15, 0, 5, 12, 2, 13, 9, 7, 10, 14)
  }

  /** Additive constants, one per round. */
  function K(row: nat): word
    requires row < 8
  {
    match row
    case 0 => 0x00000000 case 1 => 0x5a827999 case 2 => 0x6ed9eba1 case 3 => 0x8f1bbcdc
    case 4 => 0x50a28be6 case 5 => 0x5c4dd124 case 6 => 0x6d703ef3 case 7 => 0x00000000
  }

  /** The four boolean round functions. */
  function F(j: nat, x: word, y: word, z: word): word
    requires j < 4
  {
    match j
    case 0 => x ^ y ^ z
    case 1 => (x & y) | (!x & z)
    case 2 => (x | !y) ^ z
    case 3 => (x & z) | (y & !z)
  }

  /** `x << n | x >> 32 - n` with C#'s shift counts taken modulo 32: a left rotation by n bits. */
  function Rotl(x: word, n: word): word
  {
    (x << (n & 31)) | (x >> ((32 - n) & 31))
  }

  /**
   * Bit i of the rotation is bit i - n, counted modulo 32, of the word
   * rotated. The proof splits on the amount, so that each case is a
   * rotation by a fixed number of bits.
   */
  lemma RotlBit(x: word, n: word, i: word)
    requires n < 32 && i < 32
    ensures (Rotl(x, n) >> i) & 1 == (x >> ((i + 32 - n) & 31)) & 1
  {
    if n == 0 { } else if n == 1 { } else if n == 2 { } else if n == 3 {
    } else if n == 4 { } else if n == 5 { } else if n == 6 { } else if n == 7 {
    } else if n == 8 { } else if n == 9 { } else if n == 10 { } else if n == 11 {
    } else if n == 12 { } else if n == 13 { } else if n == 14 { } else if n == 15 {
    } else if n == 16 { } else if n == 17 { } else if n == 18 { } else if n == 19 {
    } else if n == 20 { } else if n == 21 { } else if n == 22 { } else if n == 23 {
    } else if n == 24 { } else if n == 25 { } else if n == 26 { } else if n == 27 {
    } else if n == 28 { } else if n == 29 { } else if n == 30 { } else {
    }
  }

  /** Concatenation that refuses two empty arrays and passes a lone non-empty one through. */
  function Concat(a: seq<byte>, b: seq<byte>): (r: Result<seq<byte>>)
    ensures r.Failure? <==> a == [] && b == []
    ensures r.Success? ==> r.value == a + b
  {
    if a == [] && b == [] then Failure(BothEmpty)
    else if a == [] then Success(b)
    else if b == [] then Success(a)
    else Success(a + b)
  }

  /** The 1..64 padding bytes of section 3.1 of RFC 1320: 0x80, then zeros. */
  function Padding(n: nat): (p: seq<byte>)
    ensures 1 <= |p| <= 64
    ensures (n + |p|) % 64 == 56
    ensures p[0] == 0x80 && forall i :: 1 <= i < |p| ==> p[i] == 0
  {
    var len := (if n % 64 < 56 then 56 else 120) - n % 64;
    [0x80] + seq(len - 1, _ => 0)
  }

  /** `n` as k little-endian bytes (BitConverter.GetBytes on a long, for k = 8). */
  function LittleEndian(n: nat, k: nat): (r: seq<byte>)
    ensures |r| == k
  {
    if k == 0 then [] else [(n % 256) as byte] + LittleEndian(n / 256, k - 1)
  }

  /** The value of little-endian bytes. */
  function LeValue(s: seq<byte>): nat
  {
    if s == [] then 0 else s[0] as nat + 256 * LeValue(s[1..])
  }


  /** The length field reads back as the number it encodes. */
  lemma {:induction false} LittleEndianRoundTrip(n: nat, k: nat)
    requires n < Pow256(k)
    ensures LeValue(LittleEndian(n, k)) == n
  {
    if k > 0 {
      var r := LittleEndian(n, k);
      DivBelow(n, Pow256(k - 1));
      LittleEndianRoundTrip(n / 256, k - 1);
      assert r[1..] == LittleEndian(n / 256, k - 1);
      ByteOfLow(n % 256);
      DivMod256(n);
    }
  }

  /** The padded message: input, padding, and the 64-bit bit length (section 3.2 of RFC 1320). */
  function Message(input: seq<byte>): (m: seq<byte>)
    requires |input| < 0x2000_0000_0000_0000
    ensures |m| % 64 == 0 && |m| == |input| + |Padding(|input|)| + 8
    ensures m[..|input|] == input
    ensures m[|m| - 8..] == LittleEndian(|input| * 8, 8)
  {
    var p := Padding(|input|);
    var len := LittleEndian(|input| * 8, 8);
    var m := input + p + len;
    assert m[..|input|] == input;
    assert m[|m| - 8..] == len;
    LengthFieldCompletes(|input| + |p|);
    m
  }

  lemma LengthFieldCompletes(n: nat)
    requires n % 64 == 56
    ensures (n + 8) % 64 == 0
  {
  }

  /** Four bytes as a little-endian word. */
  function LeWord(b0: byte, b1: byte, b2: byte, b3: byte): word
  {
    (b0 as word) | ((b1 as word) << 8) | ((b2 as word) << 16) | ((b3 as word) << 24)
  }

  /** Buffer.BlockCopy of a byte array into a uint array: little-endian words. */
  function Words(data: seq<byte>): (w: seq<word>)
    requires |data| % 4 == 0
    ensures |w| == |data| / 4
    decreases |data|
  {
    if data == [] then [] else [LeWord(data[0], data[1], data[2], data[3])] + Words(data[4..])
  }

  /** The four words of one line's registers, or the chaining state. */
  datatype Regs = Regs(a: word, b: word, c: word, d: word)

  const Init := Regs(0x67452301, 0xefcdab89, 0x98badcfe, 0x10325476)

  /** The word one step rotates in: `RotateLeft(a + f(b, c, d) + x[X[row][k]] + K[row], S[row][k])`. */
  function Mix(fun: nat, row: nat, k: nat, x: seq<word>, a: word, b: word, c: word, d: word): word
    requires fun < 4 && row < 8 && k < 16 && |x| == 16
  {
    Rotl(a + F(fun, b, c, d) + x[X(row, k)] + K(row), S(row, k))
  }

  /** One step: the new word enters the second register, the old last register becomes the first. */
  function Step(fun: nat, row: nat, k: nat, x: seq<word>, s: Regs): (r: Regs)
    requires fun < 4 && row < 8 && k < 16 && |x| == 16
    ensures r.a == s.d && r.c == s.b && r.d == s.c
  {
    Regs(s.d, Mix(fun, row, k, x, s.a, s.b, s.c, s.d), s.b, s.c)
  }

  /** The left line after its first n steps: step t uses function, words, shifts and constant of round t / 16. */
  function Left(x: seq<word>, h: Regs, n: nat): Regs
    requires |x| == 16 && n <= 64
  {
    if n == 0 then h
    else var t := n - 1; Step(t / 16, t / 16, t % 16, x, Left(x, h, t))
  }

  /** The right line after its steps 64..t-1: step u uses function (63 - u % 64) / 16 and row u / 16. */
  function Right(x: seq<word>, h: Regs, t: nat): Regs
    requires |x| == 16 && 64 <= t <= 128
  {
    if t == 64 then h
    else var u := t - 1; Step((63 - u % 64) / 16, u / 16, u % 16, x, Right(x, h, u))
  }

  lemma RightNext(x: seq<word>, h: Regs, t: nat)
    requires |x| == 16 && 64 <= t < 128
    ensures Right(x, h, t + 1) == Step((63 - t % 64) / 16, t / 16, t % 16, x, Right(x, h, t))
  {
  }

  /** The combination of the chaining state with the final registers of both lines. */
  function Combine(h: Regs, l: Regs, r: Regs): Regs
  {
    Regs(h.b + l.c + r.d, h.c + l.d + r.a, h.d + l.a + r.b, h.a + l.b + r.c)
  }

  /** The compression of one 16-word block into the chaining state. */
  function CompressBlock(h: Regs, x: seq<word>): Regs
    requires |x| == 16
  {
    Combine(h, Left(x, h, 64), Right(x, h, 128))
  }

  /** The chaining state after all 16-word blocks of x, compressed in order. */
  function Blocks(h: Regs, x: seq<word>): Regs
    requires |x| % 16 == 0
    decreases |x|
  {
    if x == [] then h else CompressBlock(Blocks(h, x[..|x| - 16]), x[|x| - 16..])
  }

  lemma NextBlockFits(i: nat, n: nat)
    requires i < n && i % 16 == 0 && n % 16 == 0
    ensures i + 16 <= n
  {
  }

  lemma MultipleOf64(n: nat)
    requires n % 64 == 0
    ensures n % 4 == 0 && (n / 4) % 16 == 0
  {
    var q := n / 64;
    assert n == 64 * q;
    assert n / 4 == 16 * q;
  }

  /** The padded message is a whole number of 16-word blocks. */
  lemma MessageWords(input: seq<byte>)
    requires |input| < 0x2000_0000_0000_0000
    ensures |Message(input)| % 4 == 0
    ensures |Words(Message(input))| % 16 == 0
  {
    MultipleOf64(|Message(input)|);
  }

  /** A word as 4 little-endian bytes. */
  function WordBytes(w: word): (r: seq<byte>)
    ensures |r| == 4 && LeWord(r[0], r[1], r[2], r[3]) == w
  {
    [(w & 0xff) as byte, ((w >> 8) & 0xff) as byte, ((w >> 16) & 0xff) as byte, ((w >> 24) & 0xff) as byte]
  }

  /** The 16-byte digest: the four chaining words, little-endian, in order. */
  function Digest(input: seq<byte>): (r: seq<byte>)
    requires |input| < 0x2000_0000_0000_0000
    ensures |r| == 16
  {
    MessageWords(input);
    var h := Blocks(Init, Words(Message(input)));
    WordBytes(h.a) + WordBytes(h.b) + WordBytes(h.c) + WordBytes(h.d)
  }

  /** The left line of ComputeHash's block loop: 64 steps over aa, bb, cc, dd. */
  /** One more step of the left line. */
  lemma LeftNext(x: seq<word>, h: Regs, t: nat)
    requires |x| == 16 && t < 64
    ensures Left(x, h, t + 1) == Step(t / 16, t / 16, t % 16, x, Left(x, h, t))
  {
  }

  method LeftLine(block: seq<word>, h: Regs) returns (aa: word, bb: word, cc: word, dd: word)
    requires |block| == 16
    ensures Regs(aa, bb, cc, dd) == Left(block, h, 64)
  {
    aa, bb, cc, dd := h.a, h.b, h.c, h.d;
    var t := 0;
    while t < 64
      invariant 0 <= t <= 64
      invariant Regs(aa, bb, cc, dd) == Left(block, h, t)
    {
      var r := t / 16;
      LeftNext(block, h, t);
      aa := Mix(r, r, t % 16, block, aa, bb, cc, dd);
      var tmp := dd; dd := cc; cc := bb; bb := aa; aa := tmp;
      t := t + 1;
    }
  }

  /** The right line of ComputeHash's block loop: steps 64..127 over aaa, bbb, ccc, ddd. */
  method RightLine(block: seq<word>, h: Regs) returns (aaa: word, bbb: word, ccc: word, ddd: word)
    requires |block| == 16
    ensures Regs(aaa, bbb, ccc, ddd) == Right(block, h, 128)
  {
    aaa, bbb, ccc, ddd := h.a, h.b, h.c, h.d;
    var t := 64;
    while t < 128
      invariant 64 <= t <= 128
      invariant Regs(aaa, bbb, ccc, ddd) == Right(block, h, t)
    {
      var r := t / 16;
      var rr := (63 - t % 64) / 16;
      RightNext(block, h, t);
      aaa := Mix(rr, r, t % 16, block, aaa, bbb, ccc, ddd);
      var tmp := ddd; ddd := ccc; ccc := bbb; bbb := aaa; aaa := tmp;
      t := t + 1;
    }
  }

  /** The padded message ComputeHash builds: padding array, then the 8-byte bit length. */
  method PadMessage(input: seq<byte>) returns (fullData: seq<byte>)
    requires |input| < 0x8000_0000
    ensures fullData == Message(input)
  {
    var bytes := |input|;
    var padding := new byte[(if bytes % 64 < 56 then 56 else 120) - bytes % 64](_ => 0);
    padding[0] := 0x80;
    assert padding[..] == Padding(bytes);
    var dataWithPad := Concat(input, padding[..]).value;
    var lengthBytes := LittleEndian(bytes * 8, 8);
    fullData := Concat(dataWithPad, lengthBytes).value;
  }

  /** The chaining state held in ComputeHash's four-word hash array. */
  function State(hash: array<word>): Regs
    requires hash.Length == 4
    reads hash
  {
    Regs(hash[0], hash[1], hash[2], hash[3])
  }

  /** One pass of ComputeHash's block loop: both lines, then the combination into the hash array. */
  method CompressInto(hash: array<word>, block: seq<word>)
    requires hash.Length == 4 && |block| == 16
    modifies hash
    ensures State(hash) == CompressBlock(old(State(hash)), block)
  {
    var h := State(hash);
    var aa, bb, cc, dd := LeftLine(block, h);
    var aaa, bbb, ccc, ddd := RightLine(block, h);
    var next := Combine(h, Regs(aa, bb, cc, dd), Regs(aaa, bbb, ccc, ddd));
    hash[0], hash[1], hash[2], hash[3] := next.a, next.b, next.c, next.d;
  }

  /** Absorbing the next block extends the prefix fold by one block. */
  lemma BlocksNext(h: Regs, x: seq<word>, i: nat)
    requires i + 16 <= |x| && i % 16 == 0
    ensures Blocks(h, x[..i + 16]) == CompressBlock(Blocks(h, x[..i]), x[i..i + 16])
  {
    var y := x[..i + 16];
    assert y[..|y| - 16] == x[..i] && y[|y| - 16..] == x[i..i + 16];
  }

  /** The block loop of ComputeHash: the hash array starts at the initial value and absorbs every block. */
  method HashBlocks(x: seq<word>) returns (hash: array<word>)
    requires |x| % 16 == 0
    ensures hash.Length == 4 && State(hash) == Blocks(Init, x)
  {
    hash := new word[4];
    hash[0], hash[1], hash[2], hash[3] := 0x67452301, 0xefcdab89, 0x98badcfe, 0x10325476;
    var i := 0;
    while i < |x|
      invariant 0 <= i <= |x| && i % 16 == 0
      invariant State(hash) == Blocks(Init, x[..i])
    {
      NextBlockFits(i, |x|);
      BlocksNext(Init, x, i);
      CompressInto(hash, x[i..i + 16]);
      i := i + 16;
    }
    assert x[..i] == x;
  }

  /** Ripemd128.ComputeHash: pads, splits into words and runs both lines over each block. */
  method ComputeHash(input: seq<byte>) returns (result: seq<byte>)
    requires |input| < 0x8000_0000
    ensures result == Digest(input)
  {
    var fullData := PadMessage(input);
    MultipleOf64(|fullData|);
    var x := Words(fullData);
    var hash := HashBlocks(x);
    result := WordBytes(hash[0]) + WordBytes(hash[1]) + WordBytes(hash[2]) + WordBytes(hash[3]);
  }
}
