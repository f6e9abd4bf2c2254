/**
 * Shared vocabulary of the MDict model: bytes, UTF-16 text, the outcomes that
 * the C# code signals with exceptions, the LINQ slicing operators the parsers
 * use, and the file read of FileScanner.
 */
module Common {

  type byte = bv8

  /** 256 to the power k: the range of k bytes. */
  function Pow256(k: nat): (p: nat)
    ensures p > 0
  {
    if k == 0 then 1 else 256 * Pow256(k - 1)
  }

  lemma DivBelow(n: nat, p: nat)
    requires n < 256 * p
    ensures n / 256 < p
  {
  }

  lemma DivMod256(n: nat)
    ensures n % 256 + 256 * (n / 256) == n
  {
  }

  /** A number below 256 converts to the byte of that value and back unchanged. */
  lemma ByteOfLow(m: nat)
    requires m < 256
    ensures (m as byte) as nat == m
  {
    assert (m as bv16) as nat == m;
  }

  /** The byte whose value is `n`: C#'s `(byte)n` for a value that fits. */
  function ByteOf(n: nat): (b: byte)
    requires n < 256
    ensures b as nat == n
  {
    ByteOfLow(n);
    n as byte
  }

  /** One UTF-16 code unit: a .NET `char`. */
  newtype CodeUnit = x: int | 0 <= x < 0x1_0000

  /** A .NET `string`: a sequence of UTF-16 code units. */
  type Text = seq<CodeUnit>

  /** The text of a Dafny string literal, code unit by code unit (exact for the BMP). */
  function Str(s: string): (r: Text)
    ensures |r| == |s|
  {
    seq(|s|, i requires 0 <= i < |s| => ((s[i] as int) % 0x1_0000) as CodeUnit)
  }

  datatype Option<T> = None | Some(value: T)

  /** The exceptions the C# code can raise; each becomes a failed Result. */
  datatype Error =
    | OutOfRange               // an index or range outside an array or list
    | NegativeLength           // `new byte[n]` with n < 0
    | NegativeOffset           // a seek before the start of the file
    | ScannerClosed            // a read through a closed FileScanner
    | TooLarge                 // a big-endian uint64 of 2^53 or more
    | Corrupt(what: string)    // one of the parser's own consistency checks
    | NeedPasscode             // encrypted key header and no passcode given
    | EncryptionNotSupported   // encrypted key header and a passcode given
    | UnknownCompression       // a block whose 4-byte magic names no method
    | FormatError              // int.Parse or float.Parse rejected its text
    | InflateError             // the zlib stream was malformed
    | EmptyWord                // WordCompare given an empty word
    | BothEmpty                // Ripemd128 Concat given two empty arrays

  datatype Result<T> = Success(value: T) | Failure(error: Error) {
    predicate IsFailure() { Failure? }
    function PropagateFailure<U>(): Result<U>
      requires Failure?
    {
      Failure(error)
    }
    function Extract(): T
      requires Success?
    {
      value
    }
  }

  function Min(a: int, b: int): int { if a <= b then a else b }

  /** C#'s `(int)` cast of a `long`: keep the low 32 bits as a two's complement value. */
  function ToInt32(x: int): (r: int)
    ensures -0x8000_0000 <= r < 0x8000_0000
    ensures (x - r) % 0x1_0000_0000 == 0
    ensures -0x8000_0000 <= x < 0x8000_0000 ==> r == x
  {
    var m := x % 0x1_0000_0000;
    if m < 0x8000_0000 then m else m - 0x1_0000_0000
  }

  /** LINQ `Skip(n)`: drop the first n elements; a count of zero or less drops nothing. */
  function Skip<T>(s: seq<T>, n: int): (r: seq<T>)
    ensures |r| == if n <= 0 then |s| else if n >= |s| then 0 else |s| - n
  {
    if n <= 0 then s else if n >= |s| then [] else s[n..]
  }

  /** LINQ `Take(n)`: keep at most the first n elements; a count of zero or less keeps none. */
  function Take<T>(s: seq<T>, n: int): (r: seq<T>)
    ensures |r| == if n <= 0 then 0 else Min(n, |s|)
  {
    if n <= 0 then [] else if n >= |s| then s else s[..n]
  }

  /** Skipping `i` and then taking `j - i` is the slice between `i` and `j`. */
  lemma TakeSkipSlice<T>(s: seq<T>, i: int, j: int)
    requires 0 <= i <= j <= |s|
    ensures Take(Skip(s, i), j - i) == s[i..j]
  {
  }

  /**
   * FileScanner.ReadBuffer over a file whose contents are `file`: `length`
   * bytes from `offset`, cut short at the end of the file.
   */
  function ReadBuffer(file: seq<byte>, offset: int, length: int): (r: Result<seq<byte>>)
    ensures r.Failure? <==> length < 0 || offset < 0
    ensures r.Success? ==> |r.value| == Min(length, if offset <= |file| then |file| - offset else 0)
    ensures r.Success? ==> forall i :: 0 <= i < |r.value| ==> r.value[i] == file[offset + i]
  {
    if length < 0 then Failure(NegativeLength)
    else if offset < 0 then Failure(NegativeOffset)
    else if offset >= |file| then Success([])
    else Success(file[offset..Min(offset + length, |file|)])
  }

  /** .NET's ordinal string comparison (`string.CompareOrdinal`), reduced to its sign. */
  function CompareOrdinal(a: Text, b: Text): (r: int)
    ensures r == 0 <==> a == b
    ensures -1 <= r <= 1
    decreases |a|
  {
    if a == [] then (if b == [] then 0 else -1)
    else if b == [] then 1
    else if a[0] < b[0] then -1
    else if a[0] > b[0] then 1
    else CompareOrdinal(a[1..], b[1..])
  }

  lemma {:induction false} CompareOrdinalAntisymmetric(a: Text, b: Text)
    ensures CompareOrdinal(a, b) == -CompareOrdinal(b, a)
    decreases |a|
  {
    if a != [] && b != [] && a[0] == b[0] {
      CompareOrdinalAntisymmetric(a[1..], b[1..]);
    }
  }

  lemma {:induction false} CompareOrdinalTransitive(a: Text, b: Text, c: Text)
    requires CompareOrdinal(a, b) <= 0 && CompareOrdinal(b, c) <= 0
    ensures CompareOrdinal(a, c) <= 0
    decreases |a|
  {
    if a != [] && b != [] && c != [] && a[0] == b[0] && b[0] == c[0] {
      CompareOrdinalTransitive(a[1..], b[1..], c[1..]);
    }
  }

  lemma {:induction false} CompareOrdinalBeforeStrict(a: Text, b: Text, c: Text)
    requires CompareOrdinal(a, b) <= 0 && CompareOrdinal(b, c) < 0
    ensures CompareOrdinal(a, c) < 0
    decreases |a|
  {
    if a != [] && b != [] && c != [] && a[0] == b[0] && b[0] == c[0] {
      CompareOrdinalBeforeStrict(a[1..], b[1..], c[1..]);
    }
  }

  lemma {:induction false} CompareOrdinalStrictBefore(a: Text, b: Text, c: Text)
    requires CompareOrdinal(a, b) < 0 && CompareOrdinal(b, c) <= 0
    ensures CompareOrdinal(a, c) < 0
    decreases |a|
  {
    if a != [] && b != [] && c != [] && a[0] == b[0] && b[0] == c[0] {
      CompareOrdinalStrictBefore(a[1..], b[1..], c[1..]);
    }
  }

  /** Ordinal order as a relation: `a` sorts no later than `b`. */
  predicate OrdinalLe(a: Text, b: Text) { CompareOrdinal(a, b) <= 0 }

  lemma OrdinalTotal(a: Text, b: Text)
    ensures OrdinalLe(a, b) || OrdinalLe(b, a)
  {
    CompareOrdinalAntisymmetric(a, b);
  }

  /** A prefix one longer is the shorter prefix and the next element. */
  lemma PrefixGrows<T>(s: seq<T>, k: nat)
    requires 0 < k <= |s|
    ensures s[..k] == s[..k - 1] + [s[k - 1]]
  {
  }
}
