/**
 * Reference semantics of the LZO1X decompressor in Lzo1x.cs, written as
 * functions over the decompressor's registers.
 *
 * The C# keeps the output twice: `outBuf` (bytes) and `out32` (32-bit words).
 * The JavaScript it was ported from made `out32` a view of the same memory; the
 * C# makes it a separate array, so the word-at-a-time fast paths write into a
 * copy that is never read back into the output.  Every function that copies
 * therefore takes `shared`: `false` is the C# as written (a word copy leaves
 * the four output bytes at their initial zero), `true` is the evidently
 * intended behaviour (the word copy writes the four bytes).
 */
module LzoSpec {
  import opened Common

  const OK := 0
  const EOF_FOUND := -999
  const BlockSize := 4096

  /**
   * The decompressor's registers.  `out` is `outBuf[0..op)`, so `op == |out|`;
   * every byte of `outBuf` at or past `op` is still zero.
   */
  datatype Machine = Machine(ip: nat, t: nat, mpos: int, out: seq<byte>)

  /** How Match's loop ends: `break` with the registers, or the end-of-stream marker. */
  datatype Exit = Break(m: Machine) | Eof(output: seq<byte>)

  /** C#'s `%` on `int`: the remainder takes the sign of the dividend. */
  function CsRem(a: int, b: nat): (r: int)
    requires b > 0
    ensures a >= 0 ==> r == a % b
    ensures a < 0 ==> -(b as int) < r <= 0
  {
    if a >= 0 then a % b else -((-a) % b)
  }

  /** C#'s `/` on `int`: the quotient is rounded toward zero. */
  function CsDiv(a: int, b: nat): (r: int)
    requires b > 0
    ensures a >= 0 ==> r == a / b
    ensures a < 0 ==> r * b <= 0 && r * b > a - b
  {
    if a >= 0 then a / b else -((-a) / b)
  }

  // ---------------------------------------------------------------------------
  // Copies

  /**
   * `k` times `outBuf[op++] = outBuf[m_pos++]`: a copy from earlier output
   * that may overlap the bytes it is writing.  A negative `m_pos` throws.
   */
  function CopyBytes(out: seq<byte>, mpos: int, k: nat): (r: Result<seq<byte>>)
    requires mpos < |out|
    ensures r.Success? ==> |r.value| == |out| + k
    ensures r.Failure? ==> r.error == OutOfRange
    ensures r.Success? && k > 0 ==> mpos >= 0
    decreases k
  {
    if k == 0 then Success(out)
    else if mpos < 0 then Failure(OutOfRange)
    else CopyBytes(out + [out[mpos]], mpos + 1, k - 1)
  }

  /** The registers of a word-copy loop: output, source position, bytes still to copy. */
  datatype Span = Span(out: seq<byte>, src: int, t: int)

  /** The word that an `out32` store leaves in `outBuf`. */
  function Word(shared: bool, source: seq<byte>): seq<byte>
    requires |source| == 4
  {
    if shared then source else [0, 0, 0, 0]
  }

  lemma AlignedRoom(out: seq<byte>, mpos: int)
    requires 0 <= mpos < |out| && |out| % 4 == 0 && mpos % 4 == 0
    ensures mpos + 4 <= |out|
  {
  }

  /**
   * CopyMatch's word loop: `while (t > 4) { out32[op/4] = out32[m_pos/4]; op += 4; m_pos += 4; t -= 4; }`.
   * Here `op` and `m_pos` are multiples of four, so `m_pos / 4` is negative
   * exactly when `m_pos` is, and then the index throws.
   */
  function CopyWords(out: seq<byte>, mpos: int, t: int, shared: bool): (r: Result<Span>)
    requires mpos < |out| && |out| % 4 == 0 && CsRem(mpos, 4) == 0
    ensures r.Success? ==> |r.value.out| == |out| + (t - r.value.t) && r.value.src == mpos + (t - r.value.t)
    ensures r.Failure? ==> r.error == OutOfRange
    ensures r.Success? ==> r.value.src < |r.value.out|
    ensures r.Success? && t > 4 ==> 1 <= r.value.t <= 4
    ensures r.Success? && t <= 4 ==> r.value == Span(out, mpos, t)
    decreases t
  {
    if t <= 4 then Success(Span(out, mpos, t))
    else if mpos < 0 then Failure(OutOfRange)
    else
      AlignedRoom(out, mpos);
      CopyWords(out + Word(shared, out[mpos..mpos + 4]), mpos + 4, t - 4, shared)
  }

  /**
   * CopyMatch: copy `t + 2` bytes from `m_pos`.  When more than four remain and
   * `op` and `m_pos` agree modulo four, the bytes up to the next word boundary
   * go one at a time, then whole words while more than four remain, then the
   * rest one at a time.
   */
  function CopyMatch(m: Machine, shared: bool): (r: Result<Machine>)
    requires m.mpos < |m.out|
    ensures r.Success? ==> r.value.ip == m.ip && r.value.t == 0
    ensures r.Success? ==> |r.value.out| == |m.out| + m.t + 2 && r.value.mpos < |r.value.out|
    ensures r.Failure? ==> r.error == OutOfRange
  {
    if m.t + 2 > 4 && CsRem(|m.out|, 4) == CsRem(m.mpos, 4) then AlignedMatch(m, shared)
    else ByteMatch(m)
  }

  /** CopyMatch's fast path: bytes to the word boundary, then WordsThenBytes. */
  function AlignedMatch(m: Machine, shared: bool): (r: Result<Machine>)
    requires m.mpos < |m.out| && CsRem(|m.out|, 4) == CsRem(m.mpos, 4) && m.t + 2 > 4
    ensures r.Success? ==> r.value.ip == m.ip && r.value.t == 0
    ensures r.Success? ==> |r.value.out| == |m.out| + m.t + 2 && r.value.mpos < |r.value.out|
    ensures r.Failure? ==> r.error == OutOfRange
  {
    var h := HeadLen(|m.out|);
    var head :- CopyBytes(m.out, m.mpos, h);
    AlignHead(|m.out|, m.mpos);
    WordsThenBytes(m.ip, head, m.mpos + h, m.t + 2 - h, shared)
  }

  /** The number of bytes from `op` up to the next multiple of four. */
  function HeadLen(n: nat): (h: nat)
    ensures h < 4 && (n + h) % 4 == 0
  {
    (4 - n % 4) % 4
  }

  /** When `op` and `m_pos` agree modulo four, copying HeadLen bytes aligns both. */
  lemma AlignHead(n: nat, mpos: int)
    requires CsRem(n, 4) == CsRem(mpos, 4)
    ensures CsRem(mpos + HeadLen(n), 4) == 0
  {
    if mpos < 0 {
      assert n % 4 == 0 && CsRem(mpos, 4) == 0;
    }
  }

  /** Whole words while more than four bytes remain, then the rest one at a time. */
  function WordsThenBytes(ip: nat, out: seq<byte>, mpos: int, t: nat, shared: bool): (r: Result<Machine>)
    requires mpos < |out| && |out| % 4 == 0 && CsRem(mpos, 4) == 0 && t >= 1
    ensures r.Success? ==> r.value.ip == ip && r.value.t == 0
    ensures r.Success? ==> |r.value.out| == |out| + t && r.value.mpos < |r.value.out|
    ensures r.Failure? ==> r.error == OutOfRange
  {
    var w :- CopyWords(out, mpos, t, shared);
    var tail :- CopyBytes(w.out, w.src, w.t);
    Success(Machine(ip, 0, w.src + w.t, tail))
  }

  /** CopyMatch's byte path: copy `t + 2` bytes, one at a time. */
  function ByteMatch(m: Machine): (r: Result<Machine>)
    requires m.mpos < |m.out|
    ensures r.Success? ==> r.value.ip == m.ip && r.value.t == 0
    ensures r.Success? ==> |r.value.out| == |m.out| + m.t + 2 && r.value.mpos < |r.value.out|
    ensures r.Failure? ==> r.error == OutOfRange
  {
    ByteCopy(m.ip, m.out, m.mpos, m.t + 2)
  }

  /** `t` bytes copied one at a time, leaving `t` at zero and `m_pos` past the source. */
  function ByteCopy(ip: nat, out: seq<byte>, mpos: int, t: nat): (r: Result<Machine>)
    requires mpos < |out|
    ensures r.Success? ==> r.value.ip == ip && r.value.t == 0
    ensures r.Success? ==> |r.value.out| == |out| + t && r.value.mpos < |r.value.out|
    ensures r.Failure? ==> r.error == OutOfRange
  {
    var o :- CopyBytes(out, mpos, t);
    Success(Machine(ip, 0, mpos + t, o))
  }

  /** `do { outBuf[op++] = buf[ip++]; } while (--t > 0)` for a count `t` of at least one. */
  function Literals(buf: seq<byte>, m: Machine): (r: Result<Machine>)
    requires m.ip <= |buf| && m.t >= 1
    ensures r.Success? <==> m.ip + m.t <= |buf|
    ensures r.Failure? ==> r.error == OutOfRange
    ensures r.Success? ==> r.value == Machine(m.ip + m.t, 0, m.mpos, m.out + buf[m.ip..m.ip + m.t])
  {
    if m.ip + m.t > |buf| then Failure(OutOfRange)
    else Success(Machine(m.ip + m.t, 0, m.mpos, m.out + buf[m.ip..m.ip + m.t]))
  }

  /**
   * CopyFromBuf's word loop: `while (t > 4) { out32[op/4] = BitConverter.ToUInt32(buf, ip); ... }`.
   * The conversion throws when fewer than four input bytes remain.
   */
  function LiteralWords(buf: seq<byte>, ip: nat, out: seq<byte>, t: int, shared: bool): (r: Result<Span>)
    requires ip <= |buf|
    ensures r.Success? ==> |r.value.out| == |out| + (t - r.value.t) && r.value.src == ip + (t - r.value.t)
    ensures r.Failure? ==> r.error == OutOfRange
    ensures r.Success? ==> 0 <= r.value.src <= |buf|
    ensures r.Success? && t > 4 ==> 1 <= r.value.t <= 4
    ensures r.Success? && t <= 4 ==> r.value == Span(out, ip, t)
    decreases t
  {
    if t <= 4 then Success(Span(out, ip, t))
    else if ip + 4 > |buf| then Failure(OutOfRange)
    else LiteralWords(buf, ip + 4, out + Word(shared, buf[ip..ip + 4]), t - 4, shared)
  }

  /** CopyFromBuf: copy `t` literal bytes from the input, with the same fast path as CopyMatch. */
  function CopyFromBuf(buf: seq<byte>, m: Machine, shared: bool): (r: Result<Machine>)
    requires m.ip <= |buf| && m.t >= 1
    ensures r.Success? ==> r.value.ip == m.ip + m.t <= |buf| && r.value.t == 0
    ensures r.Success? ==> |r.value.out| == |m.out| + m.t && r.value.mpos == m.mpos
  {
    var t := m.t;
    if t > 4 && |m.out| % 4 == m.ip % 4 then
      var h := HeadLen(|m.out|);
      if m.ip + h > |buf| then Failure(OutOfRange)
      else
        var w :- LiteralWords(buf, m.ip + h, m.out + buf[m.ip..m.ip + h], t - h, shared);
        Literals(buf, Machine(w.src, w.t, m.mpos, w.out))
    else Literals(buf, m)
  }

  // ---------------------------------------------------------------------------
  // Length fields and the small steps of Match

  /** The result of reading a length field: where the input resumes, and the length. */
  datatype Run = Run(ip: nat, len: nat)

  /**
   * `while (buf[ip] == 0) { t += 255; ip++; } t += base + buf[ip++];`:
   * each zero byte adds 255, the first non-zero byte ends the field.
   */
  function ZeroRun(buf: seq<byte>, ip: nat, t: nat, base: nat): (r: Result<Run>)
    ensures r.Success? ==> ip < r.value.ip <= |buf| && r.value.len > t + base
    decreases |buf| - ip
  {
    if ip >= |buf| then Failure(OutOfRange)
    else if buf[ip] == 0 then ZeroRun(buf, ip + 1, t + 255, base)
    else Success(Run(ip + 1, t + base + buf[ip] as nat))
  }

  /** MatchNext: copy one to three literal bytes (as many as `t` says) and read the next instruction into `t`. */
  function MatchNext(buf: seq<byte>, m: Machine): (r: Result<Machine>)
    requires m.ip <= |buf|
    ensures r.Success? ==> m.ip + 1 < r.value.ip <= |buf| && r.value.mpos == m.mpos
    ensures r.Success? ==> |m.out| < |r.value.out| <= |m.out| + 3
  {
    var n := if m.t > 2 then 3 else if m.t > 1 then 2 else 1;
    if m.ip + n >= |buf| then Failure(OutOfRange)
    else Success(Machine(m.ip + n + 1, buf[m.ip + n] as nat, m.mpos, m.out + buf[m.ip..m.ip + n]))
  }

  /**
   * MatchDone: the two low bits of the byte two behind `ip` (`& 3`) count the
   * literals that follow a match.
   */
  function MatchDone(buf: seq<byte>, m: Machine): (r: Result<Machine>)
    requires m.ip <= |buf|
    ensures r.Success? ==> r.value == m.(t := r.value.t) && r.value.t < 4
  {
    if m.ip < 2 then Failure(OutOfRange)
    else Success(m.(t := buf[m.ip - 2] as nat % 4))
  }

  /** What one turn of Match's loop decodes before the copy. */
  datatype Step =
    | Pending(m: Machine)   // a match for CopyMatch: `t + 2` bytes from `m_pos`
    | Copied(m: Machine)    // the two-byte match of the last branch, already copied
    | EndOfStream           // a marker whose distance is zero

  /** Distance of a match whose instruction byte is at least 64 (two bytes). */
  function M2Distance(t: nat, b: byte): nat { 1 + (t / 4) % 8 + b as nat * 8 }

  /** Distance field of a match whose instruction byte is 16..63 (two trailing bytes). */
  function Distance14(b0: byte, b1: byte): nat { b0 as nat / 4 + b1 as nat * 64 }

  /** Bit 3 of the instruction byte of a far match, worth 0x4000 in the distance: `(t & 8) << 11`. */
  function FarBit(t: nat): nat { (t / 8) % 2 * 0x4000 }

  /** Distance of the two-byte match in Match's last branch (instruction byte below 16). */
  function M1Distance(t: nat, b: byte): nat { 1 + t / 4 + b as nat * 4 }

  /**
   * The length part of an instruction: the bits of `t` under `mask`, or, when
   * those are zero, a length field after the instruction read with `base`.
   */
  function LengthField(buf: seq<byte>, ip: nat, t: nat, mask: nat, base: nat): (r: Result<Run>)
    requires mask > 0
    ensures r.Success? ==> ip <= r.value.ip <= |buf| || (t % mask != 0 && r.value == Run(ip, t % mask))
    ensures r.Success? && t % mask == 0 ==> ip < r.value.ip <= |buf|
  {
    if t % mask == 0 then ZeroRun(buf, ip, 0, base) else Success(Run(ip, t % mask))
  }

  /** Instruction 64..255: a match of `(t >> 5) + 1` bytes; distance bits in `t` and one more byte. */
  function NearStep(buf: seq<byte>, m: Machine): (r: Result<Step>)
    requires m.ip <= |buf| && m.t >= 64
  {
    if m.ip >= |buf| then Failure(OutOfRange)
    else Success(Pending(Machine(m.ip + 1, m.t / 32 - 1, |m.out| - M2Distance(m.t, buf[m.ip]), m.out)))
  }

  /** Instruction 32..63: a match within 0x4000, its length in the low five bits or a length field. */
  function MidStep(buf: seq<byte>, m: Machine): (r: Result<Step>)
    requires m.ip <= |buf| && 32 <= m.t < 64
  {
    var run :- LengthField(buf, m.ip, m.t, 32, 31);
    if run.ip + 2 > |buf| then Failure(OutOfRange)
    else Success(Pending(Machine(run.ip + 2, run.len, |m.out| - 1 - Distance14(buf[run.ip], buf[run.ip + 1]), m.out)))
  }

  /** Instruction 16..31: a match beyond 0x4000, or the end-of-stream marker when the distance is zero. */
  function FarStep(buf: seq<byte>, m: Machine): (r: Result<Step>)
    requires m.ip <= |buf| && 16 <= m.t < 32
  {
    var run :- LengthField(buf, m.ip, m.t, 8, 7);
    if run.ip + 2 > |buf| then Failure(OutOfRange)
    else
      var d := FarBit(m.t) + Distance14(buf[run.ip], buf[run.ip + 1]);
      if d == 0 then Success(EndOfStream)
      else Success(Pending(Machine(run.ip + 2, run.len, |m.out| - d - 0x4000, m.out)))
  }

  /** Instruction 0..15 inside Match: a two-byte match, copied at once. */
  function ShortStep(buf: seq<byte>, m: Machine): (r: Result<Step>)
    requires m.ip <= |buf| && m.t < 16
  {
    if m.ip >= |buf| then Failure(OutOfRange)
    else
      var mpos := |m.out| - M1Distance(m.t, buf[m.ip]);
      var out :- CopyBytes(m.out, mpos, 2);
      Success(Copied(Machine(m.ip + 1, m.t, mpos + 1, out)))
  }

  /** One turn of Match's loop up to the copy, by the range of the instruction byte `t`. */
  function MatchStep(buf: seq<byte>, m: Machine): (r: Result<Step>)
    requires m.ip <= |buf|
    ensures r.Success? && !r.value.EndOfStream? ==> m.ip < r.value.m.ip <= |buf|
    ensures r.Success? && r.value.Pending? ==> r.value.m.mpos < |r.value.m.out| && r.value.m.out == m.out
  {
    if m.t >= 64 then NearStep(buf, m)
    else if m.t >= 32 then MidStep(buf, m)
    else if m.t >= 16 then FarStep(buf, m)
    else ShortStep(buf, m)
  }

  /** Match: decode and copy matches until one is followed by no literal (break) or the marker is met. */
  function Match(buf: seq<byte>, m: Machine, shared: bool): (r: Result<Exit>)
    requires m.ip <= |buf|
    ensures r.Success? && r.value.Break? ==> m.ip < r.value.m.ip <= |buf|
    decreases |buf| - m.ip
  {
    var step :- MatchStep(buf, m);
    if step.EndOfStream? then Success(Eof(m.out))
    else
      var m1 :- if step.Pending? then CopyMatch(step.m, shared) else Success(step.m);
      var m2 :- MatchDone(buf, m1);
      if m2.t == 0 then Success(Break(m2))
      else
        var m3 :- MatchNext(buf, m2);
        Match(buf, m3, shared)
  }

  // ---------------------------------------------------------------------------
  // The main loop of Decompress

  /** A literal run whose instruction byte is below 16: its length field, plus three. */
  function LiteralRun(buf: seq<byte>, m: Machine, shared: bool): (r: Result<Machine>)
    requires m.ip < |buf| && buf[m.ip] as nat < 16
    ensures r.Success? ==> m.ip < r.value.ip <= |buf|
  {
    var run :- LengthField(buf, m.ip + 1, buf[m.ip] as nat, 16, 15);
    CopyFromBuf(buf, Machine(run.ip, run.len + 3, m.mpos, m.out), shared)
  }

  /**
   * The three-byte match after a literal run, from the registers just past
   * its instruction byte `m.t`: one more distance byte, then three bytes
   * copied from `0x0801 + (t >> 2) + (b << 2)` back.
   */
  function ThreeStep(buf: seq<byte>, m: Machine): (r: Result<Machine>)
    requires m.ip <= |buf|
    ensures r.Success? ==> r.value.ip == m.ip + 1 <= |buf| && |r.value.out| == |m.out| + 3
  {
    if m.ip >= |buf| then Failure(OutOfRange)
    else
      var mpos := |m.out| - (1 + 0x0800) - m.t / 4 - buf[m.ip] as int * 4;
      var out :- CopyBytes(m.out, mpos, 3);
      Success(Machine(m.ip + 1, m.t, mpos + 2, out))
  }

  /** What is left of Match after the copy of a match has left the registers at `m1`. */
  function MatchTail(buf: seq<byte>, m1: Machine, shared: bool): (r: Result<Exit>)
    requires m1.ip <= |buf|
    ensures r.Success? && r.value.Break? ==> m1.ip <= r.value.m.ip <= |buf|
  {
    var m2 :- MatchDone(buf, m1);
    if m2.t == 0 then Success(Break(m2))
    else
      var m3 :- MatchNext(buf, m2);
      Match(buf, m3, shared)
  }

  /** The three-byte match after a literal run with what follows it, from just past its instruction byte. */
  function TrailingMatch(buf: seq<byte>, m: Machine, shared: bool): (r: Result<Exit>)
    requires m.ip <= |buf|
    ensures r.Success? && r.value.Break? ==> m.ip < r.value.m.ip <= |buf|
  {
    var m1 :- ThreeStep(buf, m);
    MatchTail(buf, m1, shared)
  }

  /**
   * The second half of Decompress's loop, after a literal run: a three-byte
   * match from beyond 0x0800 (instruction byte below 16), then Match.
   */
  function AfterLiterals(buf: seq<byte>, m: Machine, shared: bool): (r: Result<Exit>)
    requires m.ip <= |buf|
    ensures r.Success? && r.value.Break? ==> m.ip < r.value.m.ip <= |buf|
  {
    if m.ip >= |buf| then Failure(OutOfRange)
    else
      var t := buf[m.ip] as nat;
      if t < 16 then TrailingMatch(buf, Machine(m.ip + 1, t, m.mpos, m.out), shared)
      else Match(buf, Machine(m.ip + 1, t, m.mpos, m.out), shared)
  }

  /**
   * One turn of Decompress's `while (true)` loop: a match for an instruction
   * of 16 or more, otherwise a literal run (not when `skip`, which is
   * `skipToFirstLiteralFun`) and the instruction after it.
   */
  function Turn(buf: seq<byte>, m: Machine, skip: bool, shared: bool): (r: Result<Exit>)
    requires m.ip <= |buf|
    ensures r.Success? && r.value.Break? ==> m.ip < r.value.m.ip <= |buf|
  {
    if !skip && m.ip >= |buf| then Failure(OutOfRange)
    else if !skip && buf[m.ip] as nat >= 16 then
      Match(buf, Machine(m.ip + 1, buf[m.ip] as nat, m.mpos, m.out), shared)
    else
      var m1 :- if skip then Success(m) else LiteralRun(buf, m, shared);
      AfterLiterals(buf, m1, shared)
  }

  /** Decompress's `while (true)` loop: turns until one reaches the end-of-stream marker. */
  function Loop(buf: seq<byte>, m: Machine, skip: bool, shared: bool): (r: Result<seq<byte>>)
    requires m.ip <= |buf|
    decreases |buf| - m.ip
  {
    var e :- Turn(buf, m, skip, shared);
    match e
    case Eof(out) => Success(out)
    case Break(m2) => Loop(buf, m2, false, shared)
  }

  /**
   * Decompress: the output is the bytes written before the end-of-stream
   * marker; any index outside the input, or before the start of the output,
   * throws.
   */
  function Decompress(buf: seq<byte>, shared: bool): (r: Result<seq<byte>>)
  {
    if |buf| == 0 then Failure(OutOfRange)
    else if buf[0] as nat > 17 then
      var m := Machine(1, buf[0] as nat - 17, 0, []);
      if m.t < 4 then
        var m1 :- MatchNext(buf, m);
        var e :- Match(buf, m1, shared);
        match e
        case Eof(out) => Success(out)
        case Break(m2) => Loop(buf, m2, false, shared)
      else
        var m1 :- CopyFromBuf(buf, m, shared);
        Loop(buf, m1, true, shared)
    else Loop(buf, Machine(0, 0, 0, []), false, shared)
  }

  // ---------------------------------------------------------------------------
  // What the copies mean

  /**
   * A successful CopyBytes keeps the output so far and makes each new byte
   * equal to the byte `|out| - mpos` positions before it: an LZ77 copy, with
   * overlap.  It fails exactly when it starts before the output.
   */
  lemma {:induction false} CopyBytesOverlap(out: seq<byte>, mpos: int, k: nat)
    requires mpos < |out|
    ensures CopyBytes(out, mpos, k).Success? <==> k == 0 || mpos >= 0
    ensures CopyBytes(out, mpos, k).Success? ==>
      var r := CopyBytes(out, mpos, k).value;
      r[..|out|] == out && forall i :: |out| <= i < |r| ==> r[i] == r[i - (|out| - mpos)]
    decreases k
  {
    if k > 0 && mpos >= 0 {
      var out' := out + [out[mpos]];
      CopyBytesOverlap(out', mpos + 1, k - 1);
      var r := CopyBytes(out, mpos, k).value;
      assert r == CopyBytes(out', mpos + 1, k - 1).value;
      assert r[..|out'|] == out';
      assert r[..|out|] == out by {
        assert r[..|out|] == r[..|out'|][..|out|];
      }
      forall i | |out| <= i < |r|
        ensures r[i] == r[i - (|out| - mpos)]
      {
        if i == |out| {
          assert r[i] == out'[|out|];
        }
      }
    }
  }

  /** Copying `h` bytes and then `n - h` more is copying `n`. */
  lemma {:induction false} CopyBytesThen(out: seq<byte>, mpos: int, h: nat, n: nat)
    requires mpos < |out| && h <= n
    ensures CopyBytes(out, mpos, h).Failure? ==> CopyBytes(out, mpos, n).Failure?
    ensures CopyBytes(out, mpos, h).Success? ==>
      CopyBytes(out, mpos, n) == CopyBytes(CopyBytes(out, mpos, h).value, mpos + h, n - h)
    decreases h
  {
    if h > 0 && mpos >= 0 {
      CopyBytesThen(out + [out[mpos]], mpos + 1, h - 1, n - 1);
    }
  }

  /** Without overlap, copying `j` bytes appends the `j` source bytes. */
  lemma {:induction false} CopyBytesSplit(out: seq<byte>, mpos: int, j: nat, k: nat)
    requires 0 <= mpos < |out| && mpos + j <= |out| && j <= k
    ensures CopyBytes(out, mpos, k) == CopyBytes(out + out[mpos..mpos + j], mpos + j, k - j)
    decreases j
  {
    if j == 0 {
      assert out + out[mpos..mpos] == out;
    } else {
      var out' := out + [out[mpos]];
      CopyBytesSplit(out', mpos + 1, j - 1, k - 1);
      assert out'[mpos + 1..mpos + j] == out[mpos + 1..mpos + j];
      assert out' + out'[mpos + 1..mpos + j] == out + out[mpos..mpos + j];
    }
  }

  /** With a shared buffer, the word loop and the byte loop after it copy what the byte loop alone would. */
  lemma {:induction false} SharedWordsAreBytes(out: seq<byte>, mpos: int, t: int)
    requires mpos < |out| && |out| % 4 == 0 && CsRem(mpos, 4) == 0 && t >= 1
    ensures CopyWords(out, mpos, t, true).Failure? ==> CopyBytes(out, mpos, t).Failure?
    ensures CopyWords(out, mpos, t, true).Success? ==>
      var w := CopyWords(out, mpos, t, true).value;
      CopyBytes(w.out, w.src, w.t) == CopyBytes(out, mpos, t)
    decreases t
  {
    if t > 4 && mpos >= 0 {
      AlignedRoom(out, mpos);
      CopyBytesSplit(out, mpos, 4, t);
      SharedWordsAreBytes(out + out[mpos..mpos + 4], mpos + 4, t - 4);
    }
  }

  /**
   * The intended behaviour: with `out32` a view of `outBuf`, CopyMatch's
   * fast path changes nothing that the byte-at-a-time copy would produce.
   */
  lemma SharedCopyMatchIsBytewise(m: Machine)
    requires m.mpos < |m.out|
    ensures CopyMatch(m, true) == ByteMatch(m)
  {
    if m.t + 2 > 4 && CsRem(|m.out|, 4) == CsRem(m.mpos, 4) {
      SharedAlignedMatch(m);
    }
  }

  lemma SharedAlignedMatch(m: Machine)
    requires m.mpos < |m.out| && CsRem(|m.out|, 4) == CsRem(m.mpos, 4) && m.t + 2 > 4
    ensures AlignedMatch(m, true) == ByteMatch(m)
  {
    var h := HeadLen(|m.out|);
    AlignedMatchUnfold(m, true);
    ByteCopyThen(m.ip, m.out, m.mpos, h, m.t + 2);
    var head := CopyBytes(m.out, m.mpos, h);
    if head.Success? {
      SharedWordsThenBytes(m.ip, head.value, m.mpos + h, m.t + 2 - h);
    }
  }

  /** AlignedMatch after its head copy. */
  lemma AlignedMatchUnfold(m: Machine, shared: bool)
    requires m.mpos < |m.out| && CsRem(|m.out|, 4) == CsRem(m.mpos, 4) && m.t + 2 > 4
    ensures CopyBytes(m.out, m.mpos, HeadLen(|m.out|)).Failure? ==> AlignedMatch(m, shared) == Failure(OutOfRange)
    ensures CopyBytes(m.out, m.mpos, HeadLen(|m.out|)).Success? ==> CsRem(m.mpos + HeadLen(|m.out|), 4) == 0
    ensures CopyBytes(m.out, m.mpos, HeadLen(|m.out|)).Success? ==>
      AlignedMatch(m, shared) == WordsThenBytes(m.ip, CopyBytes(m.out, m.mpos, HeadLen(|m.out|)).value,
                                                m.mpos + HeadLen(|m.out|), m.t + 2 - HeadLen(|m.out|), shared)
  {
    AlignHead(|m.out|, m.mpos);
  }

  /** ByteCopy of `n` bytes is ByteCopy of the last `n - h` after copying `h`. */
  lemma ByteCopyThen(ip: nat, out: seq<byte>, mpos: int, h: nat, n: nat)
    requires mpos < |out| && h <= n
    ensures CopyBytes(out, mpos, h).Failure? ==> ByteCopy(ip, out, mpos, n) == Failure(OutOfRange)
    ensures CopyBytes(out, mpos, h).Success? ==>
      ByteCopy(ip, out, mpos, n) == ByteCopy(ip, CopyBytes(out, mpos, h).value, mpos + h, n - h)
  {
    CopyBytesThen(out, mpos, h, n);
  }

  /** With a shared buffer, WordsThenBytes is the byte-at-a-time copy. */
  lemma SharedWordsThenBytes(ip: nat, out: seq<byte>, mpos: int, t: nat)
    requires mpos < |out| && |out| % 4 == 0 && CsRem(mpos, 4) == 0 && t >= 1
    ensures WordsThenBytes(ip, out, mpos, t, true) == ByteCopy(ip, out, mpos, t)
  {
    SharedWordsAreBytes(out, mpos, t);
    var w := CopyWords(out, mpos, t, true);
    if w.Success? {
      assert w.value.src + w.value.t == mpos + t;
    }
  }

  /** The literal words and the literal bytes after them read what the byte loop alone would. */
  lemma {:induction false} SharedLiteralWordsAreBytes(buf: seq<byte>, ip: nat, out: seq<byte>, t: int, mpos: int)
    requires ip <= |buf| && t >= 1
    ensures LiteralWords(buf, ip, out, t, true).Failure? ==> ip + t > |buf|
    ensures LiteralWords(buf, ip, out, t, true).Success? ==>
      var w := LiteralWords(buf, ip, out, t, true).value;
      Literals(buf, Machine(w.src, w.t, mpos, w.out)) == Literals(buf, Machine(ip, t, mpos, out))
    decreases t
  {
    if t > 4 && ip + 4 <= |buf| {
      SharedLiteralWordsAreBytes(buf, ip + 4, out + buf[ip..ip + 4], t - 4, mpos);
      if ip + t <= |buf| {
        assert out + buf[ip..ip + 4] + buf[ip + 4..ip + t] == out + buf[ip..ip + t];
      }
    }
  }

  /** The intended behaviour of CopyFromBuf: the `t` input bytes are appended to the output. */
  lemma SharedCopyFromBufIsBytewise(buf: seq<byte>, m: Machine)
    requires m.ip <= |buf| && m.t >= 1
    ensures CopyFromBuf(buf, m, true) == Literals(buf, m)
  {
    var t := m.t;
    if t > 4 && |m.out| % 4 == m.ip % 4 {
      var h := HeadLen(|m.out|);
      if m.ip + h <= |buf| {
        var out1 := m.out + buf[m.ip..m.ip + h];
        SharedLiteralWordsAreBytes(buf, m.ip + h, out1, t - h, m.mpos);
        if m.ip + t <= |buf| {
          assert out1 + buf[m.ip + h..m.ip + t] == m.out + buf[m.ip..m.ip + t];
        }
      }
    }
  }

  /** The C# as written: an aligned match of eight bytes leaves a zero word where the copy belongs. */
  lemma AsWrittenWordCopyLosesBytes()
    ensures CopyMatch(Machine(7, 6, 0, [97, 98, 99, 100]), false)
         == Success(Machine(7, 0, 8, [97, 98, 99, 100, 0, 0, 0, 0, 0, 0, 0, 0]))
    ensures CopyMatch(Machine(7, 6, 0, [97, 98, 99, 100]), true)
         == Success(Machine(7, 0, 8, [97, 98, 99, 100, 97, 98, 99, 100, 97, 98, 99, 100]))
  {
    var out: seq<byte> := [97, 98, 99, 100];
    assert out[0..4] == out;
    var z := out + [0, 0, 0, 0];
    assert CopyWords(z, 4, 4, false) == Success(Span(z, 4, 4));
    assert CopyWords(out, 0, 8, false) == Success(Span(z, 4, 4));
    CopyBytesSplit(z, 4, 4, 4);
    assert z[4..8] == [0, 0, 0, 0];
    assert z + z[4..8] == [97, 98, 99, 100, 0, 0, 0, 0, 0, 0, 0, 0];
    var d := out + out;
    assert CopyWords(d, 4, 4, true) == Success(Span(d, 4, 4));
    assert CopyWords(out, 0, 8, true) == Success(Span(d, 4, 4));
    CopyBytesSplit(d, 4, 4, 4);
    assert d[4..8] == out;
    assert d + d[4..8] == [97, 98, 99, 100, 97, 98, 99, 100, 97, 98, 99, 100];
  }

  // ---------------------------------------------------------------------------
  // The compressor's formats, and the decoder reading them back

  /** A length field: a zero byte for each 255 beyond the first, then the rest (1..255). */
  function LengthBytes(n: nat): (r: seq<byte>)
    requires n >= 1
    ensures |r| >= 1
    decreases n
  {
    if n > 255 then [0] + LengthBytes(n - 255) else [ByteOf(n)]
  }

  /** A length field starts with a zero byte exactly when more than 255 remains, and goes on with the field for the rest. */
  lemma LengthBytesHead(n: nat)
    requires n >= 1
    ensures n > 255 ==> LengthBytes(n)[0] == 0 && LengthBytes(n)[1..] == LengthBytes(n - 255)
    ensures n <= 255 ==> LengthBytes(n) == [ByteOf(n)]
  {
  }

  /** A slice of `buf` that holds `e` holds its first byte at `ip` and the rest after it. */
  lemma SliceHead(buf: seq<byte>, ip: nat, e: seq<byte>)
    requires |e| >= 1 && ip + |e| <= |buf| && buf[ip..ip + |e|] == e
    ensures buf[ip] == e[0] && buf[ip + 1..ip + |e|] == e[1..]
  {
    assert buf[ip] == buf[ip..ip + |e|][0];
    assert buf[ip + 1..ip + |e|] == buf[ip..ip + |e|][1..];
  }

  /** ZeroRun reads back the length a length field holds. */
  lemma {:induction false} ZeroRunReadsLength(buf: seq<byte>, ip: nat, t: nat, base: nat, n: nat)
    requires n >= 1 && ip + |LengthBytes(n)| <= |buf| && buf[ip..ip + |LengthBytes(n)|] == LengthBytes(n)
    ensures ZeroRun(buf, ip, t, base) == Success(Run(ip + |LengthBytes(n)|, t + base + n))
    decreases n
  {
    LengthBytesHead(n);
    SliceHead(buf, ip, LengthBytes(n));
    if n > 255 {
      ZeroRunReadsLength(buf, ip + 1, t + 255, base, n - 255);
    }
  }

  /** The length field after an instruction whose low bits hold lengths up to `base`; none if `v` fits. */
  function LongLength(v: nat, base: nat): (r: seq<byte>)
  {
    if v <= base then [] else LengthBytes(v - base)
  }

  /**
   * LengthField reads back `v`: from the instruction's low bits when it fits
   * under the mask `base + 1`, else from the length field that follows.
   */
  lemma LengthFieldReads(buf: seq<byte>, ip: nat, x: nat, base: nat, v: nat)
    requires 1 <= v && x % (base + 1) == (if v <= base then v else 0)
    requires ip + |LongLength(v, base)| <= |buf| && buf[ip..ip + |LongLength(v, base)|] == LongLength(v, base)
    ensures LengthField(buf, ip, x, base + 1, base) == Success(Run(ip + |LongLength(v, base)|, v))
  {
    if v > base {
      ZeroRunReadsLength(buf, ip, 0, base, v - base);
    }
  }

  /** The two parts of a slice of `buf` that holds `a + b`. */
  lemma SliceParts(buf: seq<byte>, ip: nat, a: seq<byte>, b: seq<byte>)
    requires ip + |a| + |b| <= |buf| && buf[ip..ip + |a| + |b|] == a + b
    ensures buf[ip..ip + |a|] == a && buf[ip + |a|..ip + |a| + |b|] == b
  {
    assert buf[ip..ip + |a|] == buf[ip..ip + |a| + |b|][..|a|];
    assert buf[ip + |a|..ip + |a| + |b|] == buf[ip..ip + |a| + |b|][|a|..];
  }

  /** The instruction byte of a literal run that does not start the stream (t >= 4). */
  function LiteralHeader(t: nat): (r: seq<byte>)
    requires t >= 4
  {
    [ByteOf(if t <= 18 then t - 3 else 0)] + LongLength(t - 3, 15)
  }

  /** The instruction that opens a stream with `t` literal bytes (1 <= t <= 238). */
  function FirstLiteralHeader(t: nat): (r: seq<byte>)
    requires 1 <= t <= 238
  {
    [ByteOf(17 + t)]
  }

  /** The instruction byte of a match within 0x4000: 32 plus the length when it fits in five bits. */
  function MidInstr(len: nat): (b: byte)
    requires len >= 4
  {
    ByteOf(32 + if len <= 33 then len - 2 else 0)
  }

  /** The instruction byte of a far match: 16, bit 3 for bit 14 of the distance, and a length that fits. */
  function FarInstr(len: nat, f: nat): (b: byte)
    requires len >= 4 && f < 2
  {
    ByteOf(16 + 8 * f + if len <= 9 then len - 2 else 0)
  }

  /** A match of 3..8 bytes within 0x0800: length and low distance bits in one byte, the rest in the next. */
  function NearBytes(len: nat, off: nat): (r: seq<byte>)
    requires 3 <= len <= 8 && 1 <= off <= 0x0800
  {
    [ByteOf((len - 1) * 32 + (off - 1) % 8 * 4), ByteOf((off - 1) / 8)]
  }

  /** The encoding of a match of `len` bytes at distance `off`, in the three forms the compressor emits. */
  function MatchBytes(len: nat, off: nat): (r: seq<byte>)
    requires 4 <= len && 1 <= off < 0xC000
  {
    if len <= 8 && off <= 0x0800 then NearBytes(len, off)
    else if off <= 0x4000 then MidBytes(len, off)
    else FarBytes(len, off)
  }

  /** A match within 0x4000: instruction 32..63, an optional length field, two distance bytes. */
  function MidBytes(len: nat, off: nat): (r: seq<byte>)
    requires 4 <= len && 1 <= off <= 0x4000
  {
    [MidInstr(len)] + LongLength(len - 2, 31) + DistanceBytes(off - 1)
  }

  /** A match from 0x4001 to 0xBFFF back: instruction 16..31, an optional length field, two distance bytes. */
  function FarBytes(len: nat, off: nat): (r: seq<byte>)
    requires 4 <= len && 0x4000 < off < 0xC000
  {
    var o := off - 0x4000;
    [FarInstr(len, (o / 0x4000) % 2)] + LongLength(len - 2, 7) + DistanceBytes(o)
  }

  /** `(byte)(d << 2)` and `(byte)(d >> 6)`: the two distance bytes of the 16..63 forms. */
  function DistanceBytes(d: nat): (r: seq<byte>)
  {
    [ByteOf(d * 4 % 256), ByteOf(d / 64 % 256)]
  }

  lemma NearFields(a: nat, r: nat)
    requires r < 8
    ensures (32 * a + 4 * r) / 32 == a && ((32 * a + 4 * r) / 4) % 8 == r
  {
    assert (32 * a + 4 * r) / 4 == 8 * a + r;
  }

  /** A match of at most 8 bytes within 0x0800 is two bytes, the first at least 64. */
  lemma NearMatchDecodes(len: nat, off: nat, buf: seq<byte>, ip: nat, mpos: int, out: seq<byte>)
    requires 4 <= len <= 8 && 1 <= off <= 0x0800
    requires ip < |buf| && buf[ip] == NearBytes(len, off)[1]
    ensures NearBytes(len, off)[0] as nat >= 64
    ensures NearStep(buf, Machine(ip, NearBytes(len, off)[0] as nat, mpos, out))
         == Success(Pending(Machine(ip + 1, len - 2, |out| - off, out)))
  {
    var d := off - 1;
    var q, r := d / 8, d % 8;
    assert d == 8 * q + r;
    var x := (len - 1) * 32 + r * 4;
    var e := NearBytes(len, off);
    assert e[0] as nat == x && buf[ip] as nat == q;
    NearFields(len - 1, r);
    assert x / 32 - 1 == len - 2 && 1 + (x / 4) % 8 + buf[ip] as nat * 8 == off;
    NearStepReads(buf, ip, x, mpos, out);
  }

  /** NearStep reads the length from bits 5..7 and the distance from bits 2..4 and the next byte. */
  lemma NearStepReads(buf: seq<byte>, ip: nat, x: nat, mpos: int, out: seq<byte>)
    requires ip < |buf| && x >= 64
    ensures NearStep(buf, Machine(ip, x, mpos, out))
         == Success(Pending(Machine(ip + 1, x / 32 - 1, |out| - (1 + (x / 4) % 8 + buf[ip] as nat * 8), out)))
  {
  }

  lemma MidFields(len: nat)
    requires 4 <= len
    ensures 32 <= MidInstr(len) as nat < 64
    ensures MidInstr(len) as nat % 32 == if len - 2 <= 31 then len - 2 else 0
  {
    var k := if len <= 33 then len - 2 else 0;
    assert MidInstr(len) as nat == 32 + k;
  }

  /**
   * Two distance bytes in the input read back the low 14 bits of the distance
   * `d = 0x4000 * f + low`.
   */
  lemma DistanceAt(buf: seq<byte>, k: nat, d: nat, f: nat, low: nat)
    requires k + 2 <= |buf| && buf[k..k + 2] == DistanceBytes(d)
    requires d == 0x4000 * f + low && low < 0x4000
    ensures Distance14(buf[k], buf[k + 1]) == low
  {
    var q, r := low / 64, low % 64;
    assert low == 64 * q + r;
    DivMod256By(d * 4, 256 * f + q, 4 * r);
    DivMod64By(d, 256 * f + q, r);
    DivMod256By(256 * f + q, f, q);
    assert buf[k] as nat == 4 * r && buf[k + 1] as nat == q by {
      assert buf[k] == buf[k..k + 2][0] && buf[k + 1] == buf[k..k + 2][1];
    }
  }

  /** Division by 256 read off a decomposition `a == 256 * q + r`. */
  lemma DivMod256By(a: int, q: int, r: nat)
    requires r < 256 && a == 256 * q + r
    ensures a / 256 == q && a % 256 == r
  {
  }

  /** Division by 64 read off a decomposition `a == 64 * q + r`. */
  lemma DivMod64By(a: int, q: int, r: nat)
    requires r < 64 && a == 64 * q + r
    ensures a / 64 == q && a % 64 == r
  {
  }

  /** A match within 0x4000: instruction 32..63, an optional length field, two distance bytes. */
  lemma MidMatchDecodes(len: nat, off: nat, buf: seq<byte>, ip: nat, mpos: int, out: seq<byte>)
    requires 4 <= len && 1 <= off <= 0x4000
    requires ip + |LongLength(len - 2, 31)| + 2 <= |buf|
    requires buf[ip..ip + |LongLength(len - 2, 31)|] == LongLength(len - 2, 31)
    requires Distance14(buf[ip + |LongLength(len - 2, 31)|], buf[ip + |LongLength(len - 2, 31)| + 1]) == off - 1
    ensures 32 <= MidInstr(len) as nat < 64
    ensures MidStep(buf, Machine(ip, MidInstr(len) as nat, mpos, out))
         == Success(Pending(Machine(ip + |LongLength(len - 2, 31)| + 2, len - 2, |out| - off, out)))
  {
    var l, x := LongLength(len - 2, 31), MidInstr(len) as nat;
    MidFields(len);
    LengthFieldReads(buf, ip, x, 31, len - 2);
    MidStepReads(buf, ip, x, ip + |l|, len - 2, off - 1, mpos, out);
  }

  /** MidStep from its two parts: the length it reads and the distance bytes after it. */
  lemma MidStepReads(buf: seq<byte>, ip: nat, x: nat, r: nat, len: nat, d: nat, mpos: int, out: seq<byte>)
    requires ip <= |buf| && 32 <= x < 64 && r + 2 <= |buf|
    requires LengthField(buf, ip, x, 32, 31) == Success(Run(r, len))
    requires Distance14(buf[r], buf[r + 1]) == d
    ensures MidStep(buf, Machine(ip, x, mpos, out)) == Success(Pending(Machine(r + 2, len, |out| - 1 - d, out)))
  {
  }

  lemma FarFields(len: nat, f: nat)
    requires 4 <= len && f < 2
    ensures 16 <= FarInstr(len, f) as nat < 32
    ensures FarInstr(len, f) as nat / 8 % 2 == f
    ensures FarInstr(len, f) as nat % 8 == if len - 2 <= 7 then len - 2 else 0
  {
    var k := if len <= 9 then len - 2 else 0;
    assert FarInstr(len, f) as nat == 16 + 8 * f + k;
    assert (16 + 8 * f + k) / 8 == 2 + f;
  }

  /**
   * A far match at `off = 0x4000 + 0x4000 * f + low` (f < 2): instruction
   * 16..31 with `f` in bit 3, an optional length field, two distance bytes.
   */
  lemma FarMatchDecodes(len: nat, off: nat, f: nat, low: nat, buf: seq<byte>, ip: nat, mpos: int, out: seq<byte>)
    requires 4 <= len && f < 2 && low < 0x4000 && off == 0x4000 + 0x4000 * f + low && off > 0x4000
    requires ip + |LongLength(len - 2, 7)| + 2 <= |buf|
    requires buf[ip..ip + |LongLength(len - 2, 7)|] == LongLength(len - 2, 7)
    requires Distance14(buf[ip + |LongLength(len - 2, 7)|], buf[ip + |LongLength(len - 2, 7)| + 1]) == low
    ensures 16 <= FarInstr(len, f) as nat < 32
    ensures FarStep(buf, Machine(ip, FarInstr(len, f) as nat, mpos, out))
         == Success(Pending(Machine(ip + |LongLength(len - 2, 7)| + 2, len - 2, |out| - off, out)))
  {
    var l, x := LongLength(len - 2, 7), FarInstr(len, f) as nat;
    FarFields(len, f);
    LengthFieldReads(buf, ip, x, 7, len - 2);
    FarStepReads(buf, ip, x, ip + |l|, len - 2, off - 0x4000, mpos, out);
  }

  /** FarStep from its two parts, for a non-zero distance. */
  lemma FarStepReads(buf: seq<byte>, ip: nat, x: nat, r: nat, len: nat, d: nat, mpos: int, out: seq<byte>)
    requires ip <= |buf| && 16 <= x < 32 && r + 2 <= |buf| && d > 0
    requires LengthField(buf, ip, x, 8, 7) == Success(Run(r, len))
    requires FarBit(x) + Distance14(buf[r], buf[r + 1]) == d
    ensures FarStep(buf, Machine(ip, x, mpos, out)) == Success(Pending(Machine(r + 2, len, |out| - d - 0x4000, out)))
  {
  }

  /** MatchStep dispatches on the range of the instruction byte. */
  lemma MatchStepRanges(buf: seq<byte>, m: Machine)
    requires m.ip <= |buf|
    ensures m.t >= 64 ==> MatchStep(buf, m) == NearStep(buf, m)
    ensures 32 <= m.t < 64 ==> MatchStep(buf, m) == MidStep(buf, m)
    ensures 16 <= m.t < 32 ==> MatchStep(buf, m) == FarStep(buf, m)
  {
  }

  /** The bit-14 flag and low 14 bits of a far distance below 0x8000. */
  lemma FarSplit(o: nat)
    requires o < 0x8000
    ensures o / 0x4000 % 2 == o / 0x4000 && o == 0x4000 * (o / 0x4000) + o % 0x4000
  {
  }

  /** The bytes of the encoded instruction `e` after its first stand in `buf` from `ip` on. */
  predicate OperandsAt(buf: seq<byte>, ip: nat, e: seq<byte>) {
    |e| >= 1 && ip + |e| - 1 <= |buf| && buf[ip..ip + |e| - 1] == e[1..]
  }

  /** The mid form of MatchBytes read by MatchStep. */
  lemma MidBytesDecode(len: nat, off: nat, e: seq<byte>, buf: seq<byte>, ip: nat, mpos: int, out: seq<byte>)
    requires 4 <= len && 1 <= off <= 0x4000 && e == MidBytes(len, off)
    requires OperandsAt(buf, ip, e)
    ensures MatchStep(buf, Machine(ip, e[0] as nat, mpos, out))
         == Success(Pending(Machine(ip + |e| - 1, len - 2, |out| - off, out)))
  {
    MidBytesParts(len, off, e, buf, ip);
    DistanceAt(buf, ip + |LongLength(len - 2, 31)|, off - 1, 0, off - 1);
    MidMatchDecodes(len, off, buf, ip, mpos, out);
    MatchStepRanges(buf, Machine(ip, MidInstr(len) as nat, mpos, out));
  }

  /** The pieces of a mid-form match in the input: instruction, length field, distance. */
  lemma MidBytesParts(len: nat, off: nat, e: seq<byte>, buf: seq<byte>, ip: nat)
    requires 4 <= len && 1 <= off <= 0x4000 && e == MidBytes(len, off)
    requires OperandsAt(buf, ip, e)
    ensures e[0] == MidInstr(len) && |e| == |LongLength(len - 2, 31)| + 3
    ensures buf[ip..ip + |LongLength(len - 2, 31)|] == LongLength(len - 2, 31)
    ensures buf[ip + |LongLength(len - 2, 31)|..ip + |LongLength(len - 2, 31)| + 2] == DistanceBytes(off - 1)
  {
    var l, d := LongLength(len - 2, 31), DistanceBytes(off - 1);
    assert e == [MidInstr(len)] + (l + d);
    SliceParts(buf, ip, l, d);
  }

  /** The far form of MatchBytes read by MatchStep, from what FarOperands finds. */
  lemma FarBytesDecode(len: nat, off: nat, f: nat, low: nat, e: seq<byte>, buf: seq<byte>, ip: nat, mpos: int, out: seq<byte>)
    requires 4 <= len && f < 2 && low < 0x4000 && off == 0x4000 + 0x4000 * f + low && off > 0x4000
    requires |e| == |LongLength(len - 2, 7)| + 3 && e[0] == FarInstr(len, f)
    requires ip + |LongLength(len - 2, 7)| + 2 <= |buf| && buf[ip..ip + |LongLength(len - 2, 7)|] == LongLength(len - 2, 7)
    requires Distance14(buf[ip + |LongLength(len - 2, 7)|], buf[ip + |LongLength(len - 2, 7)| + 1]) == low
    ensures MatchStep(buf, Machine(ip, e[0] as nat, mpos, out))
         == Success(Pending(Machine(ip + |e| - 1, len - 2, |out| - off, out)))
  {
    FarMatchDecodes(len, off, f, low, buf, ip, mpos, out);
    MatchStepRanges(buf, Machine(ip, FarInstr(len, f) as nat, mpos, out));
  }

  /** What MatchStep finds after the instruction byte of a far-form match. */
  lemma FarOperands(len: nat, off: nat, e: seq<byte>, buf: seq<byte>, ip: nat)
    requires 4 <= len && 0x4000 < off < 0xC000 && e == FarBytes(len, off)
    requires OperandsAt(buf, ip, e)
    ensures (off - 0x4000) / 0x4000 < 2 && off == 0x4000 + 0x4000 * ((off - 0x4000) / 0x4000) + (off - 0x4000) % 0x4000
    ensures |e| == |LongLength(len - 2, 7)| + 3 && e[0] == FarInstr(len, (off - 0x4000) / 0x4000)
    ensures ip + |LongLength(len - 2, 7)| + 2 <= |buf| && buf[ip..ip + |LongLength(len - 2, 7)|] == LongLength(len - 2, 7)
    ensures Distance14(buf[ip + |LongLength(len - 2, 7)|], buf[ip + |LongLength(len - 2, 7)| + 1]) == (off - 0x4000) % 0x4000
  {
    var o := off - 0x4000;
    FarSplit(o);
    var f, low := o / 0x4000, o % 0x4000;
    FarBytesParts(len, off, f, e, buf, ip);
    DistanceAt(buf, ip + |LongLength(len - 2, 7)|, o, f, low);
  }

  /** The pieces of a far-form match in the input; `f` is bit 14 of `off - 0x4000`. */
  lemma FarBytesParts(len: nat, off: nat, f: nat, e: seq<byte>, buf: seq<byte>, ip: nat)
    requires 4 <= len && 0x4000 < off < 0xC000 && (off - 0x4000) / 0x4000 % 2 == f && e == FarBytes(len, off)
    requires OperandsAt(buf, ip, e)
    ensures e[0] == FarInstr(len, f) && |e| == |LongLength(len - 2, 7)| + 3
    ensures buf[ip..ip + |LongLength(len - 2, 7)|] == LongLength(len - 2, 7)
    ensures buf[ip + |LongLength(len - 2, 7)|..ip + |LongLength(len - 2, 7)| + 2] == DistanceBytes(off - 0x4000)
  {
    var l, d := LongLength(len - 2, 7), DistanceBytes(off - 0x4000);
    assert e == [FarInstr(len, f)] + (l + d);
    SliceParts(buf, ip, l, d);
  }


  /** The near form of MatchBytes read by MatchStep. */
  lemma NearBytesDecode(len: nat, off: nat, e: seq<byte>, buf: seq<byte>, ip: nat, mpos: int, out: seq<byte>)
    requires 4 <= len <= 8 && 1 <= off <= 0x0800 && e == NearBytes(len, off)
    requires OperandsAt(buf, ip, e)
    ensures MatchStep(buf, Machine(ip, e[0] as nat, mpos, out))
         == Success(Pending(Machine(ip + |e| - 1, len - 2, |out| - off, out)))
  {
    assert buf[ip] == buf[ip..ip + 1][0];
    NearMatchDecodes(len, off, buf, ip, mpos, out);
    MatchStepRanges(buf, Machine(ip, NearBytes(len, off)[0] as nat, mpos, out));
  }

  /**
   * Match's decoder reads every match the compressor emits back as a copy of
   * `len` bytes (`t + 2`) from `off` bytes behind the output.
   */
  lemma MatchBytesDecode(len: nat, off: nat, e: seq<byte>, buf: seq<byte>, ip: nat, mpos: int, out: seq<byte>)
    requires 4 <= len && 1 <= off < 0xC000 && e == MatchBytes(len, off)
    requires OperandsAt(buf, ip, e)
    ensures MatchStep(buf, Machine(ip, e[0] as nat, mpos, out))
         == Success(Pending(Machine(ip + |e| - 1, len - 2, |out| - off, out)))
  {
    if len <= 8 && off <= 0x0800 {
      NearBytesDecode(len, off, e, buf, ip, mpos, out);
    } else if off <= 0x4000 {
      MidBytesDecode(len, off, e, buf, ip, mpos, out);
    } else {
      FarOperands(len, off, e, buf, ip);
      FarBytesDecode(len, off, (off - 0x4000) / 0x4000, (off - 0x4000) % 0x4000, e, buf, ip, mpos, out);
    }
  }


  /**
   * A literal run's header followed by its `t` bytes decodes, under the
   * intended semantics, to those bytes appended to the output.
   */
  lemma LiteralHeaderDecodes(t: nat, lits: seq<byte>, buf: seq<byte>, ip: nat, mpos: int, out: seq<byte>)
    requires t >= 4 && |lits| == t
    requires ip + |LiteralHeader(t)| + t <= |buf| && buf[ip..ip + |LiteralHeader(t)| + t] == LiteralHeader(t) + lits
    ensures buf[ip] as nat < 16
    ensures LiteralRun(buf, Machine(ip, 0, mpos, out), true)
         == Success(Machine(ip + |LiteralHeader(t)| + t, 0, mpos, out + lits))
  {
    var h := LiteralHeader(t);
    var end := ip + |h|;
    SliceParts(buf, ip, h, lits);
    LiteralHeaderReads(t, buf, ip);
    var run := LengthField(buf, ip + 1, buf[ip] as nat, 16, 15);
    assert run == Success(Run(end, t - 3));
    SharedCopyFromBufIsBytewise(buf, Machine(end, t, mpos, out));
  }

  /** The header of a literal run reads back its length, less the three LiteralRun adds. */
  lemma LiteralHeaderReads(t: nat, buf: seq<byte>, ip: nat)
    requires t >= 4
    requires ip + |LiteralHeader(t)| <= |buf| && buf[ip..ip + |LiteralHeader(t)|] == LiteralHeader(t)
    ensures buf[ip] as nat < 16
    ensures LengthField(buf, ip + 1, buf[ip] as nat, 16, 15) == Success(Run(ip + |LiteralHeader(t)|, t - 3))
  {
    var x := ByteOf(if t <= 18 then t - 3 else 0);
    var l := LongLength(t - 3, 15);
    SliceParts(buf, ip, [x], l);
    assert buf[ip] == x by {
      assert buf[ip..ip + 1][0] == x;
    }
    LengthFieldReads(buf, ip + 1, x as nat, 15, t - 3);
  }

  /**
   * The end-of-stream marker: instruction 17..23 with zero distance bytes
   * ends Match with the output written so far (the compressor's trailer is 17, 0, 0).
   */
  lemma MarkerEndsStream(buf: seq<byte>, ip: nat, t: nat, mpos: int, out: seq<byte>, shared: bool)
    requires 17 <= t <= 23 && ip + 2 <= |buf| && buf[ip] == 0 && buf[ip + 1] == 0
    ensures Match(buf, Machine(ip, t, mpos, out), shared) == Success(Eof(out))
  {
    assert FarBit(t) == 0;
    assert LengthField(buf, ip, t, 8, 7) == Success(Run(ip, t % 8));
    assert FarStep(buf, Machine(ip, t, mpos, out)) == Success(EndOfStream);
  }

  /** The trailer the compressor ends every stream with. */
  const Trailer: seq<byte> := [17, 0, 0]

  /**
   * The output of Compress for an input of fewer than 32 bytes, which the
   * compressor sends as one literal run followed by the trailer.
   */
  function Compressed(x: seq<byte>): (r: seq<byte>)
    requires |x| < 32
  {
    (if |x| == 0 then [] else FirstLiteralHeader(|x|) + x) + Trailer
  }

  /** The bytes of Compressed(x) for a nonempty x, one fact per position. */
  lemma CompressedParts(x: seq<byte>)
    requires 1 <= |x| < 32
    ensures |Compressed(x)| == |x| + 4 && Compressed(x)[0] as nat == 17 + |x|
    ensures Compressed(x)[1..1 + |x|] == x
    ensures Compressed(x)[|x| + 1] == 17 && Compressed(x)[|x| + 2] == 0 && Compressed(x)[|x| + 3] == 0
  {
    var n := |x|;
    assert Compressed(x) == [ByteOf(17 + n)] + x + Trailer;
    assert Compressed(x)[1..1 + n] == x;
  }

  lemma TinyRoundTrip(x: seq<byte>, shared: bool)
    requires 1 <= |x| < 4
    ensures Decompress(Compressed(x), shared) == Success(x)
  {
    var buf, n := Compressed(x), |x|;
    CompressedParts(x);
    TinyLiterals(buf, x);
    MarkerEndsStream(buf, n + 2, 17, 0, x, shared);
    DecompressFirstShort(buf, Machine(n + 2, 17, 0, x), x, shared);
  }

  /** The one to three literals after a first instruction 18..20, and the instruction after them. */
  lemma TinyLiterals(buf: seq<byte>, x: seq<byte>)
    requires 1 <= |x| < 4 && |buf| == |x| + 4 && buf[1..1 + |x|] == x && buf[|x| + 1] == 17
    ensures MatchNext(buf, Machine(1, |x|, 0, [])) == Success(Machine(|x| + 2, 17, 0, x))
  {
    assert [] + x == x;
  }

  lemma RunRoundTrip(x: seq<byte>, shared: bool)
    requires 4 <= |x| < 32
    ensures Decompress(Compressed(x), shared) == Success(x)
  {
    var buf, n := Compressed(x), |x|;
    CompressedParts(x);
    RunLiterals(buf, x, shared);
    DecompressFirstRun(buf, Machine(n + 1, 0, 0, x), shared);
    MarkerEndsStream(buf, n + 2, 17, 0, x, shared);
    SkipTurnMatches(buf, Machine(n + 1, 0, 0, x), shared);
    LoopEnds(buf, Machine(n + 1, 0, 0, x), true, x, shared);
  }

  /** The literals after a first instruction of 21 or more, which start one byte out of word alignment. */
  lemma RunLiterals(buf: seq<byte>, x: seq<byte>, shared: bool)
    requires 4 <= |x| && |x| + 1 <= |buf| && buf[1..1 + |x|] == x
    ensures CopyFromBuf(buf, Machine(1, |x|, 0, []), shared) == Success(Machine(|x| + 1, 0, 0, x))
  {
    assert [] + x == x;
  }

  /** A first instruction of 21 or more copies its literals, then the loop runs with the first-literal skip set. */
  lemma DecompressFirstRun(buf: seq<byte>, m1: Machine, shared: bool)
    requires |buf| > 0 && buf[0] as nat >= 21
    requires CopyFromBuf(buf, Machine(1, buf[0] as nat - 17, 0, []), shared) == Success(m1)
    ensures Decompress(buf, shared) == Loop(buf, m1, true, shared)
  {
  }

  /** A first instruction 18..20 copies its literals; a match that ends the stream then ends Decompress. */
  lemma DecompressFirstShort(buf: seq<byte>, m1: Machine, o: seq<byte>, shared: bool)
    requires |buf| > 0 && 18 <= buf[0] as nat <= 20
    requires MatchNext(buf, Machine(1, buf[0] as nat - 17, 0, [])) == Success(m1)
    requires m1.ip <= |buf| && Match(buf, m1, shared) == Success(Eof(o))
    ensures Decompress(buf, shared) == Success(o)
  {
    var e := Match(buf, m1, shared);
    assert e.value.Eof?;
  }

  /** Short inputs survive a round trip through Compress and Decompress, as written and as intended. */
  lemma ShortRoundTrip(x: seq<byte>, shared: bool)
    requires |x| < 32
    ensures Decompress(Compressed(x), shared) == Success(x)
  {
    if |x| == 0 {
      assert Compressed(x) == [17, 0, 0];
      MarkerEndsStream(Compressed(x), 1, 17, 0, [], shared);
    } else if |x| < 4 {
      TinyRoundTrip(x, shared);
    } else {
      RunRoundTrip(x, shared);
    }
  }

  /**
   * A whole stream on which the C# as written and the intended decoder
   * differ: four literals (21 = 17 + 4), then an eight-byte match at distance
   * four (236, 0), then the trailer.
   */
  const LostWordStream: seq<byte> := [21, 97, 98, 99, 100, 236, 0, 17, 0, 0]

  /** Four literals `lit`, the match 236, 0 and the trailer: the layout of LostWordStream. */
  predicate LostWordShape(buf: seq<byte>, lit: seq<byte>) {
    && |lit| == 4 && |buf| == 10 && buf[0] == 21 && buf[1..5] == lit
    && buf[5] == 236 && buf[6] == 0 && buf[7] == 17 && buf[8] == 0 && buf[9] == 0
  }

  lemma LostWordStreamShape()
    ensures LostWordShape(LostWordStream, [97, 98, 99, 100])
  {
    var lit: seq<byte> := [97, 98, 99, 100];
    assert LostWordStream == [21] + lit + [236, 0] + Trailer;
    assert LostWordStream[1..5] == lit;
  }

  /** Decompressing a stream of this shape yields whatever its one match copies out. */
  lemma LostWordStreamSteps(buf: seq<byte>, lit: seq<byte>, shared: bool, o: seq<byte>)
    requires LostWordShape(buf, lit)
    requires CopyMatch(Machine(7, 6, 0, lit), shared) == Success(Machine(7, 0, 8, o))
    ensures Decompress(buf, shared) == Success(o)
  {
    LostWordStreamLiterals(buf, lit, shared);
    LostWordStreamMiddle(buf, lit, shared, o);
    LostWordStreamEnd(buf, shared, o);
  }

  /** The match between the literals and the trailer. */
  lemma LostWordStreamMiddle(buf: seq<byte>, lit: seq<byte>, shared: bool, o: seq<byte>)
    requires LostWordShape(buf, lit)
    requires CopyMatch(Machine(7, 6, 0, lit), shared) == Success(Machine(7, 0, 8, o))
    ensures Loop(buf, Machine(5, 0, 0, lit), true, shared) == Loop(buf, Machine(7, 0, 8, o), false, shared)
  {
    var m0, m2 := Machine(5, 0, 0, lit), Machine(7, 0, 8, o);
    LostWordStreamMatch(buf, lit, shared, o);
    assert buf[m0.ip] as nat == 236;
    SkipTurnMatches(buf, m0, shared);
    assert Turn(buf, m0, true, shared) == Success(Break(m2));
    LoopBreaks(buf, m0, true, m2, shared);
  }

  /** The trailer 17, 0, 0 ends the stream. */
  lemma LostWordStreamEnd(buf: seq<byte>, shared: bool, o: seq<byte>)
    requires |buf| == 10 && buf[7] == 17 && buf[8] == 0 && buf[9] == 0
    ensures Loop(buf, Machine(7, 0, 8, o), false, shared) == Success(o)
  {
    MarkerEndsStream(buf, 8, 17, 8, o, shared);
    TurnMatches(buf, Machine(7, 0, 8, o), shared);
    LoopEnds(buf, Machine(7, 0, 8, o), false, o, shared);
  }

  /** A turn that breaks out of its match loop hands the loop on to the next turn. */
  lemma LoopBreaks(buf: seq<byte>, m: Machine, skip: bool, m2: Machine, shared: bool)
    requires m.ip <= |buf| && Turn(buf, m, skip, shared) == Success(Break(m2))
    ensures Loop(buf, m, skip, shared) == Loop(buf, m2, false, shared)
  {
  }

  /** A turn that reaches the end-of-stream marker ends the loop with the output so far. */
  lemma LoopEnds(buf: seq<byte>, m: Machine, skip: bool, o: seq<byte>, shared: bool)
    requires m.ip <= |buf| && Turn(buf, m, skip, shared) == Success(Eof(o))
    ensures Loop(buf, m, skip, shared) == Success(o)
  {
  }

  /** An instruction of 16 or more starts a match. */
  lemma TurnMatches(buf: seq<byte>, m: Machine, shared: bool)
    requires m.ip < |buf| && buf[m.ip] as nat >= 16
    ensures Turn(buf, m, false, shared) == Match(buf, Machine(m.ip + 1, buf[m.ip] as nat, m.mpos, m.out), shared)
  {
  }

  /** With the literal run skipped, an instruction of 16 or more starts a match just the same. */
  lemma SkipTurnMatches(buf: seq<byte>, m: Machine, shared: bool)
    requires m.ip < |buf| && buf[m.ip] as nat >= 16
    ensures Turn(buf, m, true, shared) == Match(buf, Machine(m.ip + 1, buf[m.ip] as nat, m.mpos, m.out), shared)
  {
    AfterLiteralsMatch(buf, m, shared);
  }

  /** The instruction after a literal run, when it is below 16, is a three-byte match. */
  lemma AfterLiteralsTrailing(buf: seq<byte>, m: Machine, shared: bool)
    requires m.ip < |buf| && buf[m.ip] as nat < 16
    ensures AfterLiterals(buf, m, shared) == TrailingMatch(buf, Machine(m.ip + 1, buf[m.ip] as nat, m.mpos, m.out), shared)
  {
  }

  /** The instruction after a literal run, when it is 16 or more, starts a match. */
  lemma AfterLiteralsMatch(buf: seq<byte>, m: Machine, shared: bool)
    requires m.ip < |buf| && buf[m.ip] as nat >= 16
    ensures AfterLiterals(buf, m, shared) == Match(buf, Machine(m.ip + 1, buf[m.ip] as nat, m.mpos, m.out), shared)
  {
  }

  /** The first instruction of LostWordStream copies the four literals. */
  lemma LostWordStreamLiterals(buf: seq<byte>, lit: seq<byte>, shared: bool)
    requires LostWordShape(buf, lit)
    ensures Decompress(buf, shared) == Loop(buf, Machine(5, 0, 0, lit), true, shared)
  {
    RunLiterals(buf, lit, shared);
    DecompressFirstRun(buf, Machine(5, 0, 0, lit), shared);
  }

  /** The second instruction of LostWordStream is a near match of eight bytes at distance four. */
  lemma LostWordStreamMatch(buf: seq<byte>, lit: seq<byte>, shared: bool, o: seq<byte>)
    requires LostWordShape(buf, lit)
    requires CopyMatch(Machine(7, 6, 0, lit), shared) == Success(Machine(7, 0, 8, o))
    ensures Match(buf, Machine(6, 236, 0, lit), shared) == Success(Break(Machine(7, 0, 8, o)))
  {
    LostWordStreamNear(buf, lit);
    MatchDoneAt(buf, Machine(7, 0, 8, o));
    MatchOneStep(buf, Machine(6, 236, 0, lit), Machine(7, 6, 0, lit), Machine(7, 0, 8, o), shared);
  }

  /** An instruction whose low two bits are clear is followed by no literals. */
  lemma MatchDoneAt(buf: seq<byte>, m: Machine)
    requires 2 <= m.ip <= |buf| && buf[m.ip - 2] as nat % 4 == 0 && m.t == 0
    ensures MatchDone(buf, m) == Success(m)
  {
  }

  /** A match whose copy leaves no trailing literals ends the match loop after one step. */
  lemma MatchOneStep(buf: seq<byte>, m: Machine, p: Machine, m2: Machine, shared: bool)
    requires m.ip <= |buf|
    requires MatchStep(buf, m) == Success(Pending(p))
    requires CopyMatch(p, shared) == Success(m2) && MatchDone(buf, m2) == Success(m2) && m2.t == 0
    ensures Match(buf, m, shared) == Success(Break(m2))
  {
  }

  /** The match instruction 236, 0: length 8 less two, four bytes back. */
  lemma LostWordStreamNear(buf: seq<byte>, lit: seq<byte>)
    requires LostWordShape(buf, lit)
    ensures MatchStep(buf, Machine(6, 236, 0, lit)) == Success(Pending(Machine(7, 6, 0, lit)))
  {
    var m := Machine(6, 236, 0, lit);
    MatchStepRanges(buf, m);
    assert M2Distance(236, buf[6]) == 4;
  }

  /** Decompressing LostWordStream: eight zero bytes as written, "abcd" three times as intended. */
  lemma AsWrittenStreamLosesBytes()
    ensures Decompress(LostWordStream, false) == Success([97, 98, 99, 100, 0, 0, 0, 0, 0, 0, 0, 0])
    ensures Decompress(LostWordStream, true) == Success([97, 98, 99, 100, 97, 98, 99, 100, 97, 98, 99, 100])
  {
    AsWrittenWordCopyLosesBytes();
    LostWordStreamShape();
    LostWordStreamSteps(LostWordStream, [97, 98, 99, 100], false, [97, 98, 99, 100, 0, 0, 0, 0, 0, 0, 0, 0]);
    LostWordStreamSteps(LostWordStream, [97, 98, 99, 100], true, [97, 98, 99, 100, 97, 98, 99, 100, 97, 98, 99, 100]);
  }
}
