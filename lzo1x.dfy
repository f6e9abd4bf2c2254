/**
 * The LZO1X decompressor and the short-input compressor of Lzo1x.cs as the
 * C# writes them: a class whose methods step the registers `ip`, `op`, `t`,
 * `m_pos` over the input array `buf` and the growable output array `outBuf`.
 *
 * Every method is proved against the reference functions of LzoSpec taken
 * with `shared == false`: `out32` is a separate array, so the word stores of
 * the aligned fast paths go there and `outBuf` keeps zeros in their place.
 * An exception of the C# (an index outside an array) is a method returning
 * `false`, or `Failure(OutOfRange)`.
 */
module Lzo {
  import opened Common
  import opened LzoSpec
  import Ripemd128

  /** Lzo1x.State: the buffers a caller hands to Decompress and Compress. */
  class State {
    var inputBuffer: array<byte>
    var outputBuffer: array<byte>

    constructor ()
      ensures inputBuffer.Length == 0 && outputBuffer.Length == 0
    {
      inputBuffer := new byte[0];
      outputBuffer := new byte[0];
    }
  }

  class Lzo1x {
    var buf: array<byte>
    var buf32: array<bv32>
    var outBuf: array<byte>
    var out32: array<bv32>
    var cbl: nat
    var t: nat
    var ip: nat
    var op: nat
    var mPos: int
    var skipToFirstLiteralFun: bool
    var state: State

    constructor ()
      ensures buf.Length == 0 && outBuf.Length == 0 && cbl == 0
    {
      buf := new byte[0];
      buf32 := new bv32[0];
      outBuf := new byte[0];
      out32 := new bv32[0];
      cbl, t, ip, op, mPos := 0, 0, 0, 0, 0;
      skipToFirstLiteralFun := false;
      state := new State();
    }

    /**
     * What decompression keeps true: `cbl` is the length of `outBuf`,
     * `out32` has a word for every four bytes of it,
     * `op` and `ip` are inside their arrays, and nothing at or past `op` has
     * been written yet.
     */
    ghost predicate Valid()
      reads this, outBuf
    {
      outBuf != buf && cbl == outBuf.Length && 4 * out32.Length == cbl &&
      op <= cbl && ip <= buf.Length && Blank(outBuf, op)
    }

    /** The registers as LzoSpec sees them: the output is `outBuf[0..op)`. */
    ghost function Regs(): Machine
      requires op <= outBuf.Length
      reads this, outBuf
    {
      Machine(ip, t, mPos, outBuf[..op])
    }

    /** What no step of the main loop changes, and the arrays it may replace. */
    twostate predicate KeptBut()
      reads this
    {
      buf == old(buf) && state == old(state) && buf32 == old(buf32) &&
      (outBuf == old(outBuf) || fresh(outBuf)) && (out32 == old(out32) || fresh(out32))
    }

    /** What no helper of the decompressor changes: all of KeptBut, and `skipToFirstLiteralFun`. */
    twostate predicate Kept()
      reads this
    {
      KeptBut() && skipToFirstLiteralFun == old(skipToFirstLiteralFun)
    }

    /**
     * Ctzl: the number of trailing zero bits of `v`, found by halving the
     * window; for zero it answers 31.
     */
    method Ctzl(v0: bv32) returns (c: int)
      ensures v0 == 0 ==> c == 31
      ensures v0 != 0 ==> 0 <= c < 32 && Bit(v0, c) && v0 & ((1 << c) - 1) == 0
    {
      var v := v0;
      if v & 0x1 != 0 {
        c := 0;
      } else {
        c := 1;
        if v & 0xFFFF == 0 { v := v >> 16; c := c + 16; }
        if v & 0xFF == 0 { v := v >> 8; c := c + 8; }
        if v & 0xF == 0 { v := v >> 4; c := c + 4; }
        if v & 0x3 == 0 { v := v >> 2; c := c + 2; }
        c := c - (v & 0x1) as int;
      }
    }

    /**
     * ExtendBuffer: a new output array BlockSize bytes longer holding the
     * `op` bytes written so far, and a fresh `out32` copied from it.
     */
    method ExtendBuffer()
      requires Valid()
      modifies this, state
      ensures Valid() && Kept() && Regs() == old(Regs()) && op == old(op)
      ensures cbl == old(cbl) + BlockSize && fresh(outBuf) && fresh(out32)
      ensures state.outputBuffer == outBuf && WordsOf(outBuf, out32)
    {
      var newBuffer := new byte[cbl + BlockSize](_ => 0);
      forall i | 0 <= i < op {
        newBuffer[i] := outBuf[i];
      }
      assert newBuffer[..op] == outBuf[..op];
      outBuf := newBuffer;
      out32 := BlockCopy(outBuf);
      state.outputBuffer := outBuf;
      cbl := outBuf.Length;
    }

    /** `while (op + n > cbl) ExtendBuffer();`, which comes before each group of output writes. */
    method EnsureRoom(n: nat)
      requires Valid()
      modifies this, state
      ensures Valid() && Kept() && Regs() == old(Regs()) && op + n <= cbl
    {
      while op + n > cbl
        invariant Valid() && Kept() && Regs() == old(Regs())
        decreases op + n - cbl
      {
        ExtendBuffer();
      }
    }

    /**
     * MatchNext: copy one to three literals, as `t` says, then read the next
     * instruction into `t`.  The C# throws at the first read past the input;
     * here that check is made before the copies.
     */
    method MatchNext() returns (ok: bool)
      requires Valid()
      modifies this, state, outBuf
      ensures Valid() && Kept()
      ensures ok == LzoSpec.MatchNext(buf[..], old(Regs())).Success?
      ensures ok ==> Regs() == LzoSpec.MatchNext(buf[..], old(Regs())).value
    {
      EnsureRoom(3);
      ok := ip + (if t > 2 then 3 else if t > 1 then 2 else 1) < buf.Length;
      if ok {
        op, ip := NextLiterals(outBuf, buf, op, ip, t);
        t := buf[ip] as nat;
        ip := ip + 1;
      }
    }

    /** MatchDone: `t = buf[ip - 2] & 3`, the count of literals after a match. */
    method MatchDone() returns (ok: bool, r: nat)
      requires Valid()
      modifies this
      ensures Valid() && Kept() && outBuf == old(outBuf) && out32 == old(out32) && cbl == old(cbl)
      ensures ok == LzoSpec.MatchDone(buf[..], old(Regs())).Success?
      ensures ok ==> Regs() == LzoSpec.MatchDone(buf[..], old(Regs())).value && r == t
    {
      if ip < 2 {
        return false, 0;
      }
      LowBits(buf[ip - 2]);
      t := (buf[ip - 2] & 3) as nat;
      ok, r := true, t;
    }

    /** Match's branch for an instruction below 16: a two-byte match, copied at once. */
    method ShortMatch() returns (ok: bool)
      requires Valid() && t < 16
      modifies this, state, outBuf, out32
      ensures Valid() && Kept()
      ensures ok == ShortStep(buf[..], old(Regs())).Success?
      ensures ok ==> ShortStep(buf[..], old(Regs())).value == Copied(Regs())
    {
      ghost var m := Regs();
      var read, i, p;
      read, ok, i, p := ShortDecode(buf, ip, t, op, m);
      if read {
        Seek(i, p);
        EnsureRoom(2);
        if ok {
          op, mPos := CopyTwo(outBuf, op, p, m.out);
          assert Regs() == Machine(i, m.t, p + 1, m.out + [m.out[p], (m.out + [m.out[p]])[p + 1]]);
        }
      }
    }

    /**
     * The first part of a turn of Match's loop: the branch on `t`, up to the
     * copy.  The two-byte match of the last branch is copied here.
     */
    method Decode() returns (d: Result<Decoded>)
      requires Valid()
      modifies this, state, outBuf, out32
      ensures Valid() && Kept()
      ensures d.Success? == MatchStep(buf[..], old(Regs())).Success?
      ensures d.Success? ==> (d.value == StreamEnd <==> MatchStep(buf[..], old(Regs())).value.EndOfStream?)
      ensures d == Success(StreamEnd) ==> Regs().out == old(Regs()).out
      ensures d == Success(ToCopy) ==> MatchStep(buf[..], old(Regs())).value == Pending(Regs())
      ensures d == Success(CopiedTwo) ==> MatchStep(buf[..], old(Regs())).value == Copied(Regs())
    {
      if t < 16 {
        var ok := ShortMatch();
        d := if ok then Success(CopiedTwo) else Failure(OutOfRange);
      } else {
        ghost var m := Regs();
        var ok, eof, i, n, p;
        if t >= 64 {
          ok, i, n, p := NearDecode(buf, ip, t, op, m);
          eof := false;
        } else if t >= 32 {
          ok, i, n, p := MidDecode(buf, ip, t, op, m);
          eof := false;
        } else {
          ok, eof, i, n, p := FarDecode(buf, ip, t, op, m);
        }
        if !ok {
          d := Failure(OutOfRange);
        } else if eof {
          d := Success(StreamEnd);
        } else {
          ip, t, mPos := i, n, p;
          d := Success(ToCopy);
        }
      }
    }

    /** The result of Match (or of a turn of Decompress's loop) reported as the C# does. */
    ghost predicate Reports(r: Result<int>, e: Result<Exit>)
      requires op <= outBuf.Length
      reads this, outBuf, state, state.outputBuffer
    {
      r.Success? == e.Success? &&
      (r.Success? ==> (r.value == OK && e.value == Break(Regs())) ||
                      (r.value == EOF_FOUND && e.value == Eof(state.outputBuffer[..])))
    }

    /**
     * Match: decode and copy matches until one is followed by no literal
     * (OK) or the end-of-stream marker is met (EOF_FOUND, the output copied
     * into `state.outputBuffer`).
     */
    method Match() returns (r: Result<int>)
      requires Valid()
      modifies this, state, outBuf, out32
      ensures Valid() && Kept()
      ensures Reports(r, LzoSpec.Match(buf[..], old(Regs()), false))
    {
      ghost var target := LzoSpec.Match(buf[..], Regs(), false);
      var going := true;
      r := Success(OK);
      while going
        invariant Valid() && Kept()
        invariant going ==> LzoSpec.Match(buf[..], Regs(), false) == target
        invariant !going ==> Reports(r, target)
        decreases going, buf.Length - ip
      {
        going, r := MatchTurn();
      }
    }

    /**
     * One turn of Match's `while (true)`: `going` when it ends in
     * `MatchNext(); continue;`, otherwise the value Match returns.
     */
    method MatchTurn() returns (going: bool, r: Result<int>)
      requires Valid()
      modifies this, state, outBuf, out32
      ensures Valid() && Kept()
      ensures going ==> old(ip) < ip && LzoSpec.Match(buf[..], Regs(), false) == LzoSpec.Match(buf[..], old(Regs()), false)
      ensures !going ==> Reports(r, LzoSpec.Match(buf[..], old(Regs()), false))
    {
      ghost var m := Regs();
      var d := Decode();
      if d.Failure? {
        going, r := false, Failure(d.error);
      } else if d.value == StreamEnd {
        state.outputBuffer := CopyOut(outBuf, op);
        going, r := false, Success(EOF_FOUND);
      } else {
        going, r := MatchRest(d.value == ToCopy, m);
      }
    }

    /**
     * The rest of a turn of Match's loop after the branch on `t`: the copy
     * (unless the short branch made it), MatchDone, and MatchNext.
     */
    method MatchRest(pending: bool, ghost m: Machine) returns (going: bool, r: Result<int>)
      requires Valid() && m.ip <= buf.Length
      requires MatchStep(buf[..], m) == Success(if pending then Pending(Regs()) else Copied(Regs()))
      modifies this, state, outBuf, out32
      ensures Valid() && Kept()
      ensures going ==> m.ip < ip && LzoSpec.Match(buf[..], Regs(), false) == LzoSpec.Match(buf[..], m, false)
      ensures !going ==> Reports(r, LzoSpec.Match(buf[..], m, false))
    {
      var ok := true;
      if pending {
        ok := CopyMatch();
      }
      if !ok {
        going, r := false, Failure(OutOfRange);
      } else {
        ghost var m1 := Regs();
        assert LzoSpec.Match(buf[..], m, false) == MatchTail(buf[..], m1, false);
        var rest;
        ok, rest := MatchDone();
        if !ok {
          going, r := false, Failure(OutOfRange);
        } else if rest == 0 {
          going, r := false, Success(OK);
        } else {
          ok := MatchNext();
          going, r := ok, if ok then Success(OK) else Failure(OutOfRange);
        }
      }
    }

    /**
     * CopyMatch: `t += 2`, room for `t` more bytes, then the copy of `t`
     * bytes from `m_pos` (CopyBack).
     */
    method CopyMatch() returns (ok: bool)
      requires Valid() && mPos < op
      modifies this, state, outBuf, out32
      ensures Valid() && Kept()
      ensures ok == LzoSpec.CopyMatch(old(Regs()), false).Success?
      ensures ok ==> Regs() == LzoSpec.CopyMatch(old(Regs()), false).value
    {
      ghost var m := Regs();
      t := t + 2;
      EnsureRoom(t);
      ok, op, mPos := CopyBack(outBuf, out32, op, mPos, t, m);
      if ok {
        t := 0;
      }
    }

    /**
     * CopyFromBuf: room for `t` more bytes, then the copy of `t` literal
     * bytes from the input (CopyIn).
     */
    method CopyFromBuf() returns (ok: bool)
      requires Valid() && t >= 1
      modifies this, state, outBuf, out32
      ensures Valid() && Kept()
      ensures ok == LzoSpec.CopyFromBuf(buf[..], old(Regs()), false).Success?
      ensures ok ==> Regs() == LzoSpec.CopyFromBuf(buf[..], old(Regs()), false).value
      ensures buf[..] == old(buf[..])
    {
      ghost var m := Regs();
      EnsureRoom(t);
      ok, op, ip := CopyIn(outBuf, out32, buf, op, ip, t, m);
      if ok {
        t := 0;
      }
    }

    /**
     * The three-byte match after a literal run: the distance back is 0x0801
     * plus the instruction shifted right by two plus four times the next
     * byte; the copy leaves `m_pos` on the last byte copied.
     */
    method ThreeMatch() returns (ok: bool)
      requires Valid() && t < 16
      modifies this, state, outBuf, out32
      ensures Valid() && Kept()
      ensures ok == ThreeStep(buf[..], old(Regs())).Success?
      ensures ok ==> Regs() == ThreeStep(buf[..], old(Regs())).value
    {
      ghost var m := Regs();
      var read, i, p;
      read, ok, i, p := ThreeDecode(buf, ip, t, op, m);
      if read {
        Seek(i, p);
        EnsureRoom(3);
        if ok {
          op, mPos := CopyThree(outBuf, op, p, m.out);
        }
      }
    }

    /** After a copy: MatchDone, then either the end of the match loop or MatchNext and Match. */
    method Finish() returns (r: Result<int>)
      requires Valid()
      modifies this, state, outBuf, out32
      ensures Valid() && Kept()
      ensures Reports(r, MatchTail(buf[..], old(Regs()), false))
    {
      var ok, rest := MatchDone();
      if !ok {
        r := Failure(OutOfRange);
      } else if rest == 0 {
        r := Success(OK);
      } else {
        ok := MatchNext();
        if !ok {
          r := Failure(OutOfRange);
        } else {
          r := Match();
        }
      }
    }

    /** The three-byte match after a literal run, and the rest of Match. */
    method Trailing() returns (r: Result<int>)
      requires Valid() && t < 16
      modifies this, state, outBuf, out32
      ensures Valid() && Kept()
      ensures Reports(r, TrailingMatch(buf[..], old(Regs()), false))
    {
      var ok := ThreeMatch();
      if !ok {
        r := Failure(OutOfRange);
      } else {
        r := Finish();
      }
    }

    /** The second half of Decompress's loop: the instruction after a literal run. */
    method AfterLiterals() returns (r: Result<int>)
      requires Valid()
      modifies this, state, outBuf, out32
      ensures Valid() && Kept()
      ensures Reports(r, LzoSpec.AfterLiterals(buf[..], old(Regs()), false))
    {
      ghost var input, m := buf[..], Regs();
      if ip >= buf.Length {
        r := Failure(OutOfRange);
      } else {
        Fetch();
        if t < 16 {
          AfterLiteralsTrailing(input, m, false);
          r := Trailing();
        } else {
          AfterLiteralsMatch(input, m, false);
          r := Match();
        }
      }
    }

    /** The instruction byte at `ip` read into `t`. */
    method Fetch()
      requires Valid() && ip < buf.Length
      modifies this
      ensures Valid() && Kept() && outBuf == old(outBuf)
      ensures Regs() == Machine(old(ip) + 1, buf[old(ip)] as nat, old(mPos), old(Regs()).out)
    {
      t, ip := buf[ip] as nat, ip + 1;
    }

    /** A literal run whose instruction byte `buf[m.ip]`, below 16, is already in `t`. */
    method LiteralRun(ghost m: Machine) returns (ok: bool)
      requires Valid() && m.ip < buf.Length && ip == m.ip + 1 && t == buf[m.ip] as nat < 16
      requires m.mpos == mPos && m.out == outBuf[..op]
      modifies this, state, outBuf, out32
      ensures Valid() && Kept()
      ensures ok == LzoSpec.LiteralRun(buf[..], m, false).Success?
      ensures ok ==> Regs() == LzoSpec.LiteralRun(buf[..], m, false).value
    {
      var i, n;
      ok, i, n := ReadField(buf, ip, t);
      LiteralRunSplit(buf[..], m, ok, i, n);
      if ok {
        ip, t := i, n + 3;
        ok := CopyFromBuf();
      }
    }

    /** One turn of Decompress's `while (true)` loop, which clears `skipToFirstLiteralFun`. */
    method Turn() returns (r: Result<int>)
      requires Valid()
      modifies this, state, outBuf, out32
      ensures Valid() && KeptBut() && !skipToFirstLiteralFun
      ensures Reports(r, LzoSpec.Turn(buf[..], old(Regs()), old(skipToFirstLiteralFun), false))
    {
      ghost var m := Regs();
      if skipToFirstLiteralFun {
        skipToFirstLiteralFun := false;
        r := AfterLiterals();
      } else if ip >= buf.Length {
        r := Failure(OutOfRange);
      } else {
        t, ip := buf[ip] as nat, ip + 1;
        if t >= 16 {
          TurnMatches(buf[..], m, false);
          assert Regs() == Machine(m.ip + 1, t, m.mpos, m.out);
          r := Match();
        } else {
          var ok := LiteralRun(m);
          if !ok {
            r := Failure(OutOfRange);
          } else {
            r := AfterLiterals();
          }
        }
      }
    }

    /** Decompress's `while (true)` loop, up to the end-of-stream marker. */
    method Run() returns (r: Result<int>)
      requires Valid()
      modifies this, state, outBuf, out32
      ensures Valid() && KeptBut()
      ensures r.Success? == Loop(buf[..], old(Regs()), old(skipToFirstLiteralFun), false).Success?
      ensures r.Success? ==> r.value == EOF_FOUND
      ensures r.Success? ==> state.outputBuffer[..] == Loop(buf[..], old(Regs()), old(skipToFirstLiteralFun), false).value
    {
      ghost var target := Loop(buf[..], Regs(), skipToFirstLiteralFun, false);
      r := Success(OK);
      while r == Success(OK)
        invariant Valid() && KeptBut()
        invariant r == Success(OK) ==> Loop(buf[..], Regs(), skipToFirstLiteralFun, false) == target
        invariant r != Success(OK) ==> r.Success? == target.Success?
        invariant r != Success(OK) && r.Success? ==> r.value == EOF_FOUND && state.outputBuffer[..] == target.value
        decreases if r == Success(OK) then 1 else 0, buf.Length - ip
      {
        ghost var m, skip := Regs(), skipToFirstLiteralFun;
        r := Turn();
        if r == Success(OK) {
          LoopBreaks(buf[..], m, skip, Regs(), false);
        } else if r.Success? {
          LoopEnds(buf[..], m, skip, state.outputBuffer[..], false);
        }
      }
    }

    /**
     * The set-up of Decompress: the padded input copied into `buf32`, an
     * output array of the input's length rounded up to BlockSize, and
     * the registers at zero.
     */
    method Setup(inputState: State)
      modifies this, inputState
      ensures state == inputState && buf == old(inputState.inputBuffer) && inputState.inputBuffer == buf
      ensures fresh(outBuf) && fresh(out32) && state.outputBuffer == outBuf
      ensures cbl == outBuf.Length == OutLength(buf.Length) && 4 * out32.Length == outBuf.Length
      ensures 4 * buf32.Length == buf.Length + (4 - buf.Length % 4) % 4
      ensures Valid() && ip == 0 && t == 0 && op == 0 && mPos == 0 && !skipToFirstLiteralFun
    {
      var input := inputState.inputBuffer;
      var words := Padded(input);
      var outLen := OutLength(input.Length);
      var bytes := Zeros(outLen);
      var outWords := ZeroWords(outLen);
      inputState.outputBuffer := bytes;
      Attach(inputState, input, words, bytes, outWords);
    }

    /** The registers cleared and the buffers of one Decompress call put in place. */
    method Attach(st: State, input: array<byte>, words: array<bv32>, bytes: array<byte>, outWords: array<bv32>)
      requires bytes != input && 4 * outWords.Length == bytes.Length && Blank(bytes, 0)
      modifies this
      ensures state == st && buf == input && buf32 == words && outBuf == bytes && out32 == outWords
      ensures Valid() && ip == 0 && t == 0 && op == 0 && mPos == 0 && !skipToFirstLiteralFun
    {
      t, ip, op, mPos, skipToFirstLiteralFun := 0, 0, 0, 0, false;
      state, buf, buf32, outBuf, out32, cbl := st, input, words, bytes, outWords, bytes.Length;
    }

    /**
     * Decompress up to its `while (true)`: the first instruction, when it is
     * above 17, is a short literal run (MatchNext and Match) or a long one
     * (CopyFromBuf, then the loop skips its own literal run).  `going` says
     * that the loop is reached.
     */
    method Start() returns (going: bool, r: Result<int>)
      requires Valid() && Regs() == Machine(0, 0, 0, []) && !skipToFirstLiteralFun && buf.Length > 0
      modifies this, state, outBuf, out32
      ensures Valid() && KeptBut()
      ensures going ==> LzoSpec.Decompress(buf[..], false) == Loop(buf[..], Regs(), skipToFirstLiteralFun, false)
      ensures !going ==> r.Success? == LzoSpec.Decompress(buf[..], false).Success?
      ensures !going && r.Success? ==> r.value == OK && state.outputBuffer[..] == LzoSpec.Decompress(buf[..], false).value
    {
      going, r := true, Success(OK);
      if buf[0] > 17 {
        FirstInstruction();
        if t < 4 {
          going, r := ShortStart();
        } else {
          going, r := LongStart();
        }
      } else {
        DecompressPlain(buf[..]);
      }
    }

    /** `t = buf[ip++] - 17` for a first instruction above 17. */
    method FirstInstruction()
      requires Valid() && Regs() == Machine(0, 0, 0, []) && buf.Length > 0 && buf[0] as nat > 17
      modifies this
      ensures Valid() && Kept() && outBuf == old(outBuf) && Regs() == Machine(1, buf[0] as nat - 17, 0, [])
    {
      t, ip := buf[0] as nat - 17, 1;
    }

    /** `ip` and `m_pos` set to `i` and `p`, before a copy. */
    method Seek(i: nat, p: int)
      requires Valid() && i <= buf.Length
      modifies this
      ensures Valid() && Kept() && outBuf == old(outBuf) && Regs() == old(Regs()).(ip := i, mpos := p)
    {
      ip, mPos := i, p;
    }

    /** Decompress's first instruction 21 or more: CopyFromBuf, and the loop skips its first literal run. */
    method LongStart() returns (going: bool, r: Result<int>)
      requires Valid() && buf.Length > 0 && buf[0] as nat > 17 && Regs() == Machine(1, buf[0] as nat - 17, 0, []) && t >= 4
      modifies this, state, outBuf, out32
      ensures Valid() && KeptBut()
      ensures going ==> LzoSpec.Decompress(buf[..], false) == Loop(buf[..], Regs(), skipToFirstLiteralFun, false)
      ensures !going ==> r.Failure? && LzoSpec.Decompress(buf[..], false).Failure?
    {
      ghost var input, m := buf[..], Regs();
      // Set before the copy, which leaves it alone; the C# sets it after.
      skipToFirstLiteralFun := true;
      var ok := CopyFromBuf();
      LongStartLoops(input, m, ok, Regs());
      going, r := ok, if ok then Success(OK) else Failure(OutOfRange);
    }

    /** Decompress's first instruction 18..20: MatchNext, then Match. */
    method ShortStart() returns (going: bool, r: Result<int>)
      requires Valid() && buf.Length > 0 && buf[0] as nat > 17 && Regs() == Machine(1, buf[0] as nat - 17, 0, []) && t < 4
      modifies this, state, outBuf, out32
      ensures Valid() && Kept()
      ensures going ==> LzoSpec.Decompress(buf[..], false) == Loop(buf[..], Regs(), false, false)
      ensures !going ==> r.Success? == LzoSpec.Decompress(buf[..], false).Success?
      ensures !going && r.Success? ==> r.value == OK && state.outputBuffer[..] == LzoSpec.Decompress(buf[..], false).value
    {
      var ok := MatchNext();
      if !ok {
        going, r := false, Failure(OutOfRange);
      } else {
        r := Match();
        going := r == Success(OK);
        if r.Success? {
          r := Success(OK);
        }
      }
    }

    /**
     * Decompress: OK with the decoded bytes in `inputState.outputBuffer`,
     * or an exception (a failed Result), exactly as the reference LzoSpec
     * decompressor with separate `out32` says.
     */
    method Decompress(inputState: State) returns (r: Result<int>)
      modifies this, inputState
      ensures r.Success? == LzoSpec.Decompress(old(inputState.inputBuffer[..]), false).Success?
      ensures r.Success? ==> r.value == OK
      ensures r.Success? ==> inputState.outputBuffer[..] == LzoSpec.Decompress(old(inputState.inputBuffer[..]), false).value
    {
      Setup(inputState);
      if buf.Length == 0 {
        return Failure(OutOfRange);
      }
      var going;
      going, r := Start();
      if going {
        r := Run();
        if r.Success? {
          r := Success(OK);
        }
      }
    }

    /**
     * Compress for an input of fewer than 32 bytes, for which `_compressCore`
     * is never reached: one literal run, then the trailer 17, 0, 0.
     */
    method Compress(st: State) returns (r: int)
      requires st.inputBuffer.Length < 32
      modifies this, st
      ensures r == OK && st.outputBuffer[..] == Compressed(old(st.inputBuffer[..]))
    {
      var input := st.inputBuffer;
      var bytes, n := CompressShort(input);
      state, ip, buf, outBuf, op := st, 0, input, bytes, n;
      st.outputBuffer := CopyOut(bytes, n);
      r := OK;
    }
  }

  /** Nothing at or past `op` has been written: it still holds the zeros `new byte[]` put there. */
  ghost predicate Blank(bytes: array<byte>, op: nat)
    reads bytes
  {
    Zeroed(bytes[..], op)
  }

  /**
   * The body of CopyMatch after the buffer is large enough, on the output
   * arrays and the registers `op`, `m_pos` and `t` (`n`, already `t + 2`):
   * the aligned fast path (bytes to the word boundary, words through
   * `words`, the rest byte by byte) or the byte loop alone.
   */
  method CopyBack(bytes: array<byte>, words: array<bv32>, op: nat, mpos: int, n: nat, ghost m: Machine)
    returns (ok: bool, o: nat, s: int)
    requires 4 * words.Length == bytes.Length && mpos < op && op + n <= bytes.Length && Blank(bytes, op)
    requires m.out == bytes[..op] && m.mpos == mpos && m.t + 2 == n
    modifies bytes, words
    ensures op <= o <= bytes.Length && Blank(bytes, o)
    ensures ok == LzoSpec.CopyMatch(m, false).Success?
    ensures ok ==> bytes[..o] == LzoSpec.CopyMatch(m, false).value.out && s == LzoSpec.CopyMatch(m, false).value.mpos
  {
    if n > 4 && op % 4 == CsRem(mpos, 4) {
      ok, o, s := AlignedBack(bytes, words, op, mpos, n, m);
    } else {
      ok, o, s := TailBack(bytes, op, mpos, n, CopyBytes(bytes[..op], mpos, n));
    }
  }

  /** CopyBack's fast path: AlignBack, WordLoop, then TailBack. */
  method AlignedBack(bytes: array<byte>, words: array<bv32>, op: nat, mpos: int, n: nat, ghost m: Machine)
    returns (ok: bool, o: nat, s: int)
    requires 4 * words.Length == bytes.Length && mpos < op && op + n <= bytes.Length && Blank(bytes, op)
    requires m.out == bytes[..op] && m.mpos == mpos && m.t + 2 == n && n > 4 && op % 4 == CsRem(mpos, 4)
    modifies bytes, words
    ensures op <= o <= bytes.Length && Blank(bytes, o)
    ensures ok == LzoSpec.CopyMatch(m, false).Success?
    ensures ok ==> bytes[..o] == LzoSpec.CopyMatch(m, false).value.out && s == LzoSpec.CopyMatch(m, false).value.mpos
  {
    ghost var head := CopyBytes(bytes[..op], mpos, HeadLen(op));
    var k;
    ok, o, s, k := AlignBack(bytes, op, mpos, n, head);
    if !ok {
      AlignedHeadFails(m);
    } else {
      AlignHead(op, mpos);
      ghost var w := CopyWords(bytes[..o], s, k, false);
      AlignedWords(m, bytes[..o], w);
      ok, o, s, k := WordLoop(bytes, words, o, s, k, w);
      if ok {
        ghost var tail := CopyBytes(bytes[..o], s, k);
        ghost var r := ByteCopy(m.ip, bytes[..o], s, k);
        assert LzoSpec.CopyMatch(m, false) == r;
        ok, o, s := TailBack(bytes, o, s, k, tail);
        assert ok ==> r.value.out == tail.value && r.value.mpos == s;
      }
    }
  }

  /** CopyMatch's `while (op % 4 > 0) { outBuf[op++] = outBuf[m_pos++]; t--; }`. */
  method AlignBack(bytes: array<byte>, op: nat, mpos: int, t: nat, ghost head: Result<seq<byte>>)
    returns (ok: bool, o: nat, s: int, n: nat)
    requires mpos < op && op + t <= bytes.Length && t > HeadLen(op) && Blank(bytes, op)
    requires head == CopyBytes(bytes[..op], mpos, HeadLen(op))
    modifies bytes
    ensures op <= o <= bytes.Length && Blank(bytes, o)
    ensures ok == head.Success?
    ensures ok ==> bytes[..o] == head.value && o == op + HeadLen(op) && s == mpos + HeadLen(op) && n == t - HeadLen(op)
  {
    o, s, n := op, mpos, t;
    ok := true;
    while o % 4 > 0
      invariant op <= o && s < o && o + n <= bytes.Length && Blank(bytes, o)
      invariant o - op == s - mpos == t - n && o - op + HeadLen(o) == HeadLen(op) && n > HeadLen(o)
      invariant CopyBytes(bytes[..o], s, HeadLen(o)) == head && ok
      decreases HeadLen(o)
    {
      if s < 0 {
        ok := false;
        break;
      }
      HeadLenStep(o);
      ghost var before := bytes[..o];
      bytes[o] := bytes[s];
      assert bytes[..o + 1] == before + [before[s]];
      o, s, n := o + 1, s + 1, n - 1;
    }
  }

  /**
   * CopyMatch's word loop: it writes only `words`, so the bytes it steps over
   * in `bytes` stay the zeros they were.
   */
  method WordLoop(bytes: array<byte>, words: array<bv32>, op: nat, mpos: int, t: nat, ghost w: Result<Span>)
    returns (ok: bool, o: nat, s: int, n: nat)
    requires 4 * words.Length == bytes.Length && op % 4 == 0 && CsRem(mpos, 4) == 0
    requires mpos < op && op + t <= bytes.Length && t >= 1 && Blank(bytes, op)
    requires w == CopyWords(bytes[..op], mpos, t, false)
    modifies words
    ensures op <= o && s < o && o + n <= bytes.Length && n >= 1 && Blank(bytes, o)
    ensures ok == w.Success? && (ok ==> Span(bytes[..o], s, n) == w.value)
  {
    o, s, n := op, mpos, t;
    ghost var acc := bytes[..op];
    ok := true;
    while n > 4
      invariant op <= o && |acc| == o && |acc| % 4 == 0 && CsRem(s, 4) == 0 && s < o && o + n <= bytes.Length && n >= 1
      invariant acc == bytes[..o] && CopyWords(acc, s, n, false) == w && ok
    {
      if s < 0 {
        ok := false;
        break;
      }
      words[o / 4] := words[s / 4];
      ZeroWord(bytes[..], o);
      WordStep(acc, s, n);
      acc := acc + [0, 0, 0, 0];
      o, s, n := o + 4, s + 4, n - 4;
    }
  }

  /** CopyMatch's `do { outBuf[op++] = outBuf[m_pos++]; } while (--t > 0);` for a count of at least one. */
  method TailBack(bytes: array<byte>, op: nat, mpos: int, t: nat, ghost target: Result<seq<byte>>)
    returns (ok: bool, o: nat, s: int)
    requires mpos < op && op + t <= bytes.Length && t >= 1 && Blank(bytes, op)
    requires target == CopyBytes(bytes[..op], mpos, t)
    modifies bytes
    ensures op <= o <= bytes.Length && Blank(bytes, o)
    ensures ok == target.Success? && (ok ==> bytes[..o] == target.value && s == mpos + t)
  {
    o, s := op, mpos;
    var n := t;
    ok := true;
    while n > 0
      invariant op <= o && s < o && o + n <= bytes.Length && Blank(bytes, o)
      invariant s - mpos == t - n && CopyBytes(bytes[..o], s, n) == target && ok
    {
      if s < 0 {
        ok := false;
        break;
      }
      ghost var before := bytes[..o];
      bytes[o] := bytes[s];
      assert bytes[..o + 1] == before + [before[s]];
      o, s, n := o + 1, s + 1, n - 1;
    }
  }

  /**
   * The body of CopyFromBuf after the buffer is large enough: `t` literal
   * bytes from `src` at `ip`, with the same aligned fast path as CopyBack.
   */
  method CopyIn(bytes: array<byte>, words: array<bv32>, src: array<byte>, op: nat, ip: nat, t: nat, ghost m: Machine)
    returns (ok: bool, o: nat, i: nat)
    requires 4 * words.Length == bytes.Length && src != bytes && ip <= src.Length
    requires op + t <= bytes.Length && t >= 1 && Blank(bytes, op)
    requires m.out == bytes[..op] && m.ip == ip && m.t == t
    modifies bytes, words
    ensures op <= o <= bytes.Length && i <= src.Length && Blank(bytes, o)
    ensures ok == LzoSpec.CopyFromBuf(src[..], m, false).Success?
    ensures ok ==> bytes[..o] == LzoSpec.CopyFromBuf(src[..], m, false).value.out
    ensures ok ==> i == LzoSpec.CopyFromBuf(src[..], m, false).value.ip
  {
    if t > 4 && op % 4 == ip % 4 {
      ok, o, i := AlignedIn(bytes, words, src, op, ip, t, m);
    } else {
      ok, o, i := TailIn(bytes, src, op, ip, t);
      assert ok ==> bytes[..o] == m.out + src[ip..ip + t];
    }
  }

  /** CopyFromBuf's aligned path: bytes up to a word boundary, whole words, then the rest. */
  method AlignedIn(bytes: array<byte>, words: array<bv32>, src: array<byte>, op: nat, ip: nat, t: nat, ghost m: Machine)
    returns (ok: bool, o: nat, i: nat)
    requires 4 * words.Length == bytes.Length && src != bytes && ip <= src.Length
    requires op + t <= bytes.Length && t > 4 && op % 4 == ip % 4 && Blank(bytes, op)
    requires m.out == bytes[..op] && m.ip == ip && m.t == t
    modifies bytes, words
    ensures op <= o <= bytes.Length && i <= src.Length && Blank(bytes, o)
    ensures ok == LzoSpec.CopyFromBuf(src[..], m, false).Success?
    ensures ok ==> bytes[..o] == LzoSpec.CopyFromBuf(src[..], m, false).value.out
    ensures ok ==> i == LzoSpec.CopyFromBuf(src[..], m, false).value.ip
  {
    var n;
    ok, o, i, n := AlignIn(bytes, src, op, ip, t);
    if ok {
      ghost var w := LiteralWords(src[..], i, bytes[..o], n, false);
      LiteralSplit(src[..], m, bytes[..o], w);
      ok, o, i := WordsTailIn(bytes, words, src, o, i, n, m.mpos, w);
    }
  }

  /** The word loop of CopyFromBuf's aligned path, then the literals it leaves. */
  method WordsTailIn(bytes: array<byte>, words: array<bv32>, src: array<byte>, op: nat, ip: nat, t: nat,
                     ghost mpos: int, ghost w: Result<Span>)
    returns (ok: bool, o: nat, i: nat)
    requires 4 * words.Length == bytes.Length && src != bytes && ip <= src.Length
    requires op + t <= bytes.Length && t >= 1 && Blank(bytes, op)
    requires w == LiteralWords(src[..], ip, bytes[..op], t, false)
    modifies bytes, words
    ensures op <= o <= bytes.Length && i <= src.Length && Blank(bytes, o)
    ensures ok == (w.Success? && Literals(src[..], Machine(w.value.src, w.value.t, mpos, w.value.out)).Success?)
    ensures ok ==> bytes[..o] == Literals(src[..], Machine(w.value.src, w.value.t, mpos, w.value.out)).value.out
    ensures ok ==> i == Literals(src[..], Machine(w.value.src, w.value.t, mpos, w.value.out)).value.ip
  {
    var n;
    ok, o, i, n := WordsIn(bytes, words, src, op, ip, t, w);
    if ok {
      ghost var pre, i0 := bytes[..o], i;
      ok, o, i := TailIn(bytes, src, o, i, n);
      assert ok ==> bytes[..o] == pre + src[i0..i0 + n];
    }
  }

  /** CopyFromBuf's fast path after the head `head`: the word loop, then the literals from where it stops. */
  lemma LiteralSplit(buf: seq<byte>, m: Machine, head: seq<byte>, w: Result<Span>)
    requires m.ip <= |buf| && m.t > 4 && |m.out| % 4 == m.ip % 4 && m.ip + HeadLen(|m.out|) <= |buf|
    requires head == m.out + buf[m.ip..m.ip + HeadLen(|m.out|)]
    requires w == LiteralWords(buf, m.ip + HeadLen(|m.out|), head, m.t - HeadLen(|m.out|), false)
    ensures w.Failure? ==> LzoSpec.CopyFromBuf(buf, m, false).Failure?
    ensures w.Success? ==> LzoSpec.CopyFromBuf(buf, m, false) == Literals(buf, Machine(w.value.src, w.value.t, m.mpos, w.value.out))
  {
  }

  /** CopyFromBuf's `while (op % 4 > 0) { outBuf[op++] = buf[ip++]; t--; }`. */
  method AlignIn(bytes: array<byte>, src: array<byte>, op: nat, ip: nat, t: nat)
    returns (ok: bool, o: nat, i: nat, n: nat)
    requires src != bytes && ip <= src.Length && op + t <= bytes.Length && t > HeadLen(op) && Blank(bytes, op)
    modifies bytes
    ensures op <= o <= bytes.Length && i <= src.Length && Blank(bytes, o)
    ensures ok == (ip + HeadLen(op) <= src.Length)
    ensures ok ==> o == op + HeadLen(op) && i == ip + HeadLen(op) && n == t - HeadLen(op)
    ensures ok ==> bytes[..o] == old(bytes[..op]) + src[ip..i]
  {
    ghost var out := bytes[..op];
    o, i, n := op, ip, t;
    ok := true;
    while o % 4 > 0
      invariant op <= o && i <= src.Length && o + n <= bytes.Length && Blank(bytes, o)
      invariant o - op == i - ip == t - n && o - op + HeadLen(o) == HeadLen(op) && n > HeadLen(o)
      invariant bytes[..o] == out + src[ip..i] && ok
      decreases HeadLen(o)
    {
      if i == src.Length {
        ok := false;
        break;
      }
      HeadLenStep(o);
      bytes[o] := src[i];
      assert src[ip..i + 1] == src[ip..i] + [src[i]];
      o, i, n := o + 1, i + 1, n - 1;
    }
  }

  /** CopyFromBuf's `while (t > 4) { out32[op / 4] = BitConverter.ToUInt32(buf, ip); op += 4; ip += 4; t -= 4; }`. */
  method WordsIn(bytes: array<byte>, words: array<bv32>, src: array<byte>, op: nat, ip: nat, t: nat, ghost w: Result<Span>)
    returns (ok: bool, o: nat, i: nat, n: nat)
    requires 4 * words.Length == bytes.Length && ip <= src.Length
    requires op + t <= bytes.Length && t >= 1 && Blank(bytes, op)
    requires w == LiteralWords(src[..], ip, bytes[..op], t, false)
    modifies words
    ensures op <= o && o + n <= bytes.Length && n >= 1 && i <= src.Length && Blank(bytes, o)
    ensures ok == w.Success? && (ok ==> Span(bytes[..o], i, n) == w.value)
  {
    o, i, n := op, ip, t;
    ghost var acc := bytes[..op];
    ok := true;
    while n > 4
      invariant op <= o && |acc| == o && i <= src.Length && o + n <= bytes.Length && n >= 1
      invariant acc == bytes[..o] && LiteralWords(src[..], i, acc, n, false) == w && ok
    {
      if i + 4 > src.Length {
        ok := false;
        break;
      }
      words[o / 4] := Ripemd128.LeWord(src[i], src[i + 1], src[i + 2], src[i + 3]);
      ZeroWord(bytes[..], o);
      acc := acc + [0, 0, 0, 0];
      o, i, n := o + 4, i + 4, n - 4;
    }
  }

  /** CopyFromBuf's `do { outBuf[op++] = buf[ip++]; } while (--t > 0);` for a count of at least one. */
  method TailIn(bytes: array<byte>, src: array<byte>, op: nat, ip: nat, t: nat)
    returns (ok: bool, o: nat, i: nat)
    requires src != bytes && ip <= src.Length && op + t <= bytes.Length && t >= 1 && Blank(bytes, op)
    modifies bytes
    ensures op <= o <= bytes.Length && i <= src.Length && Blank(bytes, o)
    ensures ok == (ip + t <= src.Length)
    ensures ok ==> i == ip + t && bytes[..o] == old(bytes[..op]) + src[ip..i]
  {
    ghost var out := bytes[..op];
    o, i := op, ip;
    var n := t;
    ok := true;
    while n > 0
      invariant op <= o && i <= src.Length && o + n <= bytes.Length && Blank(bytes, o)
      invariant o - op == i - ip == t - n && bytes[..o] == out + src[ip..i] && ok
    {
      if i == src.Length {
        ok := false;
        break;
      }
      bytes[o] := src[i];
      assert src[ip..i + 1] == src[ip..i] + [src[i]];
      o, i, n := o + 1, i + 1, n - 1;
    }
  }

  /**
   * MatchNext's `outBuf[op++] = buf[ip++]; if (t > 1) { ... if (t > 2) ... }`:
   * one literal, a second when `t > 1`, a third when `t > 2`.
   */
  method NextLiterals(bytes: array<byte>, src: array<byte>, op: nat, ip: nat, t: nat) returns (o: nat, i: nat)
    requires src != bytes && op + 3 <= bytes.Length && Blank(bytes, op)
    requires ip + (if t > 2 then 3 else if t > 1 then 2 else 1) < src.Length
    modifies bytes
    ensures i == ip + (if t > 2 then 3 else if t > 1 then 2 else 1) && o == op + (i - ip)
    ensures bytes[..o] == old(bytes[..op]) + src[ip..i] && Blank(bytes, o)
  {
    ghost var out := bytes[..op];
    PutByte(bytes, op, src, ip);
    o, i := op + 1, ip + 1;
    assert bytes[..o] == out + src[ip..i];
    if t > 1 {
      PutByte(bytes, o, src, i);
      assert src[ip..i + 1] == src[ip..i] + [src[i]];
      o, i := o + 1, i + 1;
      if t > 2 {
        PutByte(bytes, o, src, i);
        assert src[ip..i + 1] == src[ip..i] + [src[i]];
        o, i := o + 1, i + 1;
      }
    }
  }

  /** `outBuf[op] = buf[ip]`: the output so far grows by the byte of `src` at `ip`. */
  method PutByte(bytes: array<byte>, op: nat, src: array<byte>, ip: nat)
    requires src != bytes && op < bytes.Length && ip < src.Length && Blank(bytes, op)
    modifies bytes
    ensures bytes[..op + 1] == old(bytes[..op]) + [src[ip]] && Blank(bytes, op + 1)
  {
    bytes[op] := src[ip];
    assert bytes[..op + 1] == old(bytes[..op]) + [src[ip]];
  }

  /** What the first part of a turn of Match found: a match still to copy, a short match already copied, or the marker. */
  datatype Decoded = ToCopy | CopiedTwo | StreamEnd

  /** `new byte[n]` holding a copy of the first `n` bytes of `bytes` (`Array.Copy`). */
  method CopyOut(bytes: array<byte>, n: nat) returns (c: array<byte>)
    requires n <= bytes.Length
    ensures fresh(c) && c[..] == bytes[..n]
  {
    c := new byte[n](i requires 0 <= i < n reads bytes => bytes[i]);
  }

  /** One step of CopyBytes from a position inside the output. */
  lemma CopyBytesStep(out: seq<byte>, mpos: int, k: nat)
    requires 0 <= mpos < |out| && k > 0
    ensures CopyBytes(out, mpos, k) == CopyBytes(out + [out[mpos]], mpos + 1, k - 1)
  {
  }

  /** Match's branch for an instruction of 64 or more: the distance takes one more byte. */
  method NearDecode(src: array<byte>, ip: nat, t: nat, op: nat, ghost m: Machine) returns (ok: bool, i: nat, n: nat, p: int)
    requires m == Machine(ip, t, m.mpos, m.out) && |m.out| == op && ip <= src.Length && t >= 64
    ensures ok == NearStep(src[..], m).Success?
    ensures ok ==> NearStep(src[..], m).value == Pending(Machine(i, n, p, m.out))
  {
    i, n, p := ip, t, op;
    ok := ip < src.Length;
    if ok {
      p := op - 1;
      p := p - t / 4 % 8;
      p := p - src[ip] as int * 8;
      i, n := ip + 1, t / 32 - 1;
    }
  }

  /** Match's branch for an instruction of 32 to 63: a length, then a 14-bit distance. */
  method MidDecode(src: array<byte>, ip: nat, t: nat, op: nat, ghost m: Machine) returns (ok: bool, i: nat, n: nat, p: int)
    requires m == Machine(ip, t, m.mpos, m.out) && |m.out| == op && ip <= src.Length && 32 <= t < 64
    ensures ok == MidStep(src[..], m).Success?
    ensures ok ==> MidStep(src[..], m).value == Pending(Machine(i, n, p, m.out))
  {
    i, n, p := ip, t % 32, op;
    ok := true;
    if n == 0 {
      ok, i, n := ReadLength(src, i, 0, 31);
    }
    if ok {
      ok := i + 2 <= src.Length;
      if ok {
        p := op - 1;
        p := p - (src[i] as int / 4 + src[i + 1] as int * 64);
        i := i + 2;
      }
    }
  }

  /**
   * Match's branch for an instruction of 16 to 31: a length, then a
   * distance beyond 0x4000; a distance of zero is the end-of-stream marker.
   */
  method FarDecode(src: array<byte>, ip: nat, t: nat, op: nat, ghost m: Machine) returns (ok: bool, eof: bool, i: nat, n: nat, p: int)
    requires m == Machine(ip, t, m.mpos, m.out) && |m.out| == op && ip <= src.Length && 16 <= t < 32
    ensures ok == FarStep(src[..], m).Success?
    ensures ok ==> (eof <==> FarStep(src[..], m).value.EndOfStream?)
    ensures ok && !eof ==> FarStep(src[..], m).value == Pending(Machine(i, n, p, m.out))
  {
    p := op;
    p := p - t / 8 % 2 * 0x4000;
    i, n := ip, t % 8;
    ok, eof := true, false;
    if n == 0 {
      ok, i, n := ReadLength(src, i, 0, 7);
    }
    if ok {
      ok := i + 2 <= src.Length;
      if ok {
        p := p - (src[i] as int / 4 + src[i + 1] as int * 64);
        i := i + 2;
        eof := p == op;
        if !eof {
          p := p - 0x4000;
        }
      }
    }
  }

  /**
   * `while (buf[ip] == 0) { t += 255; ip++; } t += base + buf[ip++];`: a
   * length field; reading past the input throws.
   */
  method ReadLength(src: array<byte>, ip: nat, t: nat, base: nat) returns (ok: bool, i: nat, n: nat)
    requires ip <= src.Length
    ensures ok == ZeroRun(src[..], ip, t, base).Success?
    ensures ok ==> ZeroRun(src[..], ip, t, base).value == Run(i, n)
  {
    i, n := ip, t;
    while i < src.Length && src[i] == 0
      invariant ip <= i <= src.Length && ZeroRun(src[..], i, n, base) == ZeroRun(src[..], ip, t, base)
      decreases src.Length - i
    {
      n := n + 255;
      i := i + 1;
    }
    ok := i < src.Length;
    if ok {
      i, n := i + 1, n + base + src[i] as nat;
    }
  }

  /** `outBuf[op++] = outBuf[m_pos++]; outBuf[op++] = outBuf[m_pos];`, the two-byte copy of Match's short branch. */
  method CopyTwo(bytes: array<byte>, op: nat, mpos: nat, ghost out: seq<byte>) returns (o: nat, s: nat)
    requires mpos < op && op + 2 <= bytes.Length && Blank(bytes, op) && out == bytes[..op]
    modifies bytes
    ensures o == op + 2 && s == mpos + 1 && Blank(bytes, o)
    ensures bytes[..o] == out + [out[mpos], (out + [out[mpos]])[mpos + 1]]
  {
    bytes[op] := bytes[mpos];
    bytes[op + 1] := bytes[mpos + 1];
    o, s := op + 2, mpos + 1;
    assert bytes[..o] == out + [out[mpos], (out + [out[mpos]])[mpos + 1]];
  }

  /**
   * Match's branch for an instruction below 16, up to the copy: the distance
   * byte is read (`read`), and the two-byte match starts inside the output (`ok`).
   */
  method ShortDecode(src: array<byte>, ip: nat, t: nat, op: nat, ghost m: Machine) returns (read: bool, ok: bool, i: nat, p: nat)
    requires m == Machine(ip, t, m.mpos, m.out) && |m.out| == op && ip <= src.Length && t < 16
    ensures ok ==> read
    ensures ok == ShortStep(src[..], m).Success?
    ensures read == (ip < src.Length) && (read ==> i == ip + 1)
    ensures ok ==> p < op && ShortStep(src[..], m).value == Copied(Machine(i, t, p + 1, m.out + [m.out[p], (m.out + [m.out[p]])[p + 1]]))
  {
    i, p := ip, 0;
    read := ip < src.Length;
    ok := false;
    if read {
      var d := op - M1Distance(t, src[ip]);
      i := ip + 1;
      ok := d >= 0;
      if ok {
        p := d;
        ShortStepCopies(src[..], m, p);
      } else {
        ShortStepFails(src[..], m, d);
      }
    }
  }

  /** CopyBytes of two bytes from inside the output. */
  lemma TwoBytes(out: seq<byte>, p: int)
    requires 0 <= p < |out|
    ensures CopyBytes(out, p, 2) == Success(out + [out[p], (out + [out[p]])[p + 1]])
  {
    CopyBytesStep(out, p, 2);
    CopyBytesStep(out + [out[p]], p + 1, 1);
    assert out + [out[p]] + [(out + [out[p]])[p + 1]] == out + [out[p], (out + [out[p]])[p + 1]];
  }

  /** ShortStep when the two-byte match starts inside the output. */
  lemma ShortStepCopies(buf: seq<byte>, m: Machine, p: int)
    requires m.ip < |buf| && m.t < 16 && p == |m.out| - M1Distance(m.t, buf[m.ip]) && 0 <= p
    ensures ShortStep(buf, m) == Success(Copied(Machine(m.ip + 1, m.t, p + 1, m.out + [m.out[p], (m.out + [m.out[p]])[p + 1]])))
  {
    TwoBytes(m.out, p);
  }

  /** ShortStep when the two-byte match would start before the output. */
  lemma ShortStepFails(buf: seq<byte>, m: Machine, p: int)
    requires m.ip < |buf| && m.t < 16 && p == |m.out| - M1Distance(m.t, buf[m.ip]) && p < 0
    ensures ShortStep(buf, m).Failure?
  {
  }

  /** Every element of `s` from `from` on is zero. */
  predicate Zeroed(s: seq<byte>, from: nat)
  {
    forall i :: from <= i < |s| ==> s[i] == 0
  }

  /** The length field of a literal run: `t` itself, or a run of zero bytes and a final byte when `t` is zero. */
  method ReadField(src: array<byte>, ip: nat, t: nat) returns (ok: bool, i: nat, n: nat)
    requires ip <= src.Length
    ensures ok == LengthField(src[..], ip, t, 16, 15).Success?
    ensures ok ==> LengthField(src[..], ip, t, 16, 15).value == Run(i, n)
  {
    if t % 16 == 0 {
      ok, i, n := ReadLength(src, ip, 0, 15);
    } else {
      ok, i, n := true, ip, t % 16;
    }
  }

  /** A literal run is its length field, then CopyFromBuf of the length plus three. */
  lemma LiteralRunSplit(buf: seq<byte>, m: Machine, ok: bool, i: nat, n: nat)
    requires m.ip < |buf| && buf[m.ip] as nat < 16
    requires ok == LengthField(buf, m.ip + 1, buf[m.ip] as nat, 16, 15).Success?
    requires ok ==> LengthField(buf, m.ip + 1, buf[m.ip] as nat, 16, 15).value == Run(i, n)
    ensures !ok ==> LzoSpec.LiteralRun(buf, m, false).Failure?
    ensures ok ==> i <= |buf| && LzoSpec.LiteralRun(buf, m, false) == CopyFromBuf(buf, Machine(i, n + 3, m.mpos, m.out), false)
  {
    var run := LengthField(buf, m.ip + 1, buf[m.ip] as nat, 16, 15);
    if ok {
      assert run == Success(Run(i, n));
    }
  }

  /** The three bytes `outBuf[op++] = outBuf[m_pos++]` (twice) and `outBuf[op++] = outBuf[m_pos]` append. */
  function Trio(out: seq<byte>, p: nat): (r: seq<byte>)
    requires p + 2 < |out|
    ensures |r| == |out| + 3
  {
    out + [out[p], out[p + 1], out[p + 2]]
  }

  /** Three bytes copied from far enough back do not overlap the bytes they write. */
  lemma ThreeBytes(out: seq<byte>, p: nat)
    requires p + 2 < |out|
    ensures CopyBytes(out, p, 3) == Success(Trio(out, p))
  {
    CopyBytesStep(out, p, 3);
    CopyBytesStep(out + [out[p]], p + 1, 2);
    CopyBytesStep(out + [out[p]] + [out[p + 1]], p + 2, 1);
    assert out + [out[p]] + [out[p + 1]] + [out[p + 2]] == Trio(out, p);
  }

  /** ThreeMatch up to the copy: the distance byte is read (`read`) and the match starts inside the output (`ok`). */
  method ThreeDecode(src: array<byte>, ip: nat, t: nat, op: nat, ghost m: Machine) returns (read: bool, ok: bool, i: nat, p: nat)
    requires m == Machine(ip, t, m.mpos, m.out) && |m.out| == op && ip <= src.Length && t < 16
    ensures ok ==> read
    ensures read == (ip < src.Length) && (read ==> i == ip + 1)
    ensures ok == ThreeStep(src[..], m).Success?
    ensures ok ==> p + 2 < op && ThreeStep(src[..], m).value == Machine(i, t, p + 2, Trio(m.out, p))
  {
    i, p := ip, 0;
    read := ip < src.Length;
    ok := false;
    if read {
      var d := op - (1 + 0x0800) - t / 4 - src[ip] as int * 4;
      i := ip + 1;
      ok := d >= 0;
      if ok {
        p := d;
        ThreeBytes(m.out, p);
      }
    }
  }

  /** `outBuf[op++] = outBuf[m_pos++]; outBuf[op++] = outBuf[m_pos++]; outBuf[op++] = outBuf[m_pos];` */
  method CopyThree(bytes: array<byte>, op: nat, mpos: nat, ghost out: seq<byte>) returns (o: nat, s: nat)
    requires mpos + 2 < op && op + 3 <= bytes.Length && Blank(bytes, op) && out == bytes[..op]
    modifies bytes
    ensures o == op + 3 && s == mpos + 2 && Blank(bytes, o)
    ensures bytes[..o] == Trio(out, mpos)
  {
    bytes[op] := bytes[mpos];
    bytes[op + 1] := bytes[mpos + 1];
    bytes[op + 2] := bytes[mpos + 2];
    o, s := op + 3, mpos + 2;
    assert bytes[..o] == Trio(out, mpos);
  }

  /** `buf.Length + (BlockSize - buf.Length % BlockSize) % BlockSize`: the length rounded up to whole blocks. */
  function OutLength(n: nat): (r: nat)
    ensures r % BlockSize == 0 && n <= r < n + BlockSize
  {
    n + (BlockSize - n % BlockSize) % BlockSize
  }

  /** `new byte[n]`: an array of zeros. */
  method Zeros(n: nat) returns (a: array<byte>)
    ensures fresh(a) && a.Length == n && Blank(a, 0)
  {
    a := new byte[n](_ => 0);
  }

  /** `new uint[n / 4]`, for `n` a multiple of four: an array of zero words. */
  method ZeroWords(n: nat) returns (a: array<bv32>)
    requires n % 4 == 0
    ensures fresh(a) && 4 * a.Length == n && forall k :: 0 <= k < a.Length ==> a[k] == 0
  {
    a := new bv32[n / 4](_ => 0);
  }

  /** Decompress's `buf32`: the input padded with zeros to whole words, as words. */
  method Padded(input: array<byte>) returns (words: array<bv32>)
    ensures fresh(words) && 4 * words.Length == input.Length + (4 - input.Length % 4) % 4
  {
    var paddedBuf := new byte[input.Length + (4 - input.Length % 4) % 4](_ => 0);
    forall i | 0 <= i < input.Length {
      paddedBuf[i] := input[i];
    }
    words := BlockCopy(paddedBuf);
  }

  /**
   * Compress's output array for fewer than 32 input bytes and the count `op`
   * of bytes written: the literal header `17 + t`, the input, and the trailer.
   */
  method CompressShort(src: array<byte>) returns (bytes: array<byte>, op: nat)
    requires src.Length < 32
    ensures fresh(bytes) && op <= bytes.Length && bytes[..op] == Compressed(src[..])
  {
    var inLen := src.Length;
    var maxLen := inLen + (inLen + 15) / 16 + 64 + 3;
    bytes := new byte[maxLen](_ => 0);
    op := 0;
    // `while (l > 20)` stops at its first test: `(t + ll) >> 5` is zero for ll < 32.
    var n := inLen;
    if n > 0 {
      op := PutLiterals(bytes, src);
    }
    assert bytes[..op] == if n == 0 then [] else FirstLiteralHeader(n) + src[..];
    op := PutTrailer(bytes, op, bytes[..op]);
  }

  /** The literal run of Compress when the output is still empty: `17 + t`, then the `t` input bytes. */
  method PutLiterals(bytes: array<byte>, src: array<byte>) returns (op: nat)
    requires 1 <= src.Length <= 238 && src.Length < bytes.Length && bytes != src
    modifies bytes
    ensures op == src.Length + 1 && bytes[..op] == FirstLiteralHeader(src.Length) + src[..]
  {
    var n := src.Length;
    ghost var head := FirstLiteralHeader(n);
    bytes[0] := ByteOf(17 + n);
    assert bytes[..1] == head;
    op := CopyLiterals(bytes, 1, src, head);
  }

  /** `while (--t >= 0) outBuf[op++] = buf[ii++];` for the whole input, after `head`. */
  method CopyLiterals(bytes: array<byte>, op0: nat, src: array<byte>, ghost head: seq<byte>) returns (op: nat)
    requires op0 + src.Length <= bytes.Length && bytes != src && bytes[..op0] == head
    modifies bytes
    ensures op == op0 + src.Length && bytes[..op] == head + src[..]
  {
    var ii := 0;
    op := op0;
    while ii < src.Length
      invariant op == op0 + ii && ii <= src.Length
      invariant bytes[..op] == head + src[..ii]
    {
      ghost var pre := bytes[..op];
      bytes[op] := src[ii];
      assert bytes[..op + 1] == pre + [src[ii]];
      assert src[..ii + 1] == src[..ii] + [src[ii]];
      op, ii := op + 1, ii + 1;
    }
    assert src[..ii] == src[..];
  }

  /** `outBuf[op++] = 17; outBuf[op++] = 0; outBuf[op++] = 0;`: the end-of-stream trailer. */
  method PutTrailer(bytes: array<byte>, op: nat, ghost body: seq<byte>) returns (o: nat)
    requires op + 3 <= bytes.Length && bytes[..op] == body
    modifies bytes
    ensures o == op + 3 && bytes[..o] == body + Trailer
  {
    bytes[op] := 17;
    bytes[op + 1] := 0;
    bytes[op + 2] := 0;
    o := op + 3;
    assert bytes[..o] == body + Trailer;
  }

  /** Decompress's first instruction 21 or more: after CopyFromBuf, the loop with its first literal run skipped. */
  lemma LongStartLoops(buf: seq<byte>, m: Machine, ok: bool, m1: Machine)
    requires |buf| > 0 && buf[0] as nat > 17 && m == Machine(1, buf[0] as nat - 17, 0, []) && m.t >= 4
    requires ok == LzoSpec.CopyFromBuf(buf, m, false).Success?
    requires ok ==> m1 == LzoSpec.CopyFromBuf(buf, m, false).value
    ensures ok ==> m1.ip <= |buf| && LzoSpec.Decompress(buf, false) == Loop(buf, m1, true, false)
    ensures !ok ==> LzoSpec.Decompress(buf, false).Failure?
  {
    if ok {
      DecompressFirstRun(buf, m1, false);
    }
  }

  /** A first instruction of 17 or less leaves Decompress to its loop from the start. */
  lemma DecompressPlain(buf: seq<byte>)
    requires |buf| > 0 && buf[0] as nat <= 17
    ensures LzoSpec.Decompress(buf, false) == Loop(buf, Machine(0, 0, 0, []), false, false)
  {
  }

  /** An output word past `op` that was never written reads as four zeros. */
  lemma ZeroWord(a: seq<byte>, op: nat)
    requires op + 4 <= |a| && a[op] == 0 && a[op + 1] == 0 && a[op + 2] == 0 && a[op + 3] == 0
    ensures a[..op + 4] == a[..op] + [0, 0, 0, 0]
  {
    assert a[..op + 4] == a[..op] + a[op..op + 4];
  }

  /** One turn of CopyMatch's word loop as written: four zero bytes, both positions four on. */
  lemma WordStep(out: seq<byte>, mpos: int, t: int)
    requires 0 <= mpos < |out| && |out| % 4 == 0 && CsRem(mpos, 4) == 0 && t > 4
    ensures |out + [0, 0, 0, 0]| % 4 == 0 && CsRem(mpos + 4, 4) == 0 && mpos + 4 < |out| + 4
    ensures CopyWords(out, mpos, t, false) == CopyWords(out + [0, 0, 0, 0], mpos + 4, t - 4, false)
  {
  }

  /** CopyMatch's fast path fails when the bytes up to the word boundary cannot be copied. */
  lemma AlignedHeadFails(m: Machine)
    requires m.mpos < |m.out| && m.t + 2 > 4 && |m.out| % 4 == CsRem(m.mpos, 4)
    requires CopyBytes(m.out, m.mpos, HeadLen(|m.out|)).Failure?
    ensures LzoSpec.CopyMatch(m, false).Failure?
  {
    AlignedMatchUnfold(m, false);
  }

  /**
   * CopyMatch's fast path after the head `head`: the word loop, then the
   * byte loop from where it stops.
   */
  lemma AlignedWords(m: Machine, head: seq<byte>, w: Result<Span>)
    requires m.mpos < |m.out| && m.t + 2 > 4 && |m.out| % 4 == CsRem(m.mpos, 4)
    requires CopyBytes(m.out, m.mpos, HeadLen(|m.out|)) == Success(head)
    requires |head| % 4 == 0 && CsRem(m.mpos + HeadLen(|m.out|), 4) == 0
    requires w == CopyWords(head, m.mpos + HeadLen(|m.out|), m.t + 2 - HeadLen(|m.out|), false)
    ensures w.Failure? ==> LzoSpec.CopyMatch(m, false).Failure?
    ensures w.Success? ==> LzoSpec.CopyMatch(m, false) == ByteCopy(m.ip, w.value.out, w.value.src, w.value.t)
  {
    AlignedMatchUnfold(m, false);
  }

  /** One byte short of a word boundary is one byte closer to it. */
  lemma HeadLenStep(n: nat)
    requires n % 4 > 0
    ensures HeadLen(n + 1) == HeadLen(n) - 1
  {
  }

  /** `Buffer.BlockCopy` of a byte array into a uint array: word k is bytes 4k..4k+3, little-endian. */
  predicate WordsOf(bytes: array<byte>, words: array<bv32>)
    reads bytes, words
  {
    4 * words.Length == bytes.Length &&
    forall k :: 0 <= k < words.Length ==>
      words[k] == Ripemd128.LeWord(bytes[4 * k], bytes[4 * k + 1], bytes[4 * k + 2], bytes[4 * k + 3])
  }

  /** `new uint[bytes.Length / 4]` filled by `Buffer.BlockCopy` from `bytes`, whose length is a multiple of four. */
  method BlockCopy(bytes: array<byte>) returns (words: array<bv32>)
    requires bytes.Length % 4 == 0
    ensures fresh(words) && WordsOf(bytes, words)
  {
    words := new bv32[bytes.Length / 4];
    forall k | 0 <= k < words.Length {
      words[k] := Ripemd128.LeWord(bytes[4 * k], bytes[4 * k + 1], bytes[4 * k + 2], bytes[4 * k + 3]);
    }
  }

  /** C#'s `b & 3` on a byte is its value modulo four. */
  lemma LowBits(b: byte)
    ensures (b & 3) as nat == b as nat % 4
  {
  }

  /** Bit `i` of `v`. */
  predicate Bit(v: bv32, i: nat)
    requires i < 32
  {
    (v >> i) & 1 == 1
  }
}
