/**
 * The key blocks (BaseDict.UnpackKeyBlock, SplitKeyBlock and ReadKeyBlocks).
 * Each block is read at its place in the file, unpacked by its 4-byte
 * compression magic and split into keywords: a number field (the keyword's
 * offset in the unpacked records), the key's bytes and a terminator of one
 * zero byte, or two for UTF-16 keys. Each keyword's record ends where the
 * next keyword's record starts; the last keyword of the dictionary waits for
 * the record-info table to learn its end.
 */
module KeyBlocks {
  import opened Common
  import LzoSpec
  import opened Records
  import BaseDict

  // ---------------------------------------------------------------------------
  // Unpacking a key block

  /** The 4-byte magics of a packed block, as BitConverter prints them: "00000000", "01000000", "02000000". */
  const StoredMagic: seq<byte> := [0, 0, 0, 0]
  const LzoMagic: seq<byte> := [1, 0, 0, 0]
  const ZlibMagic: seq<byte> := [2, 0, 0, 0]

  /**
   * UnpackKeyBlock: the block's compression is named by its first four
   * bytes; the packed data starts after the magic and a 4-byte checksum.
   * Reading the magic needs four bytes and dropping the header needs eight;
   * an unknown magic is reported before the length is looked at. LZO output
   * goes to a buffer of `unpackSize` bytes, which must not be negative.
   */
  function UnpackKeyBlock(buf: seq<byte>, unpackSize: int, host: Host): (r: Result<seq<byte>>)
    ensures r.Success? ==> |buf| >= 8 && (buf[..4] == StoredMagic || buf[..4] == LzoMagic || buf[..4] == ZlibMagic)
    ensures |buf| >= 4 && buf[..4] != StoredMagic && buf[..4] != LzoMagic && buf[..4] != ZlibMagic ==> r == Failure(UnknownCompression)
  {
    if |buf| < 4 then Failure(OutOfRange)
    else if buf[..4] != StoredMagic && buf[..4] != LzoMagic && buf[..4] != ZlibMagic then Failure(UnknownCompression)
    else if |buf| < 8 then Failure(OutOfRange)
    else if buf[..4] == StoredMagic then Success(buf[8..])
    else if buf[..4] == LzoMagic then
      if unpackSize < 0 then Failure(NegativeLength) else LzoSpec.Decompress(buf[8..], true)
    else
      match host.inflate(buf[8..])
      case None => Failure(InflateError)
      case Some(out) => Success(out)
  }

  /** A stored block unpacks to the bytes after its 8-byte header. */
  lemma UnpackStored(check: seq<byte>, data: seq<byte>, unpackSize: int, host: Host)
    requires |check| == 4
    ensures UnpackKeyBlock(StoredMagic + check + data, unpackSize, host) == Success(data)
  {
    var buf := StoredMagic + check + data;
    assert buf[..4] == StoredMagic && buf[8..] == data;
  }

  /** An LZO block holding the compressor's output for a short input unpacks to that input. */
  lemma UnpackLzo(check: seq<byte>, x: seq<byte>, unpackSize: int, host: Host)
    requires |check| == 4 && |x| < 32 && unpackSize >= 0
    ensures UnpackKeyBlock(LzoMagic + check + LzoSpec.Compressed(x), unpackSize, host) == Success(x)
  {
    var buf := LzoMagic + check + LzoSpec.Compressed(x);
    assert buf[..4] == LzoMagic && buf[8..] == LzoSpec.Compressed(x);
    LzoSpec.ShortRoundTrip(x, true);
  }

  /**
   * The block-level view of the out32 finding: an LZO block holding
   * LostWordStream unpacks to "abcd" three times here, while the decoder as
   * written (LzoSpec.Decompress with unshared words, which Lzo.Lzo1x is
   * proved to compute) yields "abcd" and eight zero bytes for the same data.
   */
  lemma UnpackLostWordStream(check: seq<byte>, unpackSize: int, host: Host)
    requires |check| == 4 && unpackSize >= 0
    ensures var buf := LzoMagic + check + LzoSpec.LostWordStream;
      && UnpackKeyBlock(buf, unpackSize, host) == Success([97, 98, 99, 100, 97, 98, 99, 100, 97, 98, 99, 100])
      && LzoSpec.Decompress(buf[8..], false) == Success([97, 98, 99, 100, 0, 0, 0, 0, 0, 0, 0, 0])
  {
    var buf := LzoMagic + check + LzoSpec.LostWordStream;
    assert buf[..4] == LzoMagic && buf[8..] == LzoSpec.LostWordStream;
    LzoSpec.AsWrittenStreamLosesBytes();
  }

  /** A zlib block unpacks to what the inflater makes of the bytes after its header. */
  lemma UnpackZlib(check: seq<byte>, data: seq<byte>, unpackSize: int, host: Host)
    requires |check| == 4
    ensures UnpackKeyBlock(ZlibMagic + check + data, unpackSize, host)
      == if host.inflate(data).Some? then Success(host.inflate(data).value) else Failure(InflateError)
  {
    var buf := ZlibMagic + check + data;
    assert buf[..4] == ZlibMagic && buf[8..] == data;
  }

  // ---------------------------------------------------------------------------
  // Finding a key's terminator

  /** The width of a key's terminator: two zero bytes for UTF-16 keys, which a resource file always has, else one. */
  function TerminatorWidth(meta: Meta): (width: nat)
    ensures width == 1 || width == 2
    ensures width == 2 <==> meta.encoding == UTF16 || IsMdd(meta)
  {
    if meta.encoding == UTF16 || IsMdd(meta) then 2 else 1
  }

  /** A terminator at i: a zero byte, followed by a second one when the width is 2. */
  predicate TerminatorAt(block: seq<byte>, i: nat, width: nat)
    requires 1 <= width && i + width <= |block|
  {
    block[i] == 0 && (width == 2 ==> block[i + 1] == 0)
  }

  /** The positions the scan from `from` visits: every one for width 1, every other one for width 2. */
  predicate OnGrid(from: nat, j: nat, width: nat)
  {
    from <= j && (width == 2 ==> (j - from) % 2 == 0)
  }

  /** No visited position in [from, k) holds a terminator. */
  predicate NoTerminatorBefore(block: seq<byte>, from: nat, k: nat, width: nat)
    requires width == 1 || width == 2
  {
    forall j :: from <= j < k && OnGrid(from, j, width) && j + width <= |block| ==> !TerminatorAt(block, j, width)
  }

  /**
   * The inner loop of SplitKeyBlock: the first visited position from `from`
   * on that holds a terminator, or none. With width 2 the second byte is read
   * without a bounds check: a zero in the block's last byte, when the scan
   * visits it, raises.
   */
  function FindTerminator(block: seq<byte>, from: nat, width: nat): (r: Result<Option<nat>>)
    requires width == 1 || width == 2
    ensures r.Failure? ==> r.error == OutOfRange
    ensures r.Success? && r.value.Some? ==> from <= r.value.value && r.value.value + width <= |block|
    decreases |block| - from
  {
    if from >= |block| then Success(None)
    else if width == 2 && from + 1 == |block| && block[from] == 0 then Failure(OutOfRange)
    else if block[from] == 0 && (width == 1 || block[from + 1] == 0) then Success(Some(from))
    else FindTerminator(block, from + width, width)
  }

  /**
   * What FindTerminator finds: the first terminator the scan visits; none
   * when no visited position holds one and the scan does not run off the
   * end; an error exactly when the scan reaches a zero in the last byte
   * while looking for two.
   */
  lemma {:induction false} FindTerminatorFinds(block: seq<byte>, from: nat, width: nat)
    requires width == 1 || width == 2
    ensures var r := FindTerminator(block, from, width);
      && (r.Success? && r.value.Some? ==>
            var k := r.value.value;
            OnGrid(from, k, width) && TerminatorAt(block, k, width) && NoTerminatorBefore(block, from, k, width))
      && (r == Success(None) ==>
            NoTerminatorBefore(block, from, |block|, width)
            && !(width == 2 && |block| >= 1 && OnGrid(from, |block| - 1, width) && block[|block| - 1] == 0))
      && (r.Failure? ==>
            width == 2 && |block| >= 1 && OnGrid(from, |block| - 1, width) && block[|block| - 1] == 0
            && NoTerminatorBefore(block, from, |block| - 1, width))
    decreases |block| - from
  {
    if from < |block| && !(width == 2 && from + 1 == |block| && block[from] == 0)
      && !(block[from] == 0 && (width == 1 || block[from + 1] == 0))
    {
      FindTerminatorFinds(block, from + width, width);
      forall j | OnGrid(from, j, width) && !OnGrid(from + width, j, width)
        ensures j == from
      {
      }
    }
  }

  /** SplitKeyBlock's inner loop: step by the terminator width until a terminator or the end of the block. */
  method ScanTerminator(block: seq<byte>, from: nat, width: nat) returns (r: Result<Option<nat>>)
    requires width == 1 || width == 2
    ensures r == FindTerminator(block, from, width)
  {
    var i := from;
    while i < |block|
      invariant from <= i
      invariant FindTerminator(block, i, width) == FindTerminator(block, from, width)
      decreases |block| - i
    {
      if block[i] == 0 && width == 2 && i + 1 == |block| {
        return Failure(OutOfRange);
      }
      if (width == 1 && block[i] == 0) || (width == 2 && block[i] == 0 && block[i + 1] == 0) {
        return Success(Some(i));
      }
      i := i + width;
    }
    return Success(None);
  }


  // ---------------------------------------------------------------------------
  // Splitting a key block

  /**
   * A keyword as the scan finds it: where its entry starts, where its
   * terminator is, the record offset it stores and its decoded text.
   */
  datatype Scanned = Scanned(keyStart: nat, keyEnd: nat, offset: nat, text: Text)

  /**
   * One turn of SplitKeyBlock's loop at `keyStart`: the numWidth-byte record
   * offset, then the key's bytes up to the first terminator the scan visits,
   * decoded; none when the rest of the block holds no terminator.
   */
  function NextKey(block: seq<byte>, keyStart: nat, meta: Meta, host: Host): (r: Result<Option<Scanned>>)
    requires BaseDict.WidthOk(meta)
    ensures r.Success? && r.value.Some? ==>
      r.value.value.keyStart + meta.numWidth <= r.value.value.keyEnd && r.value.value.keyEnd + TerminatorWidth(meta) <= |block|
  {
    var offset :- BaseDict.Field(block, keyStart, meta.numWidth);
    var keyEnd :- FindTerminator(block, keyStart + meta.numWidth, TerminatorWidth(meta));
    if keyEnd.None? then Success(None)
    else Success(Some(Scanned(keyStart, keyEnd.value, offset, host.decode(meta.encoding, block[keyStart + meta.numWidth..keyEnd.value]))))
  }

  /**
   * The keywords of `block` from `keyStart` on, one NextKey after another,
   * each next one starting after the terminator of the one before. The scan
   * stops at the end of the block or where no terminator is left.
   */
  function ScanKeys(block: seq<byte>, keyStart: nat, meta: Meta, host: Host): (r: Result<seq<Scanned>>)
    requires BaseDict.WidthOk(meta)
    decreases |block| - keyStart
  {
    if keyStart >= |block| then Success([])
    else
      var next :- NextKey(block, keyStart, meta, host);
      if next.None? then Success([])
      else
        var rest :- ScanKeys(block, next.value.keyEnd + TerminatorWidth(meta), meta, host);
        Success([next.value] + rest)
  }

  /**
   * The keyword `x` lies in `block` as SplitKeyBlock reads it: its record
   * offset in the numWidth bytes at its start, then its key, up to the first
   * terminator the scan visits, which `text` decodes.
   */
  predicate KeyLaid(block: seq<byte>, x: Scanned, meta: Meta, host: Host)
    requires BaseDict.WidthOk(meta)
  {
    var w, width := meta.numWidth, TerminatorWidth(meta);
    && x.keyStart + w <= x.keyEnd && x.keyEnd + width <= |block|
    && BaseDict.Field(block, x.keyStart, w) == Success(x.offset)
    && OnGrid(x.keyStart + w, x.keyEnd, width) && TerminatorAt(block, x.keyEnd, width)
    && NoTerminatorBefore(block, x.keyStart + w, x.keyEnd, width)
    && x.text == host.decode(meta.encoding, block[x.keyStart + w..x.keyEnd])
  }

  /** The scanned keywords `ks` lie one after another in `block` from `keyStart` on. */
  predicate Consecutive(block: seq<byte>, keyStart: nat, ks: seq<Scanned>, meta: Meta, host: Host)
    requires BaseDict.WidthOk(meta)
    decreases |ks|
  {
    ks != [] ==>
      && ks[0].keyStart == keyStart && KeyLaid(block, ks[0], meta, host)
      && Consecutive(block, ks[0].keyEnd + TerminatorWidth(meta), ks[1..], meta, host)
  }

  /** The scan after the last keyword found: the block ends, or its tail has no terminator. */
  predicate Exhausted(block: seq<byte>, keyStart: nat, ks: seq<Scanned>, meta: Meta)
    requires BaseDict.WidthOk(meta)
  {
    var next := if ks == [] then keyStart else ks[|ks| - 1].keyEnd + TerminatorWidth(meta);
    next >= |block| || FindTerminator(block, next + meta.numWidth, TerminatorWidth(meta)) == Success(None)
  }

  /**
   * The keywords `ks` are those successive turns of the loop find from
   * `keyStart` on, and the turn after the last finds nothing more.
   */
  predicate Chain(block: seq<byte>, keyStart: nat, ks: seq<Scanned>, meta: Meta, host: Host)
    requires BaseDict.WidthOk(meta)
    decreases |ks|
  {
    if ks == [] then keyStart >= |block| || NextKey(block, keyStart, meta, host) == Success(None)
    else
      && keyStart < |block| && NextKey(block, keyStart, meta, host) == Success(Some(ks[0]))
      && Chain(block, ks[0].keyEnd + TerminatorWidth(meta), ks[1..], meta, host)
  }

  /** ScanKeys strings the turns of the loop together. */
  lemma {:induction false} ScanKeysChain(block: seq<byte>, keyStart: nat, meta: Meta, host: Host)
    requires BaseDict.WidthOk(meta)
    ensures var r := ScanKeys(block, keyStart, meta, host);
      r.Success? ==> Chain(block, keyStart, r.value, meta, host)
    decreases |block| - keyStart
  {
    var next := if keyStart < |block| then NextKey(block, keyStart, meta, host) else Success(None);
    if next.Success? && next.value.Some? {
      var x := next.value.value;
      ScanKeysChain(block, x.keyEnd + TerminatorWidth(meta), meta, host);
      ChainCons(block, keyStart, x, meta, host);
    } else {
      assert ScanKeys(block, keyStart, meta, host).Success? ==> ScanKeys(block, keyStart, meta, host) == Success([]);
    }
  }

  /** The keyword a turn finds, ahead of the chain after its terminator, chains from `keyStart`. */
  lemma ChainCons(block: seq<byte>, keyStart: nat, x: Scanned, meta: Meta, host: Host)
    requires BaseDict.WidthOk(meta) && keyStart < |block|
    requires NextKey(block, keyStart, meta, host) == Success(Some(x))
    requires var rest := ScanKeys(block, x.keyEnd + TerminatorWidth(meta), meta, host);
      rest.Success? ==> Chain(block, x.keyEnd + TerminatorWidth(meta), rest.value, meta, host)
    ensures var r := ScanKeys(block, keyStart, meta, host);
      r.Success? ==> Chain(block, keyStart, r.value, meta, host)
  {
    var rest := ScanKeys(block, x.keyEnd + TerminatorWidth(meta), meta, host);
    if rest.Success? {
      var ks := [x] + rest.value;
      assert ScanKeys(block, keyStart, meta, host) == Success(ks);
      assert ks[0] == x && ks[1..] == rest.value;
    } else {
      assert ScanKeys(block, keyStart, meta, host).Failure?;
    }
  }

  /** The keywords of a chain lie one after another, and the block holds no more after them. */
  lemma {:induction false} ChainFinds(block: seq<byte>, keyStart: nat, ks: seq<Scanned>, meta: Meta, host: Host)
    requires BaseDict.WidthOk(meta) && Chain(block, keyStart, ks, meta, host)
    ensures Consecutive(block, keyStart, ks, meta, host) && Exhausted(block, keyStart, ks, meta)
    decreases |ks|
  {
    if ks == [] {
      NextKeyFinds(block, keyStart, meta, host);
    } else {
      NextKeyFinds(block, keyStart, meta, host);
      ChainFinds(block, ks[0].keyEnd + TerminatorWidth(meta), ks[1..], meta, host);
      ConsecutiveCons(block, keyStart, ks, meta, host);
    }
  }

  /** A keyword laid out at `keyStart` ahead of keywords consecutive after its terminator is consecutive from `keyStart`. */
  lemma ConsecutiveCons(block: seq<byte>, keyStart: nat, ks: seq<Scanned>, meta: Meta, host: Host)
    requires BaseDict.WidthOk(meta) && ks != [] && ks[0].keyStart == keyStart && KeyLaid(block, ks[0], meta, host)
    requires Consecutive(block, ks[0].keyEnd + TerminatorWidth(meta), ks[1..], meta, host)
    requires Exhausted(block, ks[0].keyEnd + TerminatorWidth(meta), ks[1..], meta)
    ensures Consecutive(block, keyStart, ks, meta, host) && Exhausted(block, keyStart, ks, meta)
  {
    if |ks| > 1 {
      assert ks[|ks| - 1] == ks[1..][|ks| - 2];
    }
  }

  /**
   * What ScanKeys finds: keywords lying one after another, each holding the
   * bytes between its offset field and its terminator, up to the end of the
   * block or to a tail with no terminator.
   */
  lemma ScanKeysFinds(block: seq<byte>, keyStart: nat, meta: Meta, host: Host)
    requires BaseDict.WidthOk(meta)
    ensures var r := ScanKeys(block, keyStart, meta, host);
      r.Success? ==> Consecutive(block, keyStart, r.value, meta, host) && Exhausted(block, keyStart, r.value, meta)
  {
    ScanKeysChain(block, keyStart, meta, host);
    var r := ScanKeys(block, keyStart, meta, host);
    if r.Success? {
      ChainFinds(block, keyStart, r.value, meta, host);
    }
  }

  /** What one turn finds: a keyword laid out at `keyStart`, or a tail with no terminator. */
  lemma NextKeyFinds(block: seq<byte>, keyStart: nat, meta: Meta, host: Host)
    requires BaseDict.WidthOk(meta)
    ensures var r := NextKey(block, keyStart, meta, host);
      && (r.Success? && r.value.Some? ==> r.value.value.keyStart == keyStart && KeyLaid(block, r.value.value, meta, host))
      && (r == Success(None) ==> FindTerminator(block, keyStart + meta.numWidth, TerminatorWidth(meta)) == Success(None))
  {
    var offset := BaseDict.Field(block, keyStart, meta.numWidth);
    var keyEnd := FindTerminator(block, keyStart + meta.numWidth, TerminatorWidth(meta));
    FindTerminatorFinds(block, keyStart + meta.numWidth, TerminatorWidth(meta));
    if offset.Success? && keyEnd.Success? && keyEnd.value.Some? {
      var e := keyEnd.value.value;
      var x := Scanned(keyStart, e, offset.value, host.decode(meta.encoding, block[keyStart + meta.numWidth..e]));
      assert NextKey(block, keyStart, meta, host) == Success(Some(x));
      assert KeyLaid(block, x, meta, host);
    }
  }

  /**
   * The keywords of a block: the record offset, the text and the block's
   * index of each, and the back-filled end of each record, which is the
   * start of the next keyword's record; the last keeps -1.
   */
  function Linked(ks: seq<Scanned>, keyBlockIdx: int): (r: seq<KeyWordItem>)
    ensures |r| == |ks|
  {
    seq(|ks|, i requires 0 <= i < |ks| =>
      KeyWordItem(ks[i].offset, if i + 1 < |ks| then ks[i + 1].offset else -1, ks[i].text, keyBlockIdx))
  }

  /** The linked keywords chain their records, the last one open, and all carry the block's index. */
  lemma LinkedChained(ks: seq<Scanned>, keyBlockIdx: int)
    ensures Chained(Linked(ks, keyBlockIdx), -1)
    ensures forall i :: 0 <= i < |ks| ==> Linked(ks, keyBlockIdx)[i].keyBlockIdx == keyBlockIdx
  {
    var r := Linked(ks, keyBlockIdx);
    forall i | 1 <= i < |r| ensures r[i - 1].recordEnd == r[i].recordStart {
      assert r[i - 1].recordEnd == ks[i].offset;
    }
  }

  /** Appending a keyword back-fills the end of the one before it and leaves the others as they were. */
  lemma LinkedAppend(ks: seq<Scanned>, x: Scanned, keyBlockIdx: int)
    ensures var before, after := Linked(ks, keyBlockIdx), Linked(ks + [x], keyBlockIdx);
      && after[|ks|] == KeyWordItem(x.offset, -1, x.text, keyBlockIdx)
      && (ks == [] ==> after == [after[0]])
      && (ks != [] ==> after[..|ks|] == before[..|ks| - 1] + [before[|ks| - 1].(recordEnd := x.offset)])
  {
    var before, after := Linked(ks, keyBlockIdx), Linked(ks + [x], keyBlockIdx);
    if ks != [] {
      var b := before[..|ks| - 1] + [before[|ks| - 1].(recordEnd := x.offset)];
      forall i | 0 <= i < |ks| ensures after[i] == b[i] {
        assert (ks + [x])[i] == ks[i];
        if i + 1 < |ks| {
          assert (ks + [x])[i + 1] == ks[i + 1];
        }
      }
    }
  }

  /**
   * SplitKeyBlock: the block's keywords, as ScanKeys finds them from its
   * start, with their ends back-filled, all tagged with `keyBlockIdx`.
   */
  function SplitKeyBlockSpec(block: seq<byte>, keyBlockIdx: int, meta: Meta, host: Host): (r: Result<seq<KeyWordItem>>)
    requires BaseDict.WidthOk(meta)
    ensures r.Success? ==> Chained(r.value, -1) && forall i :: 0 <= i < |r.value| ==> r.value[i].keyBlockIdx == keyBlockIdx
  {
    var ks :- ScanKeys(block, 0, meta, host);
    LinkedChained(ks, keyBlockIdx);
    Success(Linked(ks, keyBlockIdx))
  }

  /** The keywords scanned so far followed by those the scan finds from `keyStart` on. */
  function ScanAfter(done: seq<Scanned>, block: seq<byte>, keyStart: nat, meta: Meta, host: Host): Result<seq<Scanned>>
    requires BaseDict.WidthOk(meta)
  {
    var rest :- ScanKeys(block, keyStart, meta, host);
    Success(done + rest)
  }

  /**
   * The start of a turn of SplitKeyBlock's loop: read the record offset,
   * scan for the terminator and decode the key's bytes before it.
   */
  method ReadNextKey(block: seq<byte>, keyStart: nat, meta: Meta, host: Host) returns (r: Result<Option<Scanned>>)
    requires BaseDict.WidthOk(meta)
    ensures r == NextKey(block, keyStart, meta, host)
  {
    var meaningOffset := BaseDict.Field(block, keyStart, meta.numWidth);
    if meaningOffset.Failure? {
      return Failure(meaningOffset.error);
    }
    var keyEndIndex := ScanTerminator(block, keyStart + meta.numWidth, TerminatorWidth(meta));
    if keyEndIndex.Failure? {
      return Failure(keyEndIndex.error);
    }
    if keyEndIndex.value.None? {
      return Success(None);
    }
    var e := keyEndIndex.value.value;
    var keyText := host.decode(meta.encoding, block[keyStart + meta.numWidth..e]);
    return Success(Some(Scanned(keyStart, e, meaningOffset.value, keyText)));
  }

  /**
   * The end of a turn: the previous keyword's record ends where the new
   * keyword's record starts, and the new keyword is appended with its end
   * still open (-1).
   */
  method AppendKeyword(keyList: seq<KeyWordItem>, x: Scanned, keyBlockIdx: int, ghost done: seq<Scanned>) returns (r: seq<KeyWordItem>)
    requires keyList == Linked(done, keyBlockIdx)
    ensures r == Linked(done + [x], keyBlockIdx)
  {
    LinkedAppend(done, x, keyBlockIdx);
    r := keyList;
    if |r| > 0 {
      r := r[..|r| - 1] + [r[|r| - 1].(recordEnd := x.offset)];
    }
    r := r + [KeyWordItem(x.offset, -1, x.text, keyBlockIdx)];
  }

  /**
   * SplitKeyBlock's loop: each turn reads the next keyword, back-fills the
   * previous keyword's end with its record offset and appends it, until the
   * block ends or no terminator is left.
   */
  method SplitKeyBlock(block: seq<byte>, keyBlockIdx: int, meta: Meta, host: Host) returns (r: Result<seq<KeyWordItem>>)
    requires BaseDict.WidthOk(meta)
    ensures r == SplitKeyBlockSpec(block, keyBlockIdx, meta, host)
  {
    var width := TerminatorWidth(meta);
    var keyList: seq<KeyWordItem> := [];
    ghost var done: seq<Scanned> := [];
    var keyStartIndex: nat := 0;
    ScanAfterNone(block, meta, host);
    while keyStartIndex < |block|
      invariant keyList == Linked(done, keyBlockIdx)
      invariant ScanAfter(done, block, keyStartIndex, meta, host) == ScanKeys(block, 0, meta, host)
      decreases |block| - keyStartIndex
    {
      var next := ReadNextKey(block, keyStartIndex, meta, host);
      if next.Failure? {
        ScanAfterFails(done, block, keyStartIndex, meta, host);
        return Failure(next.error);
      }
      if next.value.None? {
        break;
      }
      var x := next.value.value;
      keyList := AppendKeyword(keyList, x, keyBlockIdx, done);
      ScanAfterStep(done, x, block, keyStartIndex, meta, host);
      done := done + [x];
      keyStartIndex := x.keyEnd + width;
    }
    ScanAfterEnd(done, block, keyStartIndex, meta, host);
    return Success(keyList);
  }

  /** Before the loop nothing is scanned: the scan after nothing is the whole scan. */
  lemma ScanAfterNone(block: seq<byte>, meta: Meta, host: Host)
    requires BaseDict.WidthOk(meta)
    ensures ScanAfter([], block, 0, meta, host) == ScanKeys(block, 0, meta, host)
  {
    var r := ScanKeys(block, 0, meta, host);
    if r.Success? {
      assert [] + r.value == r.value;
    }
  }

  /** One keyword found moves from the scan at its start to the scan after its terminator. */
  lemma ScanAfterStep(done: seq<Scanned>, x: Scanned, block: seq<byte>, keyStart: nat, meta: Meta, host: Host)
    requires BaseDict.WidthOk(meta) && keyStart < |block|
    requires NextKey(block, keyStart, meta, host) == Success(Some(x))
    ensures ScanAfter(done + [x], block, x.keyEnd + TerminatorWidth(meta), meta, host) == ScanAfter(done, block, keyStart, meta, host)
  {
    var rest := ScanKeys(block, x.keyEnd + TerminatorWidth(meta), meta, host);
    if rest.Success? {
      assert done + [x] + rest.value == done + ([x] + rest.value);
    }
  }

  /** A turn that fails fails the whole scan. */
  lemma ScanAfterFails(done: seq<Scanned>, block: seq<byte>, keyStart: nat, meta: Meta, host: Host)
    requires BaseDict.WidthOk(meta) && keyStart < |block|
    requires NextKey(block, keyStart, meta, host).Failure?
    ensures ScanAfter(done, block, keyStart, meta, host) == Failure(NextKey(block, keyStart, meta, host).error)
  {
  }

  /** Where the loop stops, the scan finds nothing more. */
  lemma ScanAfterEnd(done: seq<Scanned>, block: seq<byte>, keyStart: nat, meta: Meta, host: Host)
    requires BaseDict.WidthOk(meta)
    requires keyStart >= |block| || NextKey(block, keyStart, meta, host) == Success(None)
    ensures ScanAfter(done, block, keyStart, meta, host) == Success(done)
  {
    assert done + [] == done;
  }
}
