/**
 * ReadKeyBlocks: every key block the key-info table lists, read at its place
 * in the file, unpacked and split, the keywords of all blocks in one list.
 * The first keyword of each block closes the record of the last keyword of
 * the block before; the list must hold as many keywords as the key header
 * announces.
 */
module KeyBlockList {
  import opened Common
  import opened Records
  import BaseDict
  import KeyBlocks

  const StartMismatch := "key block start offset should equal keyBlockPackAccumulator + _keyBlockStartOffset"
  const CountMismatch := "key block list length should equal key entries num"

  /**
   * The cross-block back-fill: when the last keyword so far is still open,
   * its record ends where the first keyword of the next block starts; a
   * block without keywords has no first keyword to give.
   */
  function BackFill(acc: seq<KeyWordItem>, split: seq<KeyWordItem>): (r: Result<seq<KeyWordItem>>)
    ensures r.Success? ==> |r.value| == |acc| && (acc != [] ==> r.value[..|acc| - 1] == acc[..|acc| - 1])
    ensures r.Failure? <==> acc != [] && acc[|acc| - 1].recordEnd == -1 && split == []
  {
    if acc != [] && acc[|acc| - 1].recordEnd == -1 then
      if split == [] then Failure(OutOfRange)
      else Success(acc[..|acc| - 1] + [acc[|acc| - 1].(recordEnd := split[0].recordStart)])
    else Success(acc)
  }

  /**
   * One key block's keywords: the packed block read at `start` (its packed
   * size cast to int), unpacked and split, every keyword tagged `idx`.
   */
  function BlockKeywords(file: seq<byte>, start: int, info: KeyInfoItem, idx: nat, meta: Meta, host: Host): (r: Result<seq<KeyWordItem>>)
    requires BaseDict.WidthOk(meta)
    ensures r.Success? ==> Chained(r.value, -1) && forall i :: 0 <= i < |r.value| ==> r.value[i].keyBlockIdx == idx
  {
    var packed :- ReadBuffer(file, start, ToInt32(info.packSize));
    var block :- KeyBlocks.UnpackKeyBlock(packed, ToInt32(info.unpackSize), host);
    KeyBlocks.SplitKeyBlockSpec(block, idx, meta, host)
  }

  /** Reads one key block's keywords from the block's file offset, its key-info entry and its index. */
  type BlockReader = (int, KeyInfoItem, nat) -> Result<seq<KeyWordItem>>

  /** The block reader of a dictionary file: BlockKeywords. */
  function FileBlocks(file: seq<byte>, meta: Meta, host: Host): BlockReader
    requires BaseDict.WidthOk(meta)
  {
    (start: int, info: KeyInfoItem, idx: nat) => BlockKeywords(file, start, info, idx, meta, host)
  }

  /**
   * The loop of ReadKeyBlocks from block `idx` on, with the block expected at
   * file offset `start` and the keywords `acc` gathered so far. Each block's
   * start must agree with its packed-size accumulator.
   */
  function KeyBlocksFrom(read: BlockReader, kbStart: nat, infos: seq<KeyInfoItem>, idx: nat, start: int,
                         acc: seq<KeyWordItem>): (r: Result<seq<KeyWordItem>>)
    requires idx <= |infos|
    decreases |infos| - idx
  {
    if idx == |infos| then Success(acc)
    else
      var next :- BlockTurn(read, kbStart, infos[idx], idx, start, acc);
      KeyBlocksFrom(read, kbStart, infos, idx + 1, start + infos[idx].packSize, next)
  }

  /**
   * One turn of that loop: the start check, the block read at `start`, the
   * back-fill of the open record, and the block's keywords appended.
   */
  function BlockTurn(read: BlockReader, kbStart: nat, info: KeyInfoItem, idx: nat, start: int,
                     acc: seq<KeyWordItem>): Result<seq<KeyWordItem>>
  {
    if start != info.packAcc + kbStart then Failure(Corrupt(StartMismatch))
    else
      var split :- read(start, info, idx);
      var filled :- BackFill(acc, split);
      Success(filled + split)
  }

  /**
   * The same list without the start check: block `idx` read where its
   * accumulator places it, `kbStart + packAcc`.
   */
  function KeyBlocksAt(read: BlockReader, kbStart: nat, infos: seq<KeyInfoItem>, idx: nat,
                       acc: seq<KeyWordItem>): (r: Result<seq<KeyWordItem>>)
    requires idx <= |infos|
    decreases |infos| - idx
  {
    if idx == |infos| then Success(acc)
    else
      var split :- read(kbStart + infos[idx].packAcc, infos[idx], idx);
      var filled :- BackFill(acc, split);
      KeyBlocksAt(read, kbStart, infos, idx + 1, filled + split)
  }

  /**
   * ReadKeyBlocks: the keywords of all key blocks, which start right after
   * the key-info table at `kbStart`. An empty list fails at its last
   * element; a list of any length but `keywordNum` fails the count check.
   */
  function ReadKeyBlocksSpec(file: seq<byte>, kbStart: nat, infos: seq<KeyInfoItem>, keywordNum: nat,
                             meta: Meta, host: Host): (r: Result<seq<KeyWordItem>>)
    requires BaseDict.WidthOk(meta)
    ensures r.Success? ==> |r.value| == keywordNum && r.value != []
  {
    var list :- KeyBlocksFrom(FileBlocks(file, meta, host), kbStart, infos, 0, kbStart, []);
    if list == [] then Failure(OutOfRange)
    else if |list| != keywordNum then Failure(Corrupt(CountMismatch))
    else Success(list)
  }

  // ---------------------------------------------------------------------------
  // What the list holds

  /** Keywords carry block indices below `idx`, in the order of the blocks. */
  predicate Tagged(list: seq<KeyWordItem>, idx: nat)
  {
    && (forall i :: 0 <= i < |list| ==> 0 <= list[i].keyBlockIdx < idx)
    && (forall i, j :: 0 <= i < j < |list| ==> list[i].keyBlockIdx <= list[j].keyBlockIdx)
  }

  /** Every keyword of `list` comes from block `idx`. */
  predicate OfBlock(list: seq<KeyWordItem>, idx: int)
  {
    forall i :: 0 <= i < |list| ==> list[i].keyBlockIdx == idx
  }

  /** A block reader whose every block chains its records, the last one open, and tags them with the block's index. */
  ghost predicate KeepsShape(read: BlockReader)
  {
    forall start: int, info: KeyInfoItem, idx: nat :: read(start, info, idx).Success? ==>
      Chained(read(start, info, idx).value, -1) && OfBlock(read(start, info, idx).value, idx)
  }

  /** The file's block reader keeps that shape: SplitKeyBlock's keywords do. */
  lemma FileBlocksKeepShape(file: seq<byte>, meta: Meta, host: Host)
    requires BaseDict.WidthOk(meta)
    ensures KeepsShape(FileBlocks(file, meta, host))
  {
    var read := FileBlocks(file, meta, host);
    forall start: int, info: KeyInfoItem, idx: nat | read(start, info, idx).Success?
      ensures Chained(read(start, info, idx).value, -1) && OfBlock(read(start, info, idx).value, idx)
    {
      assert read(start, info, idx) == BlockKeywords(file, start, info, idx, meta, host);
    }
  }

  /** Back-filling an open list closes its last record at the start of the next block, and keeps the tags. */
  lemma BackFillCloses(acc: seq<KeyWordItem>, split: seq<KeyWordItem>)
    requires Chained(acc, -1) && BackFill(acc, split).Success? && split != []
    ensures Chained(BackFill(acc, split).value, split[0].recordStart)
    ensures forall i :: 0 <= i < |acc| ==> BackFill(acc, split).value[i].keyBlockIdx == acc[i].keyBlockIdx
  {
    var filled := BackFill(acc, split).value;
    if acc != [] {
      forall i, j | 0 <= i < |filled| && j == i + 1 && j < |filled| ensures filled[i].recordEnd == filled[j].recordStart {
        assert filled[i] == acc[i];
        if j < |acc| - 1 {
          assert filled[j] == acc[j];
        } else {
          assert filled[j].recordStart == acc[j].recordStart;
        }
      }
    }
  }

  /** Two chains joined where the first one ends and the second one starts make one chain. */
  lemma ChainedConcat(a: seq<KeyWordItem>, b: seq<KeyWordItem>, last: int)
    requires b != [] && Chained(a, b[0].recordStart) && Chained(b, last)
    ensures Chained(a + b, last)
  {
    var all := a + b;
    forall i, j | 0 <= i < |all| && j == i + 1 && j < |all| ensures all[i].recordEnd == all[j].recordStart {
      if j < |a| {
        assert all[i] == a[i] && all[j] == a[j];
      } else if i == |a| - 1 {
        assert all[i] == a[i] && all[j] == b[0];
      } else {
        assert all[i] == b[i - |a|] && all[j] == b[j - |a|];
      }
    }
  }

  /** Appending a block tagged `idx` to keywords tagged below it keeps the tags in block order. */
  lemma TaggedConcat(a: seq<KeyWordItem>, b: seq<KeyWordItem>, idx: nat)
    requires Tagged(a, idx) && OfBlock(b, idx)
    ensures Tagged(a + b, idx + 1)
  {
    var all := a + b;
    forall i | 0 <= i < |all| ensures 0 <= all[i].keyBlockIdx < idx + 1 {
      if i < |a| {
        assert all[i] == a[i];
      } else {
        assert all[i] == b[i - |a|];
      }
    }
    forall i, j | 0 <= i < j < |all| ensures all[i].keyBlockIdx <= all[j].keyBlockIdx {
      if j < |a| {
        assert all[i] == a[i] && all[j] == a[j];
      } else if i < |a| {
        assert all[i] == a[i] && all[j] == b[j - |a|];
      } else {
        assert all[i] == b[i - |a|] && all[j] == b[j - |a|];
      }
    }
  }

  /** One turn of the loop keeps the list chained, open at its end, and tagged in block order. */
  lemma TurnChains(acc: seq<KeyWordItem>, split: seq<KeyWordItem>, idx: nat)
    requires Chained(acc, -1) && Tagged(acc, idx) && BackFill(acc, split).Success?
    requires Chained(split, -1) && OfBlock(split, idx)
    ensures Chained(BackFill(acc, split).value + split, -1)
    ensures Tagged(BackFill(acc, split).value + split, idx + 1)
  {
    var filled := BackFill(acc, split).value;
    if split == [] {
      assert acc == [];
    } else {
      BackFillCloses(acc, split);
      ChainedConcat(filled, split, -1);
      assert Tagged(filled, idx);
    }
    TaggedConcat(filled, split, idx);
  }

  /**
   * The key-block loop keeps its promises: every keyword's record ends where
   * the next one's starts, across blocks too, with the last one still open,
   * and the keywords carry the indices of their blocks in order.
   */
  lemma {:induction false} KeyBlocksChain(read: BlockReader, kbStart: nat, infos: seq<KeyInfoItem>, idx: nat, start: int,
                                          acc: seq<KeyWordItem>)
    requires KeepsShape(read) && idx <= |infos| && Chained(acc, -1) && Tagged(acc, idx)
    ensures var r := KeyBlocksFrom(read, kbStart, infos, idx, start, acc);
      r.Success? ==> Chained(r.value, -1) && Tagged(r.value, |infos|)
    decreases |infos| - idx
  {
    if idx < |infos| {
      var turn := BlockTurn(read, kbStart, infos[idx], idx, start, acc);
      if turn.Success? {
        var split := read(start, infos[idx], idx).value;
        TurnChains(acc, split, idx);
        assert turn.value == BackFill(acc, split).value + split;
        KeyBlocksChain(read, kbStart, infos, idx + 1, start + infos[idx].packSize, turn.value);
      }
    }
  }

  /**
   * With the accumulators of a decoded key-info table, the start check never
   * fails: block `idx` starts where the packed sizes of the blocks before it
   * add up to, so the loop reads every block where its accumulator places it.
   */
  lemma {:induction false} StartsAgree(read: BlockReader, kbStart: nat, infos: seq<KeyInfoItem>, idx: nat, start: int,
                                       acc: seq<KeyWordItem>)
    requires idx <= |infos| && Accumulated(infos) && start == kbStart + SumPack(infos[..idx])
    ensures KeyBlocksFrom(read, kbStart, infos, idx, start, acc) == KeyBlocksAt(read, kbStart, infos, idx, acc)
    decreases |infos| - idx
  {
    if idx < |infos| {
      assert infos[idx].packAcc == SumPack(infos[..idx]);
      assert infos[..idx + 1][..idx] == infos[..idx];
      assert SumPack(infos[..idx + 1]) == SumPack(infos[..idx]) + infos[idx].packSize;
      assert start == kbStart + infos[idx].packAcc;
      var turn := BlockTurn(read, kbStart, infos[idx], idx, start, acc);
      if turn.Success? {
        StartsAgree(read, kbStart, infos, idx + 1, start + infos[idx].packSize, turn.value);
      }
    }
  }

  /** ReadKeyBlocks' list chains its records, the last one open, and is tagged block by block. */
  lemma ReadKeyBlocksChain(file: seq<byte>, kbStart: nat, infos: seq<KeyInfoItem>, keywordNum: nat, meta: Meta, host: Host)
    requires BaseDict.WidthOk(meta)
    ensures var r := ReadKeyBlocksSpec(file, kbStart, infos, keywordNum, meta, host);
      r.Success? ==> Chained(r.value, -1) && Tagged(r.value, |infos|)
  {
    FileBlocksKeepShape(file, meta, host);
    KeyBlocksChain(FileBlocks(file, meta, host), kbStart, infos, 0, kbStart, []);
  }

  /**
   * For a key-info table DecodeKeyInfo accepts, ReadKeyBlocks' start check
   * never fails: its loop reads every block where the accumulator places it.
   */
  lemma ReadKeyBlocksStarts(file: seq<byte>, kbStart: nat, infos: seq<KeyInfoItem>, meta: Meta, host: Host)
    requires BaseDict.WidthOk(meta) && Accumulated(infos)
    ensures var read := FileBlocks(file, meta, host);
      KeyBlocksFrom(read, kbStart, infos, 0, kbStart, []) == KeyBlocksAt(read, kbStart, infos, 0, [])
  {
    assert SumPack(infos[..0]) == 0 by {
      assert infos[..0] == [];
    }
    StartsAgree(FileBlocks(file, meta, host), kbStart, infos, 0, kbStart, []);
  }

  // ---------------------------------------------------------------------------
  // The loop

  /** The body of ReadKeyBlocks' loop up to the split: read the packed block, unpack it, split it. */
  method ReadBlockKeywords(file: seq<byte>, start: int, info: KeyInfoItem, idx: nat, meta: Meta, host: Host)
    returns (r: Result<seq<KeyWordItem>>)
    requires BaseDict.WidthOk(meta)
    ensures r == FileBlocks(file, meta, host)(start, info, idx)
  {
    var kbCompBuff := ReadBuffer(file, start, ToInt32(info.packSize));
    if kbCompBuff.Failure? {
      return Failure(kbCompBuff.error);
    }
    var keyBlock := KeyBlocks.UnpackKeyBlock(kbCompBuff.value, ToInt32(info.unpackSize), host);
    if keyBlock.Failure? {
      return Failure(keyBlock.error);
    }
    r := KeyBlocks.SplitKeyBlock(keyBlock.value, idx, meta, host);
  }

  /** The back-fill in ReadKeyBlocks' loop: close the last open record at the next block's first keyword. */
  method CloseLast(keyBlockList: seq<KeyWordItem>, splitKeyBlock: seq<KeyWordItem>) returns (r: Result<seq<KeyWordItem>>)
    ensures r == BackFill(keyBlockList, splitKeyBlock)
  {
    if |keyBlockList| > 0 && keyBlockList[|keyBlockList| - 1].recordEnd == -1 {
      if |splitKeyBlock| == 0 {
        return Failure(OutOfRange);
      }
      var last := keyBlockList[|keyBlockList| - 1];
      return Success(keyBlockList[..|keyBlockList| - 1] + [last.(recordEnd := splitKeyBlock[0].recordStart)]);
    }
    return Success(keyBlockList);
  }

  /**
   * `read` reads the blocks of `file` as BlockKeywords does. The equation is
   * instantiated only where a block of the file is read.
   */
  ghost predicate ReadsFile(read: BlockReader, file: seq<byte>, meta: Meta, host: Host)
  {
    && BaseDict.WidthOk(meta)
    && forall start: int, info: KeyInfoItem, idx: nat {:trigger BlockKeywords(file, start, info, idx, meta, host)} ::
         read(start, info, idx) == BlockKeywords(file, start, info, idx, meta, host)
  }

  /** The file's block reader reads the file. */
  lemma FileBlocksRead(file: seq<byte>, meta: Meta, host: Host)
    requires BaseDict.WidthOk(meta)
    ensures ReadsFile(FileBlocks(file, meta, host), file, meta, host)
  {
  }

  /** One turn of ReadKeyBlocks' loop: check the block's start, read it, back-fill, append. */
  method ReadBlockTurn(file: seq<byte>, kbStart: nat, info: KeyInfoItem, idx: nat, start: int, keyBlockList: seq<KeyWordItem>,
                       meta: Meta, host: Host, ghost read: BlockReader) returns (r: Result<seq<KeyWordItem>>)
    requires ReadsFile(read, file, meta, host)
    ensures r == BlockTurn(read, kbStart, info, idx, start, keyBlockList)
  {
    if start != info.packAcc + kbStart {
      return Failure(Corrupt(StartMismatch));
    }
    var splitKeyBlock := ReadBlockKeywords(file, start, info, idx, meta, host);
    if splitKeyBlock.Failure? {
      return Failure(splitKeyBlock.error);
    }
    var filled := CloseLast(keyBlockList, splitKeyBlock.value);
    if filled.Failure? {
      return Failure(filled.error);
    }
    return Success(filled.value + splitKeyBlock.value);
  }

  /** A turn that fails ends the loop with its error; one that succeeds moves the loop on to the next block. */
  lemma KeyBlocksFromTurn(read: BlockReader, kbStart: nat, infos: seq<KeyInfoItem>, idx: nat, start: int,
                          acc: seq<KeyWordItem>, turn: Result<seq<KeyWordItem>>)
    requires idx < |infos| && turn == BlockTurn(read, kbStart, infos[idx], idx, start, acc)
    ensures turn.Failure? ==> KeyBlocksFrom(read, kbStart, infos, idx, start, acc) == Failure(turn.error)
    ensures turn.Success? ==>
      KeyBlocksFrom(read, kbStart, infos, idx, start, acc)
      == KeyBlocksFrom(read, kbStart, infos, idx + 1, start + infos[idx].packSize, turn.value)
  {
  }

  /** The key-block loop of ReadKeyBlocks, block by block. */
  method ReadKeyBlockList(file: seq<byte>, kbStart: nat, infos: seq<KeyInfoItem>, meta: Meta, host: Host, ghost read: BlockReader)
    returns (r: Result<seq<KeyWordItem>>)
    requires ReadsFile(read, file, meta, host)
    ensures r == KeyBlocksFrom(read, kbStart, infos, 0, kbStart, [])
  {
    var keyBlockList: seq<KeyWordItem> := [];
    var kbStartOffset: int := kbStart;
    var idx := 0;
    while idx < |infos|
      invariant idx <= |infos|
      invariant KeyBlocksFrom(read, kbStart, infos, idx, kbStartOffset, keyBlockList)
             == KeyBlocksFrom(read, kbStart, infos, 0, kbStart, [])
    {
      var packSize := infos[idx].packSize;
      var next := ReadBlockTurn(file, kbStart, infos[idx], idx, kbStartOffset, keyBlockList, meta, host, read);
      KeyBlocksFromTurn(read, kbStart, infos, idx, kbStartOffset, keyBlockList, next);
      if next.Failure? {
        return Failure(next.error);
      }
      keyBlockList := next.value;
      kbStartOffset := kbStartOffset + packSize;
      idx := idx + 1;
    }
    return Success(keyBlockList);
  }

  /** ReadKeyBlocks: the loop, then the checks on the last keyword and on the count. */
  method ReadKeyBlocks(file: seq<byte>, kbStart: nat, infos: seq<KeyInfoItem>, keywordNum: nat, meta: Meta, host: Host)
    returns (r: Result<seq<KeyWordItem>>)
    requires BaseDict.WidthOk(meta)
    ensures r == ReadKeyBlocksSpec(file, kbStart, infos, keywordNum, meta, host)
  {
    FileBlocksRead(file, meta, host);
    var list := ReadKeyBlockList(file, kbStart, infos, meta, host, FileBlocks(file, meta, host));
    if list.Failure? {
      return list;
    }
    var keyBlockList := list.value;
    if |keyBlockList| == 0 {
      return Failure(OutOfRange);
    }
    if |keyBlockList| != keywordNum {
      return Failure(Corrupt(CountMismatch));
    }
    return Success(keyBlockList);
  }
}
