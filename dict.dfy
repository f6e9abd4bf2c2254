/**
 * Dict: the searches over an open dictionary. A word is found in the sorted
 * keyword list by binary search in ordinal order; the key-block-info table
 * is searched by the range of keys each block holds; the record-info table
 * gives the record block that holds a keyword's record, which is read,
 * unpacked and cut down to the keyword's bytes.
 */
module Dict {
  import opened Common
  import opened Records
  import Utils
  import LzoSpec
  import BaseDict
  import KeyBlocks
  import KeyBlockList
  import Reader

  // ---------------------------------------------------------------------------
  // Ordinal position of a word

  /** `t` sorts strictly before `word`. */
  predicate Below(word: Text, t: Text) { CompareOrdinal(word, t) > 0 }

  /** `t` sorts strictly after `word`. */
  predicate Above(word: Text, t: Text) { CompareOrdinal(word, t) < 0 }

  /** The keywords before `k` sort before `word` and the rest after it: `word` belongs at `k`. */
  predicate Splits(list: seq<KeyWordItem>, word: Text, k: int)
  {
    && (forall i :: 0 <= i < |list| && i < k ==> Below(word, list[i].keyText))
    && (forall i :: 0 <= i < |list| && k <= i ==> Above(word, list[i].keyText))
  }

  /** In a sorted list, everything up to a keyword below the word is below it too. */
  lemma BelowUpTo(list: seq<KeyWordItem>, word: Text, mid: nat)
    requires SortedByText(list) && mid < |list| && Below(word, list[mid].keyText)
    ensures forall i :: 0 <= i <= mid ==> Below(word, list[i].keyText)
  {
    forall i | 0 <= i < mid ensures Below(word, list[i].keyText) {
      CompareOrdinalAntisymmetric(word, list[mid].keyText);
      CompareOrdinalBeforeStrict(list[i].keyText, list[mid].keyText, word);
      CompareOrdinalAntisymmetric(word, list[i].keyText);
    }
  }

  /** In a sorted list, everything from a keyword above the word on is above it too. */
  lemma AboveFrom(list: seq<KeyWordItem>, word: Text, mid: nat)
    requires SortedByText(list) && mid < |list| && Above(word, list[mid].keyText)
    ensures forall i :: mid <= i < |list| ==> Above(word, list[i].keyText)
  {
    forall i | mid < i < |list| ensures Above(word, list[i].keyText) {
      CompareOrdinalStrictBefore(word, list[mid].keyText, list[i].keyText);
    }
  }

  /** The middle of the window [left, right] that all three searches probe. */
  function Mid(left: int, right: int): (m: int)
    requires left <= right
    ensures left <= m <= right
    ensures m - left == right - m || m - left + 1 == right - m
  {
    left + (right - left) / 2
  }

  // ---------------------------------------------------------------------------
  // LookupKeyBlockByWord

  /** The sign of the word's ordinal comparison with each keyword, in list order. */
  function Signs(list: seq<KeyWordItem>, word: Text): (cs: seq<int>)
    ensures |cs| == |list|
    ensures forall i :: 0 <= i < |list| ==> cs[i] == CompareOrdinal(word, list[i].keyText)
  {
    seq(|list|, i requires 0 <= i < |list| => CompareOrdinal(word, list[i].keyText))
  }

  /**
   * The keyword search's loop from the window [left, right] and the last
   * probe `mid` on, where `cs` holds the signs of the word's comparisons
   * with the keywords. It probes the middle of the window and stops there on
   * a match; otherwise it goes on with the right half after a keyword below
   * the word and the left half after one above it. An empty window ends it
   * at the last probe.
   */
  function KeywordProbe(cs: seq<int>, left: nat, right: int, mid: nat): nat
    requires right < |cs| && left <= right + 1 && mid < |cs|
    decreases right - left + 1
  {
    if left > right then mid
    else
      var m := Mid(left, right);
      if cs[m] == 0 then m
      else if cs[m] > 0 then KeywordProbe(cs, m + 1, right, m)
      else KeywordProbe(cs, left, m - 1, m)
  }

  lemma {:induction false} KeywordProbeRange(cs: seq<int>, left: nat, right: int, mid: nat)
    requires right < |cs| && left <= right + 1 && mid < |cs|
    ensures KeywordProbe(cs, left, right, mid) < |cs|
    decreases right - left + 1
  {
    if left <= right {
      var m := Mid(left, right);
      if cs[m] > 0 {
        KeywordProbeRange(cs, m + 1, right, m);
      } else if cs[m] < 0 {
        KeywordProbeRange(cs, left, m - 1, m);
      }
    }
  }

  /**
   * The search keeps the keyword just right of its window above the word,
   * and once the window is empty its last probe is that keyword or the one
   * just left of the window; so where it stops on a keyword below the word,
   * the next keyword is above it or there is none.
   */
  lemma {:induction false} KeywordProbeBelow(cs: seq<int>, left: nat, right: int, mid: nat)
    requires right < |cs| && left <= right + 1 && mid < |cs|
    requires right + 1 == |cs| || cs[right + 1] < 0
    requires left <= right || mid + 1 == left || mid == right + 1
    ensures var r := KeywordProbe(cs, left, right, mid);
      r < |cs| && (cs[r] > 0 ==> r + 1 == |cs| || cs[r + 1] < 0)
    decreases right - left + 1
  {
    KeywordProbeRange(cs, left, right, mid);
    if left <= right {
      var m := Mid(left, right);
      if cs[m] > 0 {
        KeywordProbeBelow(cs, m + 1, right, m);
      } else if cs[m] < 0 {
        KeywordProbeBelow(cs, left, m - 1, m);
      }
    }
  }

  /**
   * The mirror image: the search keeps the keyword just left of its window
   * below the word, so where it stops on a keyword above the word, the one
   * before is below it or there is none.
   */
  lemma {:induction false} KeywordProbeAbove(cs: seq<int>, left: nat, right: int, mid: nat)
    requires right < |cs| && left <= right + 1 && mid < |cs|
    requires left == 0 || cs[left - 1] > 0
    requires left <= right || mid + 1 == left || mid == right + 1
    ensures var r := KeywordProbe(cs, left, right, mid);
      r < |cs| && (cs[r] < 0 ==> r == 0 || cs[r - 1] > 0)
    decreases right - left + 1
  {
    KeywordProbeRange(cs, left, right, mid);
    if left <= right {
      var m := Mid(left, right);
      if cs[m] > 0 {
        KeywordProbeAbove(cs, m + 1, right, m);
      } else if cs[m] < 0 {
        KeywordProbeAbove(cs, left, m - 1, m);
      }
    }
  }

  /**
   * Where the keyword search over the whole list stops: on a keyword of the
   * list, and where that keyword is below the word the next one is above it
   * (or there is none), where it is above the word the one before is below
   * it (or there is none).
   */
  function KeywordIndex(list: seq<KeyWordItem>, word: Text): (m: nat)
    requires list != []
    ensures m < |list|
    ensures Below(word, list[m].keyText) ==> m + 1 == |list| || Above(word, list[m + 1].keyText)
    ensures Above(word, list[m].keyText) ==> m == 0 || Below(word, list[m - 1].keyText)
  {
    var cs := Signs(list, word);
    KeywordProbeBelow(cs, 0, |list| - 1, 0);
    KeywordProbeAbove(cs, 0, |list| - 1, 0);
    KeywordProbe(cs, 0, |list| - 1, 0)
  }

  /**
   * LookupKeyBlockByWord: the keyword the search stops at, when its text is
   * the word or, in associate mode, whatever it is. An empty keyword list
   * fails, since the last probe reads its first entry.
   */
  function KeywordHit(list: seq<KeyWordItem>, word: Text, isAssociate: bool): (r: Result<Option<KeyWordItem>>)
    ensures r.Failure? <==> list == []
    ensures r.Success? && r.value.Some? ==> r.value.value in list
    ensures r.Success? && r.value.Some? && !isAssociate ==> r.value.value.keyText == word
    ensures r.Success? && isAssociate ==> r.value.Some?
  {
    if list == [] then Failure(OutOfRange)
    else
      var m := KeywordIndex(list, word);
      if CompareOrdinal(word, list[m].keyText) != 0 && !isAssociate then Success(None)
      else Success(Some(list[m]))
  }

  /**
   * Associate mode: on a sorted list the search stops on the word or next
   * to where it belongs, the keywords before that place all below the word
   * and the ones from it on all above.
   */
  lemma KeywordNeighbour(list: seq<KeyWordItem>, word: Text)
    requires SortedByText(list) && list != []
    ensures var m := KeywordIndex(list, word);
      list[m].keyText == word || Splits(list, word, m) || Splits(list, word, m + 1)
  {
    var m := KeywordIndex(list, word);
    if Below(word, list[m].keyText) {
      BelowUpTo(list, word, m);
      if m + 1 < |list| {
        AboveFrom(list, word, m + 1);
      }
    } else if Above(word, list[m].keyText) {
      AboveFrom(list, word, m);
      if m > 0 {
        BelowUpTo(list, word, m - 1);
      }
    }
  }

  /** On a sorted list a word that is there is found. */
  lemma KeywordFound(list: seq<KeyWordItem>, word: Text, k: nat)
    requires SortedByText(list) && k < |list| && list[k].keyText == word
    ensures list[KeywordIndex(list, word)].keyText == word
  {
    KeywordNeighbour(list, word);
    assert !Below(word, list[k].keyText) && !Above(word, list[k].keyText);
  }

  /** Exact mode on a sorted list: no hit exactly when no keyword has the word's text. */
  lemma KeywordMissing(list: seq<KeyWordItem>, word: Text)
    requires SortedByText(list) && list != []
    ensures KeywordHit(list, word, false) == Success(None) <==> forall k :: 0 <= k < |list| ==> list[k].keyText != word
  {
    if k :| 0 <= k < |list| && list[k].keyText == word {
      KeywordFound(list, word, k);
    }
  }

  // ---------------------------------------------------------------------------
  // LookupKeyInfoByWord

  /** The word lies between the block's first and last keys. */
  predicate Covers(info: KeyInfoItem, word: Text)
  {
    CompareOrdinal(word, info.firstKey) >= 0 && CompareOrdinal(word, info.lastKey) <= 0
  }

  /** Every block's keys run from its first to its last key, and the blocks follow each other without overlap. */
  predicate Ranged(list: seq<KeyInfoItem>)
  {
    && (forall i :: 0 <= i < |list| ==> OrdinalLe(list[i].firstKey, list[i].lastKey))
    && (forall i, j :: 0 <= i < j < |list| ==> CompareOrdinal(list[i].lastKey, list[j].firstKey) < 0)
  }

  /**
   * The block search's loop from the window [left, right] on: a block that
   * covers the word ends it; otherwise it goes right when the word is at or
   * past the block's last key and left when not, and gives -1 once the
   * window is empty.
   */
  function KeyInfoProbe(list: seq<KeyInfoItem>, word: Text, left: nat, right: int): int
    requires right < |list| && left <= right + 1
    decreases right - left + 1
  {
    if left > right then -1
    else
      var mid := Mid(left, right);
      if Covers(list[mid], word) then mid
      else if CompareOrdinal(word, list[mid].lastKey) >= 0 then KeyInfoProbe(list, word, mid + 1, right)
      else KeyInfoProbe(list, word, left, mid - 1)
  }

  /** What the block search gives is -1 or a block of its window that covers the word. */
  lemma {:induction false} KeyInfoProbeSound(list: seq<KeyInfoItem>, word: Text, left: nat, right: int)
    requires right < |list| && left <= right + 1
    ensures var r := KeyInfoProbe(list, word, left, right);
      r == -1 || (left <= r <= right && Covers(list[r], word))
    decreases right - left + 1
  {
    if left <= right {
      var mid := Mid(left, right);
      if !Covers(list[mid], word) {
        if CompareOrdinal(word, list[mid].lastKey) >= 0 {
          KeyInfoProbeSound(list, word, mid + 1, right);
        } else {
          KeyInfoProbeSound(list, word, left, mid - 1);
        }
      }
    }
  }

  /** LookupKeyInfoByWord: a block that covers the word, or -1. */
  function KeyInfoIndex(list: seq<KeyInfoItem>, word: Text): (r: int)
    ensures r == -1 || (0 <= r < |list| && Covers(list[r], word))
  {
    KeyInfoProbeSound(list, word, 0, |list| - 1);
    KeyInfoProbe(list, word, 0, |list| - 1)
  }

  /** In a ranged table at most one block covers a word. */
  lemma CoversUnique(list: seq<KeyInfoItem>, word: Text, i: nat, j: nat)
    requires Ranged(list) && i < |list| && j < |list| && Covers(list[i], word) && Covers(list[j], word)
    ensures i == j
  {
    if i < j {
      CompareOrdinalBeforeStrict(word, list[i].lastKey, list[j].firstKey);
    } else if j < i {
      CompareOrdinalBeforeStrict(word, list[j].lastKey, list[i].firstKey);
    }
  }

  /** In a ranged table the last keys strictly increase. */
  lemma LastKeysIncrease(list: seq<KeyInfoItem>, i: nat, j: nat)
    requires Ranged(list) && i < j < |list|
    ensures CompareOrdinal(list[i].lastKey, list[j].lastKey) < 0
  {
    CompareOrdinalStrictBefore(list[i].lastKey, list[j].firstKey, list[j].lastKey);
  }

  /** From a window that holds the covering block, the block search ends on it. */
  lemma {:induction false} KeyInfoProbeFinds(list: seq<KeyInfoItem>, word: Text, left: nat, right: int, k: nat)
    requires Ranged(list) && right < |list| && left <= k <= right && Covers(list[k], word)
    ensures KeyInfoProbe(list, word, left, right) == k
    decreases right - left + 1
  {
    var mid := Mid(left, right);
    if Covers(list[mid], word) {
      CoversUnique(list, word, mid, k);
    } else if CompareOrdinal(word, list[mid].lastKey) >= 0 {
      if k < mid {
        LastKeysIncrease(list, k, mid);
        CompareOrdinalAntisymmetric(word, list[mid].lastKey);
        CompareOrdinalStrictBefore(list[k].lastKey, list[mid].lastKey, word);
        CompareOrdinalAntisymmetric(word, list[k].lastKey);
      }
      KeyInfoProbeFinds(list, word, mid + 1, right, k);
    } else {
      if mid < k {
        CompareOrdinalStrictBefore(word, list[mid].lastKey, list[k].firstKey);
      }
      KeyInfoProbeFinds(list, word, left, mid - 1, k);
    }
  }

  /** In a ranged table the search finds the block that covers the word. */
  lemma KeyInfoFound(list: seq<KeyInfoItem>, word: Text, k: nat)
    requires Ranged(list) && k < |list| && Covers(list[k], word)
    ensures KeyInfoIndex(list, word) == k
  {
    KeyInfoProbeFinds(list, word, 0, |list| - 1, k);
  }

  // ---------------------------------------------------------------------------
  // ReduceRecordBlockInfo

  /** Blocks up to `r` start at or before `x`, the blocks after it past `x`. */
  predicate Floors(infos: seq<RecordInfo>, x: int, r: int)
  {
    && (forall i :: 0 <= i < |infos| && i <= r ==> infos[i].unpackAcc <= x)
    && (forall i :: 0 <= i < |infos| && r < i ==> x < infos[i].unpackAcc)
  }

  /**
   * The record-block search's loop from the window [left, right] on: it goes
   * right past a block that starts at or before `x` and left otherwise, and
   * ends one before the window's left end.
   */
  function BlockProbe(infos: seq<RecordInfo>, x: int, left: nat, right: int): int
    requires right < |infos| && left <= right + 1
    decreases right - left + 1
  {
    if left > right then left - 1
    else
      var mid := Mid(left, right);
      if x >= infos[mid].unpackAcc then BlockProbe(infos, x, mid + 1, right)
      else BlockProbe(infos, x, left, mid - 1)
  }

  /**
   * The search keeps the block just left of its window at or before `x` and
   * the one just right of it past `x`, and ends one left of the window.
   */
  lemma {:induction false} BlockProbeFloors(infos: seq<RecordInfo>, x: int, left: nat, right: int)
    requires right < |infos| && left <= right + 1
    requires left == 0 || infos[left - 1].unpackAcc <= x
    requires right + 1 == |infos| || x < infos[right + 1].unpackAcc
    ensures var r := BlockProbe(infos, x, left, right);
      && left - 1 <= r <= right
      && (r == -1 || infos[r].unpackAcc <= x) && (r + 1 == |infos| || x < infos[r + 1].unpackAcc)
    decreases right - left + 1
  {
    if left <= right {
      var mid := Mid(left, right);
      if x >= infos[mid].unpackAcc {
        BlockProbeFloors(infos, x, mid + 1, right);
      } else {
        BlockProbeFloors(infos, x, left, mid - 1);
      }
    }
  }

  /**
   * ReduceRecordBlockInfo: the index the search ends with, from -1 up to the
   * last block. Whatever the table, `x` lies at or past the start of that
   * block and before the start of the next one.
   */
  function BlockIndex(infos: seq<RecordInfo>, x: int): (r: int)
    ensures -1 <= r < |infos|
    ensures (r == -1 || infos[r].unpackAcc <= x) && (r + 1 == |infos| || x < infos[r + 1].unpackAcc)
  {
    BlockProbeFloors(infos, x, 0, |infos| - 1);
    BlockProbe(infos, x, 0, |infos| - 1)
  }

  /**
   * On a consistent record-info table the search gives the last block that
   * starts at or before `x`: the block holding offset `x` of the unpacked
   * records. Since the first block starts at 0, no offset gives -1.
   */
  lemma BlockIndexFloors(infos: seq<RecordInfo>, x: int)
    requires RecordAccumulated(infos)
    ensures Floors(infos, x, BlockIndex(infos, x))
    ensures infos != [] && 0 <= x ==> 0 <= BlockIndex(infos, x)
  {
    var r := BlockIndex(infos, x);
    forall i | 0 <= i < |infos| && i <= r ensures infos[i].unpackAcc <= x {
      RecordAccumulatedSorted(infos, i, r);
    }
    forall i | 0 <= i < |infos| && r < i ensures x < infos[i].unpackAcc {
      RecordAccumulatedSorted(infos, r + 1, i);
    }
    if infos != [] {
      assert infos[0].unpackAcc == SumRecordUnpack(infos[..0]) == 0;
    }
  }

  /** On a consistent table the search gives exactly the block whose range holds `x`. */
  lemma BlockIndexOf(infos: seq<RecordInfo>, x: int, i: nat)
    requires RecordAccumulated(infos) && i < |infos|
    requires infos[i].unpackAcc <= x && (i + 1 < |infos| ==> x < infos[i + 1].unpackAcc)
    ensures BlockIndex(infos, x) == i
  {
    BlockIndexFloors(infos, x);
  }

  // ---------------------------------------------------------------------------
  // DecompressBuff

  /** The initial room the LZO wrapper gets beyond the unpacked size. */
  const LzoBlockSize := 1308672

  /**
   * DecompressBuff: a record block whose magic says "stored" is the bytes
   * after its 8-byte header. Otherwise the block is first made plain: with
   * encryption flag 1 the whole block is decrypted, header included, and
   * handed on as it is; else the header is dropped. Then the magic picks LZO
   * (with a buffer of `unpackSize` plus the block size, as a 32-bit sum) or
   * zlib; any other magic, a short block included, is an unknown one.
   */
  function DecompressBuff(encrypt: int, buf: seq<byte>, unpackSize: int, host: Host): (r: Result<seq<byte>>)
    ensures r.Success? ==> Take(buf, 4) == KeyBlocks.StoredMagic || Take(buf, 4) == KeyBlocks.LzoMagic || Take(buf, 4) == KeyBlocks.ZlibMagic
    ensures (&& (encrypt != 1 || |buf| >= 8)
             && Take(buf, 4) != KeyBlocks.StoredMagic && Take(buf, 4) != KeyBlocks.LzoMagic && Take(buf, 4) != KeyBlocks.ZlibMagic)
      ==> r == Failure(UnknownCompression)
  {
    var magic := Take(buf, 4);
    if magic == KeyBlocks.StoredMagic then Success(Skip(buf, 8))
    else
      var plain :- if encrypt == 1 then Utils.MdxDecrypt(buf) else Success(Skip(buf, 8));
      if magic == KeyBlocks.LzoMagic then
        if ToInt32(unpackSize + LzoBlockSize) < 0 then Failure(NegativeLength)
        else LzoSpec.Decompress(plain, true)
      else if magic == KeyBlocks.ZlibMagic then
        match host.inflate(plain)
        case None => Failure(InflateError)
        case Some(out) => Success(out)
      else Failure(UnknownCompression)
  }

  /** A stored record block unpacks to the bytes after its header, under any flag. */
  lemma DecompressStored(encrypt: int, check: seq<byte>, data: seq<byte>, unpackSize: int, host: Host)
    requires |check| == 4
    ensures DecompressBuff(encrypt, KeyBlocks.StoredMagic + check + data, unpackSize, host) == Success(data)
  {
    var buf := KeyBlocks.StoredMagic + check + data;
    assert Take(buf, 4) == KeyBlocks.StoredMagic && buf[8..] == data;
  }

  /** An unencrypted LZO record block holding the compressor's output for a short input unpacks to that input. */
  lemma DecompressLzo(encrypt: int, check: seq<byte>, x: seq<byte>, unpackSize: int, host: Host)
    requires encrypt != 1 && |check| == 4 && |x| < 32 && ToInt32(unpackSize + LzoBlockSize) >= 0
    ensures DecompressBuff(encrypt, KeyBlocks.LzoMagic + check + LzoSpec.Compressed(x), unpackSize, host) == Success(x)
  {
    var buf := KeyBlocks.LzoMagic + check + LzoSpec.Compressed(x);
    assert Take(buf, 4) == KeyBlocks.LzoMagic && buf[8..] == LzoSpec.Compressed(x);
    LzoSpec.ShortRoundTrip(x, true);
  }

  /** An unencrypted zlib record block unpacks to what the inflater makes of the bytes after its header. */
  lemma DecompressZlib(encrypt: int, check: seq<byte>, data: seq<byte>, unpackSize: int, host: Host)
    requires encrypt != 1 && |check| == 4
    ensures DecompressBuff(encrypt, KeyBlocks.ZlibMagic + check + data, unpackSize, host)
      == if host.inflate(data).Some? then Success(host.inflate(data).value) else Failure(InflateError)
  {
    var buf := KeyBlocks.ZlibMagic + check + data;
    assert Take(buf, 4) == KeyBlocks.ZlibMagic && buf[8..] == data;
  }

  /**
   * The record-block view of the out32 finding: an unencrypted LZO block
   * holding LostWordStream unpacks to "abcd" three times here, while the
   * decoder as written yields "abcd" and eight zero bytes for the same data.
   */
  lemma DecompressLostWordStream(encrypt: int, check: seq<byte>, unpackSize: int, host: Host)
    requires encrypt != 1 && |check| == 4 && ToInt32(unpackSize + LzoBlockSize) >= 0
    ensures var buf := KeyBlocks.LzoMagic + check + LzoSpec.LostWordStream;
      && DecompressBuff(encrypt, buf, unpackSize, host) == Success([97, 98, 99, 100, 97, 98, 99, 100, 97, 98, 99, 100])
      && LzoSpec.Decompress(buf[8..], false) == Success([97, 98, 99, 100, 0, 0, 0, 0, 0, 0, 0, 0])
  {
    var buf := KeyBlocks.LzoMagic + check + LzoSpec.LostWordStream;
    assert Take(buf, 4) == KeyBlocks.LzoMagic && buf[8..] == LzoSpec.LostWordStream;
    LzoSpec.AsWrittenStreamLosesBytes();
  }

  /**
   * With encryption flag 1 an LZO block reaches the decompressor with its
   * 8-byte header still in front of the decrypted data. An open dictionary
   * never has that flag (Reader.ReadDictSpec: the flag is even).
   */
  lemma DecompressEncrypted(check: seq<byte>, data: seq<byte>, unpackSize: int, host: Host)
    requires |check| == 4 && ToInt32(unpackSize + LzoBlockSize) >= 0
    ensures var buf := KeyBlocks.LzoMagic + check + data;
      DecompressBuff(1, buf, unpackSize, host) == LzoSpec.Decompress(buf[..8] + Utils.Decrypted(data, Utils.MdxKey(buf)), true)
  {
    var buf := KeyBlocks.LzoMagic + check + data;
    assert Take(buf, 4) == KeyBlocks.LzoMagic && buf[8..] == data;
    assert buf[..8] + Utils.Decrypted(data, Utils.MdxKey(buf)) == Utils.MdxDecrypt(buf).value;
  }

  // ---------------------------------------------------------------------------
  // LookupRecordByKeyBlock

  /**
   * The keyword's bytes within its unpacked record block: from its start to
   * its end offset, both taken relative to the block's own start and cast to
   * int, as far as the block reaches.
   */
  function Cut(unpacked: seq<byte>, info: RecordInfo, item: KeyWordItem): seq<byte>
  {
    var start := item.recordStart - info.unpackAcc;
    var end := item.recordEnd - info.unpackAcc;
    Take(Skip(unpacked, ToInt32(start)), ToInt32(end - start))
  }

  /**
   * Where both offsets lie within the block and fit an int, the cut is the
   * slice of the block between them.
   */
  lemma CutSlice(unpacked: seq<byte>, info: RecordInfo, item: KeyWordItem)
    requires info.unpackAcc <= item.recordStart <= item.recordEnd <= info.unpackAcc + |unpacked|
    requires item.recordEnd - info.unpackAcc < 0x8000_0000
    ensures Cut(unpacked, info, item) == unpacked[item.recordStart - info.unpackAcc..item.recordEnd - info.unpackAcc]
  {
    var start := item.recordStart - info.unpackAcc;
    var end := item.recordEnd - info.unpackAcc;
    assert ToInt32(start) == start && ToInt32(end - start) == end - start;
    TakeSkipSlice(unpacked, start, end);
  }

  /**
   * LookupRecordByKeyBlock: the record block holding the keyword's start
   * offset (cast to int), read at its packed offset after the start of the
   * record blocks, unpacked and cut to the keyword. A search that gives -1
   * fails on the list index.
   */
  function RecordOf(file: seq<byte>, recordBlockStart: nat, infos: seq<RecordInfo>, encrypt: int, host: Host,
                    item: KeyWordItem): (r: Result<seq<byte>>)
    ensures infos == [] ==> r == Failure(OutOfRange)
  {
    var idx := BlockIndex(infos, ToInt32(item.recordStart));
    if idx < 0 then Failure(OutOfRange)
    else RecordIn(file, recordBlockStart, infos[idx], encrypt, host, item)
  }

  /** The keyword's record read from the block `info` describes: read, unpacked and cut. */
  function RecordIn(file: seq<byte>, recordBlockStart: nat, info: RecordInfo, encrypt: int, host: Host,
                    item: KeyWordItem): Result<seq<byte>>
  {
    var packed :- ReadBuffer(file, recordBlockStart + info.packAcc, ToInt32(info.packSize));
    var unpacked :- DecompressBuff(encrypt, packed, ToInt32(info.unpackSize), host);
    Success(Cut(unpacked, info, item))
  }

  /**
   * A block stored in the file that reaches to the keyword's end gives the
   * slice of its data between the keyword's offsets.
   */
  lemma RecordInStored(file: seq<byte>, recordBlockStart: nat, info: RecordInfo, encrypt: int, host: Host,
                       item: KeyWordItem, check: seq<byte>, data: seq<byte>)
    requires |check| == 4
    requires ReadBuffer(file, recordBlockStart + info.packAcc, ToInt32(info.packSize))
             == Success(KeyBlocks.StoredMagic + check + data)
    requires info.unpackAcc <= item.recordStart <= item.recordEnd <= info.unpackAcc + |data|
    ensures RecordIn(file, recordBlockStart, info, encrypt, host, item)
            == Success(data[item.recordStart - info.unpackAcc..item.recordEnd - info.unpackAcc])
  {
    DecompressStored(encrypt, check, data, ToInt32(info.unpackSize), host);
    CutSlice(data, info, item);
  }

  /**
   * On a consistent record-info table a keyword whose start offset fits an
   * int and falls in block `i` has its record read from block `i`.
   */
  lemma RecordOfBlock(file: seq<byte>, recordBlockStart: nat, infos: seq<RecordInfo>, encrypt: int, host: Host,
                      item: KeyWordItem, i: nat)
    requires RecordAccumulated(infos) && i < |infos| && item.recordStart < 0x8000_0000
    requires infos[i].unpackAcc <= item.recordStart && (i + 1 < |infos| ==> item.recordStart < infos[i + 1].unpackAcc)
    ensures RecordOf(file, recordBlockStart, infos, encrypt, host, item)
            == RecordIn(file, recordBlockStart, infos[i], encrypt, host, item)
  {
    var x := ToInt32(item.recordStart);
    assert x == item.recordStart;
    BlockIndexOf(infos, x, i);
  }

  // ---------------------------------------------------------------------------
  // The dictionary object

  /** What the queries of an open dictionary read from it. */
  datatype Snapshot = Snapshot(
    file: seq<byte>,
    meta: Meta,
    host: Host,
    keywords: seq<KeyWordItem>,
    recordInfos: seq<RecordInfo>,
    recordBlockStart: nat)

  /** LookupRecordByKeyBlock over what a snapshot of the dictionary holds. */
  function RecordOfSnapshot(s: Snapshot, item: KeyWordItem): Result<seq<byte>>
  {
    RecordOf(s.file, s.recordBlockStart, s.recordInfos, s.meta.encrypt, s.host, item)
  }

  /**
   * LookupPartialKeyBlockListByKeyInfoId: the keywords of one key block,
   * read at the block's packed offset after the start of the key blocks.
   */
  function PartialKeyBlock(file: seq<byte>, keyBlockStart: nat, infos: seq<KeyInfoItem>, id: int, meta: Meta,
                           host: Host): (r: Result<seq<KeyWordItem>>)
    requires BaseDict.WidthOk(meta)
    ensures !(0 <= id < |infos|) ==> r == Failure(OutOfRange)
    ensures r.Success? ==> Chained(r.value, -1) && forall i :: 0 <= i < |r.value| ==> r.value[i].keyBlockIdx == id
  {
    if !(0 <= id < |infos|) then Failure(OutOfRange)
    else KeyBlockList.BlockKeywords(file, infos[id].packAcc + keyBlockStart, infos[id], id, meta, host)
  }

  /**
   * Dict: an open dictionary. Its fields are those the reader fills in; the
   * file stands for the scanner. The lists are sorted and consistent as the
   * reader leaves them, and Close empties them.
   */
  class Dict {
    var file: seq<byte>
    var meta: Meta
    var host: Host
    var header: map<Text, Text>
    var keywordList: seq<KeyWordItem>
    var keyInfoList: seq<KeyInfoItem>
    var recordInfoList: seq<RecordInfo>
    var keyBlockStart: nat
    var recordBlockStart: nat

    /** What the reader guarantees of an open dictionary and Close keeps. */
    predicate Valid()
      reads this
    {
      && BaseDict.WidthOk(meta) && meta.encrypt % 2 == 0
      && SortedByText(keywordList) && RecordAccumulated(recordInfoList)
    }

    function State(): Snapshot
      reads this
    {
      Snapshot(file, meta, host, keywordList, recordInfoList, recordBlockStart)
    }

    /** The fields as the reader leaves them after reading `f` (the host is a parameter of the reader and kept as given). */
    predicate Holds(f: seq<byte>, index: Reader.Index)
      reads this
    {
      && file == f && meta == index.meta && header == index.header
      && keywordList == index.keywords && keyInfoList == index.keyInfos && recordInfoList == index.recordInfos
      && keyBlockStart == index.keyBlockStart && recordBlockStart == index.recordBlockStart
    }

    constructor (f: seq<byte>, h: Host, index: Reader.Index)
      ensures Holds(f, index) && host == h
    {
      file, host, meta, header := f, h, index.meta, index.header;
      keywordList, keyInfoList, recordInfoList := index.keywords, index.keyInfos, index.recordInfos;
      keyBlockStart, recordBlockStart := index.keyBlockStart, index.recordBlockStart;
    }

    /** The Dict constructor: read the dictionary in `f`; it fails where the reader does. */
    static method Open(f: seq<byte>, ext: Text, passcode: Text, options: Options, h: Host) returns (r: Result<Dict>)
      ensures r.Success? <==> Reader.ReadDictSpec(f, ext, passcode, options, h).Success?
      ensures r.Success? ==> fresh(r.value) && r.value.Valid() && r.value.Holds(f, Reader.ReadDictSpec(f, ext, passcode, options, h).value)
    {
      var index := Reader.ReadDictSpec(f, ext, passcode, options, h);
      if index.Failure? {
        return Failure(index.error);
      }
      var d := new Dict(f, h, index.value);
      return Success(d);
    }

    /** LookupKeyBlockByWord, the binary search over the keyword list. */
    method LookupKeyBlockByWord(word: Text, isAssociate: bool) returns (r: Result<Option<KeyWordItem>>)
      ensures r == KeywordHit(keywordList, word, isAssociate)
    {
      var list := keywordList;
      var left: int, right: int, mid: int := 0, |list| - 1, 0;
      while left <= right
        invariant 0 <= left <= right + 1 <= |list| && 0 <= mid
        invariant list != [] ==> mid < |list| && KeywordProbe(Signs(list, word), left, right, mid) == KeywordIndex(list, word)
        decreases right - left
      {
        mid := Mid(left, right);
        var c := CompareOrdinal(word, list[mid].keyText);
        if c > 0 {
          left := mid + 1;
        } else if c == 0 {
          break;
        } else {
          right := mid - 1;
        }
      }
      if mid >= |list| {
        return Failure(OutOfRange);
      }
      if CompareOrdinal(word, list[mid].keyText) != 0 && !isAssociate {
        return Success(None);
      }
      return Success(Some(list[mid]));
    }

    /** LookupKeyInfoByWord, over the given table or else the dictionary's own. */
    method LookupKeyInfoByWord(word: Text, given: Option<seq<KeyInfoItem>>) returns (r: int)
      ensures r == KeyInfoIndex(if given.Some? then given.value else keyInfoList, word)
    {
      var list := if given.Some? then given.value else keyInfoList;
      var left: int, right: int := 0, |list| - 1;
      while left <= right
        invariant 0 <= left <= right + 1 <= |list|
        invariant KeyInfoProbe(list, word, left, right) == KeyInfoIndex(list, word)
        decreases right - left
      {
        var mid := Mid(left, right);
        if CompareOrdinal(word, list[mid].firstKey) >= 0 && CompareOrdinal(word, list[mid].lastKey) <= 0 {
          return mid;
        }
        if CompareOrdinal(word, list[mid].lastKey) >= 0 {
          left := mid + 1;
        } else {
          right := mid - 1;
        }
      }
      return -1;
    }

    /** ReduceRecordBlockInfo, the binary search over the record-info table. */
    method ReduceRecordBlockInfo(recordStart: int) returns (r: int)
      ensures r == BlockIndex(recordInfoList, recordStart)
    {
      var left: int, right: int := 0, |recordInfoList| - 1;
      while left <= right
        invariant 0 <= left <= right + 1 <= |recordInfoList|
        invariant BlockProbe(recordInfoList, recordStart, left, right) == BlockIndex(recordInfoList, recordStart)
        decreases right - left
      {
        var mid := Mid(left, right);
        if recordStart >= recordInfoList[mid].unpackAcc {
          left := mid + 1;
        } else {
          right := mid - 1;
        }
      }
      return left - 1;
    }

    /** LookupRecordByKeyBlock: the keyword's record bytes. */
    method LookupRecordByKeyBlock(item: KeyWordItem) returns (r: Result<seq<byte>>)
      ensures r == RecordOfSnapshot(State(), item)
    {
      var idx := ReduceRecordBlockInfo(ToInt32(item.recordStart));
      if idx < 0 {
        return Failure(OutOfRange);
      }
      var info := recordInfoList[idx];
      var packed :- ReadBuffer(file, recordBlockStart + info.packAcc, ToInt32(info.packSize));
      var unpacked :- DecompressBuff(meta.encrypt, packed, ToInt32(info.unpackSize), host);
      return Success(Cut(unpacked, info, item));
    }

    /** LookupPartialKeyBlockListByKeyInfoId: one key block's keywords, split afresh. */
    method LookupPartialKeyBlockListByKeyInfoId(id: int) returns (r: Result<seq<KeyWordItem>>)
      requires Valid()
      ensures r == PartialKeyBlock(file, keyBlockStart, keyInfoList, id, meta, host)
    {
      if !(0 <= id < |keyInfoList|) {
        return Failure(OutOfRange);
      }
      var info := keyInfoList[id];
      var packed :- ReadBuffer(file, info.packAcc + keyBlockStart, ToInt32(info.packSize));
      var block :- KeyBlocks.UnpackKeyBlock(packed, ToInt32(info.unpackSize), host);
      r := KeyBlocks.SplitKeyBlock(block, id, meta, host);
    }

    /** Close: the three lists are emptied; closing the scanner is not modelled. */
    method Close()
      modifies this
      ensures keywordList == [] && keyInfoList == [] && recordInfoList == []
      ensures file == old(file) && meta == old(meta) && host == old(host) && header == old(header)
      ensures keyBlockStart == old(keyBlockStart) && recordBlockStart == old(recordBlockStart)
      ensures old(Valid()) ==> Valid()
    {
      keywordList, keyInfoList, recordInfoList := [], [], [];
    }
  }

  /** After Close every word lookup and every record lookup fails. */
  lemma ClosedLookupsFail(file: seq<byte>, recordBlockStart: nat, encrypt: int, host: Host, word: Text,
                          isAssociate: bool, item: KeyWordItem)
    ensures KeywordHit([], word, isAssociate) == Failure(OutOfRange)
    ensures RecordOf(file, recordBlockStart, [], encrypt, host, item) == Failure(OutOfRange)
    ensures KeyInfoIndex([], word) == -1
  {
  }
}
