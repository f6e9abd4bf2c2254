/**
 * The key-block-info table (BaseDict.DecodeKeyInfo and ReadKeyInfos): one
 * entry per key block, holding the block's keyword count, its first and last
 * keys and its packed and unpacked sizes. The reader adds the running sums
 * of the sizes and counts to each entry.
 */
module KeyInfos {
  import opened Common
  import Utils
  import opened Records
  import BaseDict

  // ---------------------------------------------------------------------------
  // The bytes of a first or last key

  /**
   * The byte length of a key whose stored size is `raw`: from version 2.0 on
   * the size leaves out the terminating NUL (one code unit), and for UTF-16
   * sizes count code units of two bytes.
   */
  function WordSize(raw: nat, meta: Meta): (r: nat)
    ensures meta.encoding != UTF16 ==> r == if IsV2OrLater(meta) then raw + 1 else raw
    ensures meta.encoding == UTF16 ==> r == 2 * if IsV2OrLater(meta) then raw + 1 else raw
  {
    if IsV2OrLater(meta) then (if meta.encoding == UTF16 then (raw + 1) * 2 else raw + 1)
    else if meta.encoding == UTF16 then raw * 2 else raw
  }

  /**
   * The key bytes as DecodeKeyInfo takes them out of the table at offset `o`:
   * `Skip(o).Take(o + size)`, a count that is the END of the key rather than
   * its length, so that the window runs on past the key.
   */
  function KeyWindowAsWritten(buf: seq<byte>, o: nat, size: nat): (r: seq<byte>)
    ensures |r| == Min(o + size, if o <= |buf| then |buf| - o else 0)
  {
    Take(Skip(buf, o), o + size)
  }

  /**
   * The window always begins with the key's own `size` bytes, and it reaches
   * past them whenever the key does not start the table and bytes follow it.
   */
  lemma KeyWindowOverreads(buf: seq<byte>, o: nat, size: nat)
    requires o + size <= |buf|
    ensures KeyWindowAsWritten(buf, o, size)[..size] == buf[o..o + size]
    ensures 0 < o && o + size < |buf| ==> |KeyWindowAsWritten(buf, o, size)| > size
  {
  }

  // ---------------------------------------------------------------------------
  // Reading the table, field by field

  /** A field of at most four bytes always reads (B2N fails only on 8-byte values). */
  lemma ShortField(buf: seq<byte>, off: nat, width: nat)
    requires width <= 4
    ensures BaseDict.Field(buf, off, width).Success?
  {
  }

  /**
   * A key at offset `at` of the table: its stored size (numWidth / 4 bytes,
   * adjusted by WordSize) and then its bytes, taken as KeyWindowAsWritten
   * takes them. The result holds the key's bytes and the offset past the key,
   * which is past its size field and its own length.
   */
  function KeyAt(b: seq<byte>, at: nat, meta: Meta): (r: (seq<byte>, nat))
    requires BaseDict.WidthOk(meta)
    ensures r.1 >= at + meta.numWidth / 4
    ensures r.0 == KeyWindowAsWritten(b, at + meta.numWidth / 4, r.1 - at - meta.numWidth / 4)
  {
    var w4 := meta.numWidth / 4;
    ShortField(b, at, w4);
    var size := WordSize(BaseDict.Field(b, at, w4).value, meta);
    (KeyWindowAsWritten(b, at + w4, size), at + w4 + size)
  }

  /** The item of entry number |list|, after the entries `list`: its fields and the sums before it. */
  function ItemAfter(list: seq<KeyInfoItem>, count: nat, firstKey: Text, lastKey: Text, pack: nat, unpack: nat): KeyInfoItem
  {
    KeyInfoItem(firstKey, lastKey, pack, SumPack(list), unpack, SumUnpack(list), count, SumEntries(list), |list|)
  }

  /** The running sums grow by the appended entry's sizes and count. */
  lemma SumsAppend(list: seq<KeyInfoItem>, x: KeyInfoItem)
    ensures SumPack(list + [x]) == SumPack(list) + x.packSize
    ensures SumUnpack(list + [x]) == SumUnpack(list) + x.unpackSize
    ensures SumEntries(list + [x]) == SumEntries(list) + x.entries
  {
    assert (list + [x])[..|list|] == list;
  }

  /** Appending the next entry to a consistent table keeps it consistent. */
  lemma AccumulatedAppend(items: seq<KeyInfoItem>, x: KeyInfoItem)
    requires x.index == |items| && x.packAcc == SumPack(items)
    requires x.unpackAcc == SumUnpack(items) && x.entriesAcc == SumEntries(items)
    ensures Accumulated(items) ==> Accumulated(items + [x])
  {
    var s := items + [x];
    assert s[..|items|] == items;
    forall j | 0 <= j < |items|
      ensures s[j] == items[j] && s[..j] == items[..j]
    {
    }
  }

  /** A longer prefix of `r` than `list + [x]` keeps `list` in front. */
  lemma PrefixOfPrefix(r: seq<KeyInfoItem>, list: seq<KeyInfoItem>, x: KeyInfoItem)
    requires |list| < |r| && r[..|list| + 1] == list + [x]
    ensures r[..|list|] == list && r[|list|] == x
  {
    assert r[..|list|] == r[..|list| + 1][..|list|];
    assert r[|list|] == r[..|list| + 1][|list|];
  }

  /**
   * The table as DecodeKeyInfo's loop reads it, from entry number |list| up
   * to n, out of the table `b` from offset `at` on, where the entries `list`
   * already read end.
   * Each entry is read field by field, in the loop's order: its keyword
   * count (numWidth bytes), its first and its last key, its packed and its
   * unpacked size (numWidth bytes each). Every entry carries its number and
   * the sums of the sizes and counts before it, and a table started from a
   * consistent prefix stays consistent.
   */
  function KeyInfoFrom(b: seq<byte>, at: nat, meta: Meta, host: Host, n: nat, list: seq<KeyInfoItem>)
    : (r: Result<seq<KeyInfoItem>>)
    requires BaseDict.WidthOk(meta) && |list| <= n
    ensures r.Failure? ==> r.error == TooLarge
    ensures r.Success? ==> |r.value| == n && r.value[..|list|] == list
    ensures r.Success? && Accumulated(list) ==> Accumulated(r.value)
    decreases n - |list|, 4
  {
    if |list| == n then
      assert list[..|list|] == list;
      Success(list)
    else
      var count :- BaseDict.Field(b, at, meta.numWidth);
      FirstKeyFrom(b, at + meta.numWidth, meta, host, n, list, count)
  }

  /** After the keyword count: the first key, decoded in the file's encoding. */
  function FirstKeyFrom(b: seq<byte>, at: nat, meta: Meta, host: Host, n: nat, list: seq<KeyInfoItem>, count: nat)
    : (r: Result<seq<KeyInfoItem>>)
    requires BaseDict.WidthOk(meta) && |list| < n
    ensures r.Failure? ==> r.error == TooLarge
    ensures r.Success? ==> |r.value| == n && r.value[..|list|] == list
    ensures r.Success? && Accumulated(list) ==> Accumulated(r.value)
    decreases n - |list|, 3
  {
    var key := KeyAt(b, at, meta);
    LastKeyFrom(b, key.1, meta, host, n, list, count, host.decode(meta.encoding, key.0))
  }

  /** After the first key: the last key. */
  function LastKeyFrom(b: seq<byte>, at: nat, meta: Meta, host: Host, n: nat, list: seq<KeyInfoItem>, count: nat, firstKey: Text)
    : (r: Result<seq<KeyInfoItem>>)
    requires BaseDict.WidthOk(meta) && |list| < n
    ensures r.Failure? ==> r.error == TooLarge
    ensures r.Success? ==> |r.value| == n && r.value[..|list|] == list
    ensures r.Success? && Accumulated(list) ==> Accumulated(r.value)
    decreases n - |list|, 2
  {
    var key := KeyAt(b, at, meta);
    PackFrom(b, key.1, meta, host, n, list, count, firstKey, host.decode(meta.encoding, key.0))
  }

  /** After the last key: the packed size of the key block. */
  function PackFrom(b: seq<byte>, at: nat, meta: Meta, host: Host, n: nat, list: seq<KeyInfoItem>, count: nat, firstKey: Text, lastKey: Text)
    : (r: Result<seq<KeyInfoItem>>)
    requires BaseDict.WidthOk(meta) && |list| < n
    ensures r.Failure? ==> r.error == TooLarge
    ensures r.Success? ==> |r.value| == n && r.value[..|list|] == list
    ensures r.Success? && Accumulated(list) ==> Accumulated(r.value)
    decreases n - |list|, 1
  {
    var pack :- BaseDict.Field(b, at, meta.numWidth);
    UnpackFrom(b, at + meta.numWidth, meta, host, n, list, count, firstKey, lastKey, pack)
  }

  /** Last, the unpacked size, which completes the entry; reading goes on with the next one. */
  function UnpackFrom(b: seq<byte>, at: nat, meta: Meta, host: Host, n: nat, list: seq<KeyInfoItem>, count: nat, firstKey: Text, lastKey: Text, pack: nat)
    : (r: Result<seq<KeyInfoItem>>)
    requires BaseDict.WidthOk(meta) && |list| < n
    ensures r.Failure? ==> r.error == TooLarge
    ensures r.Success? ==> |r.value| == n && r.value[..|list|] == list
    ensures r.Success? && Accumulated(list) ==> Accumulated(r.value)
    decreases n - |list|, 0
  {
    var unpack :- BaseDict.Field(b, at, meta.numWidth);
    var item := ItemAfter(list, count, firstKey, lastKey, pack, unpack);
    var r := KeyInfoFrom(b, at + meta.numWidth, meta, host, n, list + [item]);
    AccumulatedAppend(list, item);
    if r.Success? then PrefixOfPrefix(r.value, list, item); r else r
  }

  // One step of the reading each: the field at offset `at` read, and where
  // the reading goes on.

  lemma CountStep(b: seq<byte>, at: nat, meta: Meta, host: Host, n: nat, list: seq<KeyInfoItem>)
    requires BaseDict.WidthOk(meta) && |list| < n
    ensures var c := BaseDict.Field(b, at, meta.numWidth);
      && (c.Failure? ==> KeyInfoFrom(b, at, meta, host, n, list) == Failure(c.error))
      && (c.Success? ==> KeyInfoFrom(b, at, meta, host, n, list) == FirstKeyFrom(b, at + meta.numWidth, meta, host, n, list, c.value))
  {
  }

  lemma FirstKeyStep(b: seq<byte>, at: nat, meta: Meta, host: Host, n: nat, list: seq<KeyInfoItem>, count: nat)
    requires BaseDict.WidthOk(meta) && |list| < n
    ensures var key := KeyAt(b, at, meta);
      FirstKeyFrom(b, at, meta, host, n, list, count) == LastKeyFrom(b, key.1, meta, host, n, list, count, host.decode(meta.encoding, key.0))
  {
  }

  lemma LastKeyStep(b: seq<byte>, at: nat, meta: Meta, host: Host, n: nat, list: seq<KeyInfoItem>, count: nat, firstKey: Text)
    requires BaseDict.WidthOk(meta) && |list| < n
    ensures var key := KeyAt(b, at, meta);
      LastKeyFrom(b, at, meta, host, n, list, count, firstKey) == PackFrom(b, key.1, meta, host, n, list, count, firstKey, host.decode(meta.encoding, key.0))
  {
  }

  lemma PackStep(b: seq<byte>, at: nat, meta: Meta, host: Host, n: nat, list: seq<KeyInfoItem>, count: nat, firstKey: Text, lastKey: Text)
    requires BaseDict.WidthOk(meta) && |list| < n
    ensures var p := BaseDict.Field(b, at, meta.numWidth);
      && (p.Failure? ==> PackFrom(b, at, meta, host, n, list, count, firstKey, lastKey) == Failure(p.error))
      && (p.Success? ==> PackFrom(b, at, meta, host, n, list, count, firstKey, lastKey)
                         == UnpackFrom(b, at + meta.numWidth, meta, host, n, list, count, firstKey, lastKey, p.value))
  {
  }

  lemma UnpackStep(b: seq<byte>, at: nat, meta: Meta, host: Host, n: nat, list: seq<KeyInfoItem>, count: nat, firstKey: Text, lastKey: Text, pack: nat)
    requires BaseDict.WidthOk(meta) && |list| < n
    ensures var u := BaseDict.Field(b, at, meta.numWidth);
      && (u.Failure? ==> UnpackFrom(b, at, meta, host, n, list, count, firstKey, lastKey, pack) == Failure(u.error))
      && (u.Success? ==> UnpackFrom(b, at, meta, host, n, list, count, firstKey, lastKey, pack)
                         == KeyInfoFrom(b, at + meta.numWidth, meta, host, n, list + [ItemAfter(list, count, firstKey, lastKey, pack, u.value)]))
  {
  }

  // ---------------------------------------------------------------------------
  // Unpacking the table

  const InfoPackedMismatch := "key_block_info keyInfoPackedSize should equal to key-info buffer length"
  const InfoUnpackMismatch := "key_block_info keyInfoUnpackSize should equal to keyInfoBuffUnpacked buffer length"
  const BlockPackedMismatch := "key_block_info keyBlockPackSize should equal to keyBlockInfo buffer length"

  /** The first four bytes "2000" (joined as decimals): a zlib-packed table. */
  predicate Zipped(buf: seq<byte>)
    requires |buf| >= 4
  {
    buf[..4] == [2, 0, 0, 0]
  }

  /**
   * The table as DecodeKeyInfo parses it. Only a version 2.0 file packs it:
   * with Encrypt 2 it is MDX-encrypted, its length must be the packed size
   * of the key header, and when its first four bytes are 2, 0, 0, 0 the
   * rest after byte 8 is zlib data whose length must be the unpacked size.
   */
  function KeyInfoBytes(buf: seq<byte>, meta: Meta, kh: KeyHeader, host: Host): (r: Result<seq<byte>>)
    ensures !IsExactly2(meta) ==> r == Success(buf)
    ensures IsExactly2(meta) && |buf| < 4 ==> r == Failure(OutOfRange)
    ensures IsExactly2(meta) && r.Success? ==> |buf| >= 4 && kh.keyInfoPackedSize == |buf|
    ensures IsExactly2(meta) && r.Success? && !Zipped(buf) && meta.encrypt == 2 ==> Utils.MdxDecrypt(buf) == r
    ensures IsExactly2(meta) && r.Success? && !Zipped(buf) && meta.encrypt != 2 ==> r == Success(buf)
    ensures IsExactly2(meta) && r.Success? && Zipped(buf) ==> |r.value| == kh.keyInfoUnpackSize
  {
    if !IsExactly2(meta) then Success(buf)
    else if |buf| < 4 then Failure(OutOfRange)
    else
      var zipped := Zipped(buf);
      var b :- if meta.encrypt == 2 then Utils.MdxDecrypt(buf) else Success(buf);
      if kh.keyInfoPackedSize != |b| then Failure(Corrupt(InfoPackedMismatch))
      else if !zipped then Success(b)
      else if |b| < 8 then Failure(OutOfRange)
      else
        var u := host.inflate(b[8..]);
        if u.None? then Failure(InflateError)
        else if kh.keyInfoUnpackSize != |u.value| then Failure(Corrupt(InfoUnpackMismatch))
        else Success(u.value)
  }

  /**
   * DecodeKeyInfo: the unpacked table's first blocksNum entries, whose
   * packed sizes must add up to the packed size of all key blocks.
   */
  function DecodeKeyInfoSpec(buf: seq<byte>, meta: Meta, kh: KeyHeader, host: Host): (r: Result<seq<KeyInfoItem>>)
    requires BaseDict.WidthOk(meta)
    ensures r.Success? ==> |r.value| == kh.blocksNum && SumPack(r.value) == kh.blockPackedSize
    ensures r.Success? ==> Accumulated(r.value)
  {
    var b :- KeyInfoBytes(buf, meta, kh, host);
    var list :- KeyInfoFrom(b, 0, meta, host, kh.blocksNum, []);
    if SumPack(list) != kh.blockPackedSize then Failure(Corrupt(BlockPackedMismatch))
    else Success(list)
  }

  /** DecodeKeyInfo: the table unpacked, its entries read, and their packed sizes checked. */
  method DecodeKeyInfo(buf: seq<byte>, meta: Meta, kh: KeyHeader, host: Host) returns (r: Result<seq<KeyInfoItem>>)
    requires BaseDict.WidthOk(meta)
    ensures r == DecodeKeyInfoSpec(buf, meta, kh, host)
  {
    var b :- KeyInfoBytes(buf, meta, kh, host);
    var list, packAccu := ReadEntries(b, meta, host, kh.blocksNum);
    if list.Failure? {
      return Failure(list.error);
    }
    if packAccu != kh.blockPackedSize {
      return Failure(Corrupt(BlockPackedMismatch));
    }
    return list;
  }

  /**
   * A key as DecodeKeyInfo's loop reads it at `off`: its size, adjusted by
   * WordSize, then the as-written window of bytes, decoded; `off'` is past
   * the key.
   */
  method ReadKey(b: seq<byte>, off: nat, meta: Meta, host: Host) returns (key: Text, off': nat)
    requires BaseDict.WidthOk(meta)
    ensures key == host.decode(meta.encoding, KeyAt(b, off, meta).0)
    ensures off' == KeyAt(b, off, meta).1
  {
    var w4 := meta.numWidth / 4;
    ShortField(b, off, w4);
    var wordSize := WordSize(BaseDict.Field(b, off, w4).value, meta);
    var indexOffset := off + w4;
    var buffer := KeyWindowAsWritten(b, indexOffset, wordSize);
    key := host.decode(meta.encoding, buffer);
    off' := indexOffset + wordSize;
  }

  /**
   * A field of numWidth bytes as DecodeKeyInfo's loop reads it at `off`;
   * `off'` is past it.
   */
  method ReadNumber(b: seq<byte>, off: nat, w: nat) returns (v: Result<nat>, off': nat)
    ensures v == BaseDict.Field(b, off, w) && off' == off + w
  {
    v := BaseDict.Field(b, off, w);
    off' := off + w;
  }

  /** The first and the last key of an entry, read from `off` on; `off'` is past them. */
  method ReadKeys(b: seq<byte>, off: nat, meta: Meta, host: Host, count: nat, ghost n: nat, ghost list: seq<KeyInfoItem>)
    returns (firstKey: Text, lastKey: Text, off': nat)
    requires BaseDict.WidthOk(meta) && |list| < n
    ensures FirstKeyFrom(b, off, meta, host, n, list, count) == PackFrom(b, off', meta, host, n, list, count, firstKey, lastKey)
  {
    var o2;
    firstKey, o2 := ReadKey(b, off, meta, host);
    FirstKeyStep(b, off, meta, host, n, list, count);
    assert FirstKeyFrom(b, off, meta, host, n, list, count) == LastKeyFrom(b, o2, meta, host, n, list, count, firstKey);
    lastKey, off' := ReadKey(b, o2, meta, host);
    LastKeyStep(b, o2, meta, host, n, list, count, firstKey);
  }

  /**
   * The packed and the unpacked size of an entry, read from `off` on, which
   * complete the entry; `off'` is past them.
   */
  method ReadSizes(b: seq<byte>, off: nat, meta: Meta, host: Host, count: nat, firstKey: Text, lastKey: Text,
                   k: nat, pa: nat, ua: nat, ea: nat, ghost n: nat, ghost list: seq<KeyInfoItem>)
    returns (item: Result<KeyInfoItem>, off': nat)
    requires BaseDict.WidthOk(meta) && |list| < n
    requires k == |list| && pa == SumPack(list) && ua == SumUnpack(list) && ea == SumEntries(list)
    ensures item.Failure? ==> PackFrom(b, off, meta, host, n, list, count, firstKey, lastKey) == Failure(item.error)
    ensures item.Success? ==> PackFrom(b, off, meta, host, n, list, count, firstKey, lastKey)
                              == KeyInfoFrom(b, off', meta, host, n, list + [item.value])
  {
    var w := meta.numWidth;
    var packSize, o4 := ReadNumber(b, off, w);
    PackStep(b, off, meta, host, n, list, count, firstKey, lastKey);
    if packSize.Failure? {
      return Failure(packSize.error), off;
    }
    var unpackSize, o5 := ReadNumber(b, o4, w);
    UnpackStep(b, o4, meta, host, n, list, count, firstKey, lastKey, packSize.value);
    if unpackSize.Failure? {
      return Failure(unpackSize.error), off;
    }
    item := Success(KeyInfoItem(firstKey, lastKey, packSize.value, pa, unpackSize.value, ua, count, ea, k));
    off' := o5;
  }

  /**
   * One turn of DecodeKeyInfo's loop: the entry at `off`, read field by
   * field; `off'` is past it.
   */
  method ReadEntry(b: seq<byte>, off: nat, meta: Meta, host: Host, k: nat, pa: nat, ua: nat, ea: nat, ghost n: nat, ghost list: seq<KeyInfoItem>)
    returns (item: Result<KeyInfoItem>, off': nat)
    requires BaseDict.WidthOk(meta) && |list| < n
    requires k == |list| && pa == SumPack(list) && ua == SumUnpack(list) && ea == SumEntries(list)
    ensures item.Failure? ==> KeyInfoFrom(b, off, meta, host, n, list) == Failure(item.error)
    ensures item.Success? ==> KeyInfoFrom(b, off, meta, host, n, list) == KeyInfoFrom(b, off', meta, host, n, list + [item.value])
  {
    var blockWordCount, o1 := ReadNumber(b, off, meta.numWidth);
    CountStep(b, off, meta, host, n, list);
    if blockWordCount.Failure? {
      return Failure(blockWordCount.error), off;
    }
    var firstKey, lastKey, o3 := ReadKeys(b, o1, meta, host, blockWordCount.value, n, list);
    item, off' := ReadSizes(b, o3, meta, host, blockWordCount.value, firstKey, lastKey, k, pa, ua, ea, n, list);
  }

  /**
   * DecodeKeyInfo's loop: entry after entry from `indexOffset`, which moves
   * past each; the running sums are kept in variables.
   */
  method ReadEntries(b: seq<byte>, meta: Meta, host: Host, n: nat) returns (r: Result<seq<KeyInfoItem>>, packAccu: nat)
    requires BaseDict.WidthOk(meta)
    ensures r == KeyInfoFrom(b, 0, meta, host, n, [])
    ensures r.Success? ==> packAccu == SumPack(r.value)
  {
    var list: seq<KeyInfoItem> := [];
    var entriesCount: nat, kbCount: nat, indexOffset: nat, unpackAccu: nat := 0, 0, 0, 0;
    packAccu := 0;
    while kbCount < n
      invariant kbCount <= n && |list| == kbCount
      invariant KeyInfoFrom(b, indexOffset, meta, host, n, list) == KeyInfoFrom(b, 0, meta, host, n, [])
      invariant packAccu == SumPack(list) && unpackAccu == SumUnpack(list) && entriesCount == SumEntries(list)
    {
      var item;
      item, indexOffset := ReadEntry(b, indexOffset, meta, host, kbCount, packAccu, unpackAccu, entriesCount, n, list);
      if item.Failure? {
        return Failure(item.error), packAccu;
      }
      var x := item.value;
      SumsAppend(list, x);
      list := list + [x];
      kbCount := kbCount + 1;
      entriesCount := entriesCount + x.entries;
      packAccu := packAccu + x.packSize;
      unpackAccu := unpackAccu + x.unpackSize;
    }
    return Success(list), packAccu;
  }

  /**
   * ReadKeyInfos' table: `keyInfoPackedSize` bytes from the end of the key
   * header (both cast to int), decoded. The check that the table has
   * blocksNum entries cannot fail (DecodeKeyInfoSpec's length).
   */
  function ReadKeyInfosSpec(file: seq<byte>, meta: Meta, kh: KeyHeader, start: nat, host: Host): (r: Result<seq<KeyInfoItem>>)
    requires BaseDict.WidthOk(meta)
    ensures r.Success? ==> |r.value| == kh.blocksNum && SumPack(r.value) == kh.blockPackedSize
    ensures r.Success? ==> Accumulated(r.value)
  {
    var buf :- ReadBuffer(file, ToInt32(start), ToInt32(kh.keyInfoPackedSize));
    DecodeKeyInfoSpec(buf, meta, kh, host)
  }
}
