/**
 * The entities of an MDict file as the parser builds them, the settings it
 * derives from the header, and the services it calls without looking inside
 * (text decoders, zlib, the header's XML parse, .NET's number parsers and
 * culture-aware string operations).
 */
module Records {
  import opened Common
  import Utils

  /** One entry of the key-block-info table (KeyInfoItem). */
  datatype KeyInfoItem = KeyInfoItem(
    firstKey: Text,
    lastKey: Text,
    packSize: nat,          // KeyBlockPackSize
    packAcc: nat,           // KeyBlockPackAccumulator
    unpackSize: nat,        // KeyBlockUnpackSize
    unpackAcc: nat,         // KeyBlockUnpackAccumulator
    entries: nat,           // KeyBlockEntriesNum
    entriesAcc: nat,        // KeyBlockEntriesNumAccumulator
    index: nat)             // KeyBlockInfoIndex

  /** One keyword (KeyWordItem); `recordEnd` is -1 until it is back-filled. */
  datatype KeyWordItem = KeyWordItem(recordStart: nat, recordEnd: int, keyText: Text, keyBlockIdx: int)

  /** One entry of the record-info table (RecordInfo). */
  datatype RecordInfo = RecordInfo(packSize: nat, packAcc: nat, unpackSize: nat, unpackAcc: nat)

  /** The key section's header (KeyHeader); `keyInfoUnpackSize` is read only from version 2.0 on. */
  datatype KeyHeader = KeyHeader(
    blocksNum: nat,          // KeywordBlocksNum
    keywordNum: nat,         // KeywordNum
    keyInfoUnpackSize: nat,  // KeyInfoUnpackSize
    keyInfoPackedSize: nat,  // KeyInfoPackedSize
    blockPackedSize: nat)    // KeywordBlockPackedSize

  /** The record section's header (RecordHeader). */
  datatype RecordHeader = RecordHeader(blocksNum: nat, entriesNum: nat, infoCompSize: nat, blockCompSize: nat)

  /** The four encodings the header can select, each with its own decoder. */
  datatype Encoding = UTF8 | UTF16 | BIG5 | GB18030

  /**
   * MdictMeta: what the parser derives from the file name and the header.
   * `version` is GeneratedByEngineVersion as float.Parse reads it.
   */
  datatype Meta = Meta(
    ext: Text,
    passcode: Text,
    version: real,
    numWidth: nat,
    numFmt: Utils.NumFmt,
    encoding: Encoding,
    encrypt: int)

  /** MDictOptions, as far as the parser reads them. */
  datatype Options = Options(encryptType: Option<int>, isStripKey: Option<bool>, isCaseSensitive: Option<bool>)

  /**
   * The services the parser calls but which are not part of this model: the
   * decoder of an encoding, zlib's inflate (None when the stream is
   * malformed), UTF-16 decoding of the header, the header's attribute parse,
   * int.Parse and float.Parse (None on a format error), the culture's
   * ToLower of one code unit, the key normaliser Strip, and StartsWith.
   */
  datatype Host = Host(
    decode: (Encoding, seq<byte>) -> Text,
    inflate: seq<byte> -> Option<seq<byte>>,
    unicode: seq<byte> -> Text,
    parseHeader: Text -> map<Text, Text>,
    parseInt: Text -> Option<int>,
    parseFloat: Text -> Option<real>,
    lower: CodeUnit -> CodeUnit,
    strip: Text -> Text,
    startsWith: (Text, Text) -> bool)

  /** Version 2.0 and later store numbers in 8 bytes. */
  predicate IsV2OrLater(m: Meta) { m.version >= 2.0 }

  /** Exactly version 2.0: the only version whose key-block info may be encrypted or zlib-packed. */
  predicate IsExactly2(m: Meta) { m.version == 2.0 }

  const Mdd: Text := Str("mdd")

  /** The extension of a resource file (.mdd), which forces UTF-16 keys. */
  predicate IsMdd(m: Meta) { m.ext == Mdd }

  // ---------------------------------------------------------------------------
  // The running sums the tables carry

  /** The sum of the pack sizes of a prefix of the key-block-info table. */
  function SumPack(items: seq<KeyInfoItem>): nat
  {
    if items == [] then 0 else SumPack(items[..|items| - 1]) + items[|items| - 1].packSize
  }

  function SumUnpack(items: seq<KeyInfoItem>): nat
  {
    if items == [] then 0 else SumUnpack(items[..|items| - 1]) + items[|items| - 1].unpackSize
  }

  function SumEntries(items: seq<KeyInfoItem>): nat
  {
    if items == [] then 0 else SumEntries(items[..|items| - 1]) + items[|items| - 1].entries
  }

  /**
   * The key-block-info table is consistent: item k is numbered k and its
   * three accumulators are the sums over the items before it.
   */
  predicate Accumulated(items: seq<KeyInfoItem>)
  {
    forall k :: 0 <= k < |items| ==>
      && items[k].index == k
      && items[k].packAcc == SumPack(items[..k])
      && items[k].unpackAcc == SumUnpack(items[..k])
      && items[k].entriesAcc == SumEntries(items[..k])
  }

  function SumRecordPack(infos: seq<RecordInfo>): nat
  {
    if infos == [] then 0 else SumRecordPack(infos[..|infos| - 1]) + infos[|infos| - 1].packSize
  }

  function SumRecordUnpack(infos: seq<RecordInfo>): nat
  {
    if infos == [] then 0 else SumRecordUnpack(infos[..|infos| - 1]) + infos[|infos| - 1].unpackSize
  }

  /** The record-info table is consistent: each block's offsets are the sums over the blocks before it. */
  predicate RecordAccumulated(infos: seq<RecordInfo>)
  {
    forall k :: 0 <= k < |infos| ==>
      infos[k].packAcc == SumRecordPack(infos[..k]) && infos[k].unpackAcc == SumRecordUnpack(infos[..k])
  }

  /** The unpacked offsets of a consistent record-info table never decrease. */
  lemma {:induction false} RecordAccumulatedSorted(infos: seq<RecordInfo>, i: nat, j: nat)
    requires RecordAccumulated(infos) && i <= j < |infos|
    ensures infos[i].unpackAcc <= infos[j].unpackAcc
    decreases j - i
  {
    if i < j {
      RecordAccumulatedSorted(infos, i, j - 1);
      assert infos[..j][..j - 1] == infos[..j - 1];
      assert infos[j].unpackAcc == infos[j - 1].unpackAcc + infos[j - 1].unpackSize;
    }
  }

  /**
   * A keyword list whose records follow one another: each keyword's record
   * ends where the next one's starts, and the last one's ends at `last`
   * (-1 while it is still open).
   */
  predicate Chained(list: seq<KeyWordItem>, last: int)
  {
    && (forall i, j :: 0 <= i < |list| && j == i + 1 && j < |list| ==> list[i].recordEnd == list[j].recordStart)
    && (list != [] ==> list[|list| - 1].recordEnd == last)
  }

  /** A keyword list in ordinal order of its key texts, the order the reader sorts it into. */
  predicate SortedByText(list: seq<KeyWordItem>)
  {
    forall i, j :: 0 <= i < j < |list| ==> OrdinalLe(list[i].keyText, list[j].keyText)
  }
}
