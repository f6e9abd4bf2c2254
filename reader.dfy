/**
 * BaseDict.ReadDict: opening a dictionary reads its sections one after the
 * other, each starting where the one before it ends, and then sorts the
 * keyword list ordinally by key text. The sections are the header, the key
 * header, the key-block-info table, the key blocks, the record header and
 * the record-info table; the record blocks themselves are read only when a
 * definition is looked up.
 */
module Reader {
  import opened Common
  import opened Records
  import BaseDict
  import KeyInfos
  import KeyBlockList
  import RecordInfos

  // ---------------------------------------------------------------------------
  // The final sort

  /** `x` put in front of the first keyword that does not sort before it. */
  function Insert(x: KeyWordItem, list: seq<KeyWordItem>): (r: seq<KeyWordItem>)
    ensures |r| == |list| + 1
  {
    if list == [] || OrdinalLe(x.keyText, list[0].keyText) then [x] + list
    else [list[0]] + Insert(x, list[1..])
  }

  /**
   * The keyword list sorted ordinally by key text. List.Sort is an unstable
   * sort, so the order of keywords with equal texts is not fixed by the C#
   * code; this model keeps them in list order.
   */
  function SortByText(list: seq<KeyWordItem>): (r: seq<KeyWordItem>)
    ensures |r| == |list|
  {
    if list == [] then [] else Insert(list[0], SortByText(list[1..]))
  }

  /** Insert adds `x` and keeps every keyword. */
  lemma {:induction false} InsertPermutes(x: KeyWordItem, list: seq<KeyWordItem>)
    ensures multiset(Insert(x, list)) == multiset(list) + multiset{x}
  {
    if !(list == [] || OrdinalLe(x.keyText, list[0].keyText)) {
      InsertPermutes(x, list[1..]);
      assert list == [list[0]] + list[1..];
    }
  }

  /** Insert into a sorted list gives a sorted list. */
  lemma {:induction false} InsertSorted(x: KeyWordItem, list: seq<KeyWordItem>)
    requires SortedByText(list)
    ensures SortedByText(Insert(x, list))
  {
    var r := Insert(x, list);
    if list == [] || OrdinalLe(x.keyText, list[0].keyText) {
      forall i, j | 0 <= i < j < |r| ensures OrdinalLe(r[i].keyText, r[j].keyText) {
        if i == 0 {
          CompareOrdinalTransitive(x.keyText, list[0].keyText, list[j - 1].keyText);
        }
      }
    } else {
      var tail := Insert(x, list[1..]);
      InsertSorted(x, list[1..]);
      InsertPermutes(x, list[1..]);
      OrdinalTotal(x.keyText, list[0].keyText);
      forall j | 0 <= j < |tail| ensures OrdinalLe(list[0].keyText, tail[j].keyText) {
        assert tail[j] in multiset(tail);
        if tail[j] != x {
          var k :| 1 <= k < |list| && list[k] == tail[j];
        }
      }
    }
  }

  /** The sorted list holds exactly the keywords of the list. */
  lemma {:induction false} SortPermutes(list: seq<KeyWordItem>)
    ensures multiset(SortByText(list)) == multiset(list)
  {
    if list != [] {
      SortPermutes(list[1..]);
      InsertPermutes(list[0], SortByText(list[1..]));
      assert list == [list[0]] + list[1..];
    }
  }

  /** The sorted list is in ordinal order. */
  lemma {:induction false} SortSorted(list: seq<KeyWordItem>)
    ensures SortedByText(SortByText(list))
  {
    if list != [] {
      SortSorted(list[1..]);
      InsertSorted(list[0], SortByText(list[1..]));
    }
  }

  // ---------------------------------------------------------------------------
  // ReadDict

  /** What the reader leaves in the dictionary's fields once the file is open. */
  datatype Index = Index(
    header: map<Text, Text>,
    meta: Meta,
    keyHeader: KeyHeader,
    keyInfos: seq<KeyInfoItem>,
    keywords: seq<KeyWordItem>,
    recordHeader: RecordHeader,
    recordInfos: seq<RecordInfo>,
    keyBlockStart: nat,      // _keyBlockStartOffset
    recordBlockStart: nat)   // _recordBlockStartOffset

  /**
   * ReadDict: the sections in file order. The key header follows the
   * header; the key-block info follows the key header; the key blocks
   * follow the key-block info and the record header follows the key blocks,
   * both as far on as the key header says; the record-info table follows the
   * record header and the record blocks follow the table.
   */
  function ReadDictSpec(file: seq<byte>, ext: Text, passcode: Text, options: Options, host: Host): (r: Result<Index>)
    ensures r.Success? ==> BaseDict.WidthOk(r.value.meta) && r.value.meta.encrypt % 2 == 0
    ensures r.Success? ==> |r.value.keyInfos| == r.value.keyHeader.blocksNum && Accumulated(r.value.keyInfos)
    ensures r.Success? ==> |r.value.keywords| == r.value.keyHeader.keywordNum && r.value.keywords != []
    ensures r.Success? ==> SortedByText(r.value.keywords)
    ensures r.Success? ==> r.value.recordHeader.entriesNum == r.value.keyHeader.keywordNum
    ensures r.Success? ==> |r.value.recordInfos| == r.value.recordHeader.blocksNum && RecordAccumulated(r.value.recordInfos)
    ensures r.Success? ==> SumRecordPack(r.value.recordInfos) == r.value.recordHeader.blockCompSize
  {
    var head :- BaseDict.ReadHeaderSpec(file, ext, passcode, options, host);
    var meta := head.meta;
    var keyHeaderStart := head.headerEnd;
    var keyHeader :- BaseDict.ReadKeyHeaderSpec(file, meta, keyHeaderStart);
    var infoStart := BaseDict.KeyHeaderEnd(meta, keyHeaderStart);
    var keyInfos :- KeyInfos.ReadKeyInfosSpec(file, meta, keyHeader, infoStart, host);
    var keyBlockStart := infoStart + keyHeader.keyInfoPackedSize;
    var keywords :- KeyBlockList.ReadKeyBlocksSpec(file, keyBlockStart, keyInfos, keyHeader.keywordNum, meta, host);
    var recordHeaderStart := keyBlockStart + keyHeader.blockPackedSize;
    var recordHeader :- BaseDict.ReadRecordHeaderSpec(file, meta, recordHeaderStart, keyHeader.keywordNum);
    var recordInfoStart := recordHeaderStart + BaseDict.RecordHeaderSize(meta);
    var records :- RecordInfos.ReadRecordInfosSpec(file, meta, recordInfoStart, recordHeader, keywords);
    KeyBlockList.ReadKeyBlocksChain(file, keyBlockStart, keyInfos, keyHeader.keywordNum, meta, host);
    RecordInfos.ReadRecordInfosSound(file, meta, recordInfoStart, recordHeader, keywords);
    SortSorted(records.keywords);
    Success(Index(head.header, meta, keyHeader, keyInfos, SortByText(records.keywords), recordHeader, records.rows,
                  keyBlockStart, recordInfoStart + recordHeader.infoCompSize))
  }
}
