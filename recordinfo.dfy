/**
 * ReadRecordInfos: the record-info table, which follows the record header.
 * Each record block has two numbers, its packed and its unpacked size, read
 * one after the other in the file's number width; the table's rows also
 * carry the running sums of both sizes, the offsets of each block among the
 * packed blocks and in the unpacked record data. The table must fill the
 * size the record header gives it, the packed sizes must add up to the
 * header's record-block size, and the last keyword's record ends where the
 * unpacked record data does.
 */
module RecordInfos {
  import opened Common
  import opened Records
  import BaseDict
  import Utils

  const InfoSizeMismatch := "record info size should equal record header recordInfoCompSize"
  const BlockSizeMismatch := "record block size should equal record header recordBlockCompSize"

  // ---------------------------------------------------------------------------
  // The table

  /** Reads the number at a byte offset of the table. */
  type NumReader = nat -> Result<nat>

  /** The numbers of `buf`, each read through Field in the number width `w`. */
  function Fields(buf: seq<byte>, w: nat): NumReader
  {
    (off: nat) => BaseDict.Field(buf, off, w)
  }

  /** The size of a table of `count` rows: two numbers of `w` bytes per row. */
  function TableSize(w: nat, count: nat): nat
  {
    if count == 0 then 0 else TableSize(w, count - 1) + 2 * w
  }

  /** The table size is two numbers per row. */
  lemma {:induction false} TableSizeIs(w: nat, count: nat)
    ensures TableSize(w, count) == (2 * count) * w
  {
    if count > 0 {
      TableSizeIs(w, count - 1);
    }
  }

  /**
   * Row i of the table, after the rows `before` it: its packed size where
   * they end and its unpacked size right after, with the sums of their
   * sizes as its offsets.
   */
  function NextRow(num: NumReader, w: nat, i: nat, before: seq<RecordInfo>): (r: Result<RecordInfo>)
    ensures r.Success? ==> r.value.packAcc == SumRecordPack(before) && r.value.unpackAcc == SumRecordUnpack(before)
    ensures r.Success? <==> num(TableSize(w, i)).Success? && num(TableSize(w, i) + w).Success?
  {
    var pack :- num(TableSize(w, i));
    var unpack :- num(TableSize(w, i) + w);
    Success(RecordInfo(pack, SumRecordPack(before), unpack, SumRecordUnpack(before)))
  }

  /** The first `k` rows of the table, each read after the ones before it. */
  function RowsUpTo(num: NumReader, w: nat, k: nat): (r: Result<seq<RecordInfo>>)
    ensures r.Success? ==> |r.value| == k
  {
    if k == 0 then Success([])
    else
      var before :- RowsUpTo(num, w, k - 1);
      var row :- NextRow(num, w, k - 1, before);
      Success(before + [row])
  }

  /** The whole table in `buf`: `count` rows from its start. */
  function Rows(buf: seq<byte>, w: nat, count: nat): (r: Result<seq<RecordInfo>>)
    ensures r.Success? ==> |r.value| == count
  {
    RowsUpTo(Fields(buf, w), w, count)
  }

  /** Every table RowsUpTo reads is consistent: each row's offsets are the sums over the rows before it. */
  lemma {:induction false} RowsUpToAccumulated(num: NumReader, w: nat, k: nat)
    requires RowsUpTo(num, w, k).Success?
    ensures RecordAccumulated(RowsUpTo(num, w, k).value)
  {
    if k > 0 {
      RowsUpToAccumulated(num, w, k - 1);
      var before := RowsUpTo(num, w, k - 1).value;
      var rows := RowsUpTo(num, w, k).value;
      forall j | 0 <= j < |rows|
        ensures rows[j].packAcc == SumRecordPack(rows[..j]) && rows[j].unpackAcc == SumRecordUnpack(rows[..j])
      {
        if j < |before| {
          assert rows[j] == before[j];
          assert rows[..j] == before[..j];
        } else {
          assert rows[..j] == before;
        }
      }
    }
  }

  /** Every table Rows reads is consistent. */
  lemma RowsAccumulated(buf: seq<byte>, w: nat, count: nat)
    requires Rows(buf, w, count).Success?
    ensures RecordAccumulated(Rows(buf, w, count).value)
  {
    RowsUpToAccumulated(Fields(buf, w), w, count);
  }

  /** Once a row fails to read, every longer table fails the same way. */
  lemma {:induction false} RowsUpToFail(num: NumReader, w: nat, k: nat, n: nat)
    requires 0 < k <= n && RowsUpTo(num, w, k).Failure?
    ensures RowsUpTo(num, w, n) == RowsUpTo(num, w, k)
    decreases n - k
  {
    if k < n {
      RowsUpToFail(num, w, k, n - 1);
    }
  }

  /** One more row read: the table grows by that row, and both sums by its sizes. */
  lemma RowsUpToStep(num: NumReader, w: nat, i: nat, list: seq<RecordInfo>, row: RecordInfo)
    requires RowsUpTo(num, w, i) == Success(list) && NextRow(num, w, i, list) == Success(row)
    ensures RowsUpTo(num, w, i + 1) == Success(list + [row])
    ensures SumRecordPack(list + [row]) == SumRecordPack(list) + row.packSize
    ensures SumRecordUnpack(list + [row]) == SumRecordUnpack(list) + row.unpackSize
  {
    assert (list + [row])[..|list|] == list;
  }

  /** A row that fails to read fails every table that holds it. */
  lemma RowFails(num: NumReader, w: nat, i: nat, n: nat, list: seq<RecordInfo>)
    requires RowsUpTo(num, w, i) == Success(list) && i < n && NextRow(num, w, i, list).Failure?
    ensures RowsUpTo(num, w, n) == Failure(NextRow(num, w, i, list).error)
  {
    RowsUpToFail(num, w, i + 1, n);
  }

  /** The sizes of a table in file order: packed, unpacked, row after row. */
  function SizeNumbers(rows: seq<RecordInfo>): (ns: seq<nat>)
    ensures |ns| == 2 * |rows|
  {
    if rows == [] then [] else [rows[0].packSize, rows[0].unpackSize] + SizeNumbers(rows[1..])
  }

  /** Row k's sizes are numbers 2k and 2k + 1. */
  lemma {:induction false} SizeNumbersAt(rows: seq<RecordInfo>, k: nat)
    requires k < |rows|
    ensures SizeNumbers(rows)[2 * k] == rows[k].packSize
    ensures SizeNumbers(rows)[2 * k + 1] == rows[k].unpackSize
  {
    if k > 0 {
      SizeNumbersAt(rows[1..], k - 1);
      assert rows[1..][k - 1] == rows[k];
    }
  }

  /** Table rows whose sizes fit the number width. */
  predicate SizesFit(rows: seq<RecordInfo>, w: nat)
  {
    forall k :: 0 <= k < |rows| ==> BaseDict.Fits(rows[k].packSize, w) && BaseDict.Fits(rows[k].unpackSize, w)
  }

  /** Sizes that fit make every number of the layout fit. */
  lemma SizesFitAll(rows: seq<RecordInfo>, w: nat)
    requires SizesFit(rows, w)
    ensures BaseDict.AllFit(SizeNumbers(rows), w)
  {
    var ns := SizeNumbers(rows);
    forall i | 0 <= i < |ns| ensures BaseDict.Fits(ns[i], w) {
      SizeNumbersAt(rows, i / 2);
    }
  }

  /** The offset of number i + 1 is one width past that of number i. */
  lemma NextMultiple(i: nat, w: nat)
    ensures (i + 1) * w == i * w + w
  {
  }

  /** Number i of a layout of table sizes, read where it was written. */
  lemma SizeAt(rows: seq<RecordInfo>, w: nat, i: nat, off: nat)
    requires SizesFit(rows, w) && i < 2 * |rows| && off == i * w
    ensures Fields(BaseDict.Layout(SizeNumbers(rows), w), w)(off) == Success(SizeNumbers(rows)[i])
  {
    SizesFitAll(rows, w);
    BaseDict.FieldOfLayout(SizeNumbers(rows), w, i);
  }

  /** Row k's sizes, written in file order, read back where the rows before it end. */
  lemma RowSizesAt(rows: seq<RecordInfo>, w: nat, k: nat)
    requires SizesFit(rows, w) && k < |rows|
    ensures Fields(BaseDict.Layout(SizeNumbers(rows), w), w)(TableSize(w, k)) == Success(rows[k].packSize)
    ensures Fields(BaseDict.Layout(SizeNumbers(rows), w), w)(TableSize(w, k) + w) == Success(rows[k].unpackSize)
  {
    SizeNumbersAt(rows, k);
    TableSizeIs(w, k);
    var i := 2 * k;
    NextMultiple(i, w);
    SizeAt(rows, w, i, TableSize(w, k));
    SizeAt(rows, w, i + 1, TableSize(w, k) + w);
  }

  /** `num` reads each row's sizes where the rows before it end. */
  ghost predicate Encodes(num: NumReader, w: nat, rows: seq<RecordInfo>)
  {
    forall k :: 0 <= k < |rows| ==>
      num(TableSize(w, k)) == Success(rows[k].packSize) && num(TableSize(w, k) + w) == Success(rows[k].unpackSize)
  }

  /** Row k of an encoded consistent table reads back after the rows before it. */
  lemma EncodedRow(num: NumReader, w: nat, rows: seq<RecordInfo>, k: nat)
    requires RecordAccumulated(rows) && Encodes(num, w, rows) && k < |rows|
    ensures NextRow(num, w, k, rows[..k]) == Success(rows[k])
  {
    assert rows[k].packAcc == SumRecordPack(rows[..k]) && rows[k].unpackAcc == SumRecordUnpack(rows[..k]);
    assert num(TableSize(w, k)) == Success(rows[k].packSize) && num(TableSize(w, k) + w) == Success(rows[k].unpackSize);
  }

  /** The induction behind RowsOfLayout: the first k rows of an encoded consistent table read back. */
  lemma {:induction false} RowsOfEncoded(num: NumReader, w: nat, rows: seq<RecordInfo>, k: nat)
    requires RecordAccumulated(rows) && Encodes(num, w, rows) && k <= |rows|
    ensures RowsUpTo(num, w, k) == Success(rows[..k])
  {
    if k > 0 {
      RowsOfEncoded(num, w, rows, k - 1);
      EncodedRow(num, w, rows, k - 1);
      RowsUpToStep(num, w, k - 1, rows[..k - 1], rows[k - 1]);
      PrefixGrows(rows, k);
    }
  }

  /** The sizes of a table, written in file order, are encoded in the layout. */
  lemma LayoutEncodes(rows: seq<RecordInfo>, w: nat)
    requires SizesFit(rows, w)
    ensures Encodes(Fields(BaseDict.Layout(SizeNumbers(rows), w), w), w, rows)
  {
    forall k | 0 <= k < |rows|
      ensures Fields(BaseDict.Layout(SizeNumbers(rows), w), w)(TableSize(w, k)) == Success(rows[k].packSize)
      ensures Fields(BaseDict.Layout(SizeNumbers(rows), w), w)(TableSize(w, k) + w) == Success(rows[k].unpackSize)
    {
      RowSizesAt(rows, w, k);
    }
  }

  /**
   * A consistent table, written as its sizes in file order, reads back row
   * for row: Rows recovers the sizes and recomputes the offsets.
   */
  lemma RowsOfLayout(rows: seq<RecordInfo>, w: nat)
    requires RecordAccumulated(rows) && SizesFit(rows, w)
    ensures Rows(BaseDict.Layout(SizeNumbers(rows), w), w, |rows|) == Success(rows)
  {
    LayoutEncodes(rows, w);
    RowsOfEncoded(Fields(BaseDict.Layout(SizeNumbers(rows), w), w), w, rows, |rows|);
    assert rows[..|rows|] == rows;
  }

  // ---------------------------------------------------------------------------
  // The last keyword's record

  /**
   * The back-fill after the table: a non-empty keyword list closes its last
   * record at the end of the last record block's unpacked data; with no
   * record block there is no last row to take it from.
   */
  function CloseKeywords(keywords: seq<KeyWordItem>, rows: seq<RecordInfo>): (r: Result<seq<KeyWordItem>>)
    ensures r.Failure? <==> keywords != [] && rows == []
    ensures r.Success? ==> |r.value| == |keywords|
    ensures r.Success? && keywords != [] ==>
      r.value[..|keywords| - 1] == keywords[..|keywords| - 1]
      && r.value[|keywords| - 1] == keywords[|keywords| - 1].(recordEnd := rows[|rows| - 1].unpackAcc + rows[|rows| - 1].unpackSize)
  {
    if keywords == [] then Success(keywords)
    else if rows == [] then Failure(OutOfRange)
    else
      var last := rows[|rows| - 1];
      Success(keywords[..|keywords| - 1] + [keywords[|keywords| - 1].(recordEnd := last.unpackAcc + last.unpackSize)])
  }

  /**
   * In a consistent table the last row ends where the unpacked record data
   * does, so an open keyword chain closed by CloseKeywords ends at the total
   * unpacked size.
   */
  lemma CloseKeywordsChained(keywords: seq<KeyWordItem>, rows: seq<RecordInfo>)
    requires Chained(keywords, -1) && RecordAccumulated(rows) && CloseKeywords(keywords, rows).Success?
    ensures Chained(CloseKeywords(keywords, rows).value, SumRecordUnpack(rows))
  {
    if keywords != [] {
      var n := |rows| - 1;
      assert rows[..n + 1] == rows;
      assert rows[n].unpackAcc == SumRecordUnpack(rows[..n]);
      var closed := CloseKeywords(keywords, rows).value;
      var m := |keywords| - 1;
      forall i, j | 0 <= i < |closed| && j == i + 1 && j < |closed| ensures closed[i].recordEnd == closed[j].recordStart {
        assert closed[i] == keywords[i];
        if j < m {
          assert closed[j] == keywords[j];
        } else {
          assert closed[j].recordStart == keywords[j].recordStart;
        }
      }
    }
  }

  // ---------------------------------------------------------------------------
  // ReadRecordInfos

  /** What ReadRecordInfos leaves behind: the record-info table and the keyword list with its last record closed. */
  datatype RecordInfoResult = RecordInfoResult(rows: seq<RecordInfo>, keywords: seq<KeyWordItem>)

  /** The table read through `num`, its two size checks and the last keyword's end. */
  function RecordInfosOf(num: NumReader, w: nat, header: RecordHeader, keywords: seq<KeyWordItem>): (r: Result<RecordInfoResult>)
  {
    var rows :- RowsUpTo(num, w, header.blocksNum);
    if TableSize(w, header.blocksNum) != header.infoCompSize then Failure(Corrupt(InfoSizeMismatch))
    else if SumRecordPack(rows) != header.blockCompSize then Failure(Corrupt(BlockSizeMismatch))
    else
      var closed :- CloseKeywords(keywords, rows);
      Success(RecordInfoResult(rows, closed))
  }

  /**
   * ReadRecordInfos: the table read from `start` (its size cast to int), one
   * row per record block, then the size checks and the last keyword's end.
   */
  function ReadRecordInfosSpec(file: seq<byte>, meta: Meta, start: int, header: RecordHeader,
                               keywords: seq<KeyWordItem>): (r: Result<RecordInfoResult>)
  {
    var buf :- ReadBuffer(file, start, ToInt32(header.infoCompSize));
    RecordInfosOf(Fields(buf, meta.numWidth), meta.numWidth, header, keywords)
  }

  /**
   * What a successful ReadRecordInfos promises: one row per record block, a
   * consistent table that fills its size, packed sizes that add up to the
   * header's record-block size, and the keyword chain closed at the end of
   * the unpacked record data.
   */
  lemma ReadRecordInfosSound(file: seq<byte>, meta: Meta, start: int, header: RecordHeader, keywords: seq<KeyWordItem>)
    requires Chained(keywords, -1)
    requires ReadRecordInfosSpec(file, meta, start, header, keywords).Success?
    ensures var res := ReadRecordInfosSpec(file, meta, start, header, keywords).value;
      && |res.rows| == header.blocksNum
      && RecordAccumulated(res.rows)
      && (2 * |res.rows|) * meta.numWidth == header.infoCompSize
      && SumRecordPack(res.rows) == header.blockCompSize
      && |res.keywords| == |keywords|
      && Chained(res.keywords, SumRecordUnpack(res.rows))
  {
    var buf := ReadBuffer(file, start, ToInt32(header.infoCompSize)).value;
    var rows := RowsUpTo(Fields(buf, meta.numWidth), meta.numWidth, header.blocksNum).value;
    RowsUpToAccumulated(Fields(buf, meta.numWidth), meta.numWidth, header.blocksNum);
    TableSizeIs(meta.numWidth, header.blocksNum);
    CloseKeywordsChained(keywords, rows);
  }

  /** `num` reads the numbers of `buf` as Field does; the equation is used only where a field of `buf` is read. */
  ghost predicate ReadsFields(num: NumReader, buf: seq<byte>, w: nat)
  {
    forall off: nat {:trigger BaseDict.Field(buf, off, w)} :: num(off) == BaseDict.Field(buf, off, w)
  }

  /** Fields reads the numbers of `buf` as Field does. */
  lemma FieldsRead(buf: seq<byte>, w: nat)
    ensures ReadsFields(Fields(buf, w), buf, w)
  {
  }

  /** One number of the table, read at byte `off` in the number width. */
  method ReadField(buf: seq<byte>, off: nat, w: nat, ghost num: NumReader) returns (r: Result<nat>)
    requires ReadsFields(num, buf, w)
    ensures r == num(off)
  {
    r := BaseDict.Field(buf, off, w);
  }

  /** One row of the table: both sizes, read one width after the other, with the running sums as offsets. */
  method ReadRow(buf: seq<byte>, w: nat, offset: nat, compressedAdder: nat, decompressionAdder: nat,
                 ghost i: nat, ghost before: seq<RecordInfo>, ghost num: NumReader) returns (r: Result<RecordInfo>, next: nat)
    requires ReadsFields(num, buf, w) && offset == TableSize(w, i)
    requires compressedAdder == SumRecordPack(before) && decompressionAdder == SumRecordUnpack(before)
    ensures r == NextRow(num, w, i, before)
    ensures r.Success? ==> next == TableSize(w, i + 1)
  {
    next := offset;
    var packSize := ReadField(buf, next, w, num);
    if packSize.Failure? {
      return Failure(packSize.error), next;
    }
    next := next + w;
    var unpackSize := ReadField(buf, next, w, num);
    if unpackSize.Failure? {
      return Failure(unpackSize.error), next;
    }
    next := next + w;
    r := Success(RecordInfo(packSize.value, compressedAdder, unpackSize.value, decompressionAdder));
  }

  /** The loop of ReadRecordInfos: row after row, with the running sums of both sizes. */
  method ReadRows(buf: seq<byte>, w: nat, blocksNum: nat, ghost num: NumReader) returns (r: Result<seq<RecordInfo>>, offset: nat)
    requires ReadsFields(num, buf, w)
    ensures r == RowsUpTo(num, w, blocksNum)
    ensures r.Success? ==> offset == TableSize(w, blocksNum)
  {
    var recordInfoList: seq<RecordInfo> := [];
    offset := 0;
    var compressedAdder: nat, decompressionAdder: nat := 0, 0;
    var i := 0;
    while i < blocksNum
      invariant i <= blocksNum
      invariant offset == TableSize(w, i)
      invariant RowsUpTo(num, w, i) == Success(recordInfoList)
      invariant compressedAdder == SumRecordPack(recordInfoList)
      invariant decompressionAdder == SumRecordUnpack(recordInfoList)
    {
      var row;
      row, offset := ReadRow(buf, w, offset, compressedAdder, decompressionAdder, i, recordInfoList, num);
      if row.Failure? {
        RowFails(num, w, i, blocksNum, recordInfoList);
        return Failure(row.error), offset;
      }
      RowsUpToStep(num, w, i, recordInfoList, row.value);
      recordInfoList := recordInfoList + [row.value];
      compressedAdder := compressedAdder + row.value.packSize;
      decompressionAdder := decompressionAdder + row.value.unpackSize;
      i := i + 1;
    }
    return Success(recordInfoList), offset;
  }

  /** The table in `buf`: its rows, both size checks and the last keyword's end. */
  method ReadTable(buf: seq<byte>, w: nat, header: RecordHeader, keywords: seq<KeyWordItem>, ghost num: NumReader)
    returns (r: Result<RecordInfoResult>)
    requires ReadsFields(num, buf, w)
    ensures r == RecordInfosOf(num, w, header, keywords)
  {
    var rows, offset := ReadRows(buf, w, header.blocksNum, num);
    if rows.Failure? {
      return Failure(rows.error);
    }
    if offset != header.infoCompSize {
      return Failure(Corrupt(InfoSizeMismatch));
    }
    if SumRecordPack(rows.value) != header.blockCompSize {
      return Failure(Corrupt(BlockSizeMismatch));
    }
    var closed := keywords;
    if |keywords| > 0 {
      if |rows.value| == 0 {
        return Failure(OutOfRange);
      }
      var last := rows.value[|rows.value| - 1];
      closed := keywords[..|keywords| - 1] + [keywords[|keywords| - 1].(recordEnd := last.unpackAcc + last.unpackSize)];
    }
    assert Success(closed) == CloseKeywords(keywords, rows.value);
    return Success(RecordInfoResult(rows.value, closed));
  }

  /** ReadRecordInfos: read the table, check both sizes, close the last keyword's record. */
  method ReadRecordInfos(file: seq<byte>, meta: Meta, start: int, header: RecordHeader, keywords: seq<KeyWordItem>)
    returns (r: Result<RecordInfoResult>)
    ensures r == ReadRecordInfosSpec(file, meta, start, header, keywords)
  {
    var recordInfoBuff := ReadBuffer(file, start, ToInt32(header.infoCompSize));
    if recordInfoBuff.Failure? {
      return Failure(recordInfoBuff.error);
    }
    FieldsRead(recordInfoBuff.value, meta.numWidth);
    r := ReadTable(recordInfoBuff.value, meta.numWidth, header, keywords, Fields(recordInfoBuff.value, meta.numWidth));
  }
}
