/**
 * BaseDict: the reader of an MDict file. Opening a dictionary reads, in
 * order, the header (an attribute list that fixes the number width, the
 * encoding and the encryption flag), the key header, the key-block-info
 * table, every key block (split into keywords), the record header and the
 * record-info table, and finally sorts the keywords ordinally.
 *
 * This module holds the field reads and the header, key-header and
 * record-header sections, each specified by a function over the file's
 * bytes. The tables and the key blocks follow in KeyInfos, KeyBlocks,
 * KeyBlockList and RecordInfos, whose loops are methods proved against their
 * functions; Reader puts the sections together, and the object that holds
 * the result is the class of module Dict.
 */
module BaseDict {
  import opened Common
  import Utils
  import opened Records

  // ---------------------------------------------------------------------------
  // Field reads

  /**
   * The `width` bytes from `off` on, read through B2N: a read near the end of
   * the buffer gives fewer bytes, hence another reader or 0. FieldIsLinq
   * shows this is `buf.Skip(off).Take(width)`, as the C# code writes it.
   */
  function Field(buf: seq<byte>, off: nat, width: nat): (r: Result<nat>)
    ensures r.Failure? ==> r.error == TooLarge
  {
    Utils.B2N(buf[Min(off, |buf|)..Min(off + width, |buf|)])
  }

  /** Field reads exactly the bytes LINQ's Skip and Take select. */
  lemma FieldIsLinq(buf: seq<byte>, off: nat, width: nat)
    ensures Field(buf, off, width) == Utils.B2N(Take(Skip(buf, off), width))
  {
    assert buf[Min(off, |buf|)..Min(off + width, |buf|)] == Take(Skip(buf, off), width);
  }

  /** The numbers a field of 1, 2, 4 or 8 bytes can carry (8-byte values stop at 2^53). */
  predicate Fits(n: nat, width: nat)
  {
    (width in {1, 2, 4} && n < Pow256(width)) || (width == 8 && n < Utils.Safe53)
  }

  /** A number written big-endian into a field reads back through Field. */
  lemma FieldOf(pre: seq<byte>, n: nat, width: nat, post: seq<byte>)
    requires Fits(n, width)
    ensures Field(pre + Utils.BeBytes(n, width) + post, |pre|, width) == Success(n)
  {
    var b := Utils.BeBytes(n, width);
    var s := pre + b + post;
    assert Skip(s, |pre|) == b + post;
    assert Take(b + post, width) == b;
    Utils.B2NOfBeBytes(n, width);
  }

  /** Numbers written big-endian one after another, each in `w` bytes. */
  function Layout(ns: seq<nat>, w: nat): (r: seq<byte>)
  {
    if ns == [] then [] else Utils.BeBytes(ns[0], w) + Layout(ns[1..], w)
  }

  predicate AllFit(ns: seq<nat>, w: nat)
  {
    forall i :: 0 <= i < |ns| ==> Fits(ns[i], w)
  }

  lemma {:induction false} LayoutLength(ns: seq<nat>, w: nat)
    ensures |Layout(ns, w)| == |ns| * w
  {
    if ns != [] {
      LayoutLength(ns[1..], w);
    }
  }

  /** The i-th number of a layout occupies bytes [i * w, i * w + w). */
  lemma {:induction false} LayoutSlice(ns: seq<nat>, w: nat, i: nat)
    requires i < |ns|
    ensures i * w + w <= |Layout(ns, w)|
    ensures Layout(ns, w)[i * w .. i * w + w] == Utils.BeBytes(ns[i], w)
    decreases i
  {
    var b, rest := Utils.BeBytes(ns[0], w), Layout(ns[1..], w);
    assert Layout(ns, w) == b + rest;
    if i == 0 {
      assert (b + rest)[..w] == b;
    } else {
      LayoutSlice(ns[1..], w, i - 1);
      var o := (i - 1) * w;
      assert i * w == o + w;
      assert (b + rest)[o + w .. o + w + w] == rest[o .. o + w];
    }
  }

  /** A field whose bytes are a number written big-endian reads as that number. */
  lemma FieldAt(s: seq<byte>, o: nat, w: nat, n: nat)
    requires o + w <= |s| && s[o .. o + w] == Utils.BeBytes(n, w) && Fits(n, w)
    ensures Field(s, o, w) == Success(n)
  {
    assert s[Min(o, |s|)..Min(o + w, |s|)] == s[o .. o + w];
    Utils.B2NOfBeBytes(n, w);
  }

  /** The i-th number of a layout reads back from offset i * w. */
  lemma FieldOfLayout(ns: seq<nat>, w: nat, i: nat)
    requires AllFit(ns, w) && i < |ns|
    ensures Field(Layout(ns, w), i * w, w) == Success(ns[i])
  {
    LayoutSlice(ns, w, i);
    FieldAt(Layout(ns, w), i * w, w, ns[i]);
  }

  /** The number width fits the version: 8 bytes from version 2.0 on, 4 before. */
  predicate WidthOk(meta: Meta)
  {
    meta.numWidth == if IsV2OrLater(meta) then 8 else 4
  }

  // ---------------------------------------------------------------------------
  // ReadHeader: the settings derived from the header's attributes

  const KeyCaseSensitiveAttr: Text := Str("KeyCaseSensitive")
  const StripKeyAttr: Text := Str("StripKey")
  const EncryptedAttr: Text := Str("Encrypted")
  const VersionAttr: Text := Str("GeneratedByEngineVersion")
  const EncodingAttr: Text := Str("Encoding")

  const No: Text := [78, 111]               // "No"
  const YesFlag: Text := [89, 101, 115]     // "Yes"
  const Gbk: Text := [103, 98, 107]                   // "gbk"
  const Gb2312: Text := [103, 98, 50, 51, 49, 50]     // "gb2312"
  const Big5: Text := [98, 105, 103, 53]              // "big5"
  const Utf16: Text := [117, 116, 102, 49, 54]        // "utf16"
  const UtfDash16: Text := [117, 116, 102, 45, 49, 54] // "utf-16"

  /** The MDictHeader indexer: a missing attribute reads as null. */
  function Get(h: map<Text, Text>, k: Text): Option<Text>
  {
    if k in h then Some(h[k]) else None
  }

  /** The parsed attributes with KeyCaseSensitive defaulting to "No" and StripKey to "Yes". */
  function WithDefaults(h: map<Text, Text>): (r: map<Text, Text>)
    ensures KeyCaseSensitiveAttr in r && StripKeyAttr in r
    ensures forall k :: k in h ==> k in r && r[k] == h[k]
    ensures forall k :: k in r && k !in h ==>
      (k == KeyCaseSensitiveAttr && r[k] == No) || (k == StripKeyAttr && r[k] == YesFlag)
  {
    var h1 := if KeyCaseSensitiveAttr in h then h else h[KeyCaseSensitiveAttr := No];
    if StripKeyAttr in h1 then h1 else h1[StripKeyAttr := YesFlag]
  }

  /** The Encrypted attribute: null, "" and "No" are 0, "Yes" is 1, anything else goes to int.Parse. */
  function EncryptFlag(v: Option<Text>, parseInt: Text -> Option<int>): (r: Result<int>)
  {
    if v.None? || v.value == [] || v.value == No then Success(0)
    else if v.value == YesFlag then Success(1)
    else if parseInt(v.value).Some? then Success(parseInt(v.value).value)
    else Failure(FormatError)
  }

  /**
   * Meta.Encrypt: the header's flag, replaced by the EncryptType option when
   * that is set and not -1. The flag is parsed first, so a malformed flag
   * raises even when the option replaces it.
   */
  function EncryptOf(h: map<Text, Text>, options: Options, parseInt: Text -> Option<int>): (r: Result<int>)
    ensures r.Success? && options.encryptType.Some? && options.encryptType.value != -1 ==>
      r.value == options.encryptType.value
    ensures (options.encryptType.None? || options.encryptType == Some(-1)) ==>
      r == EncryptFlag(Get(h, EncryptedAttr), parseInt)
  {
    var e :- EncryptFlag(Get(h, EncryptedAttr), parseInt);
    if options.encryptType.Some? && options.encryptType.value != -1 then Success(options.encryptType.value)
    else Success(e)
  }

  /**
   * The encoding of the keys and records: the Encoding attribute lowered,
   * with "gbk"/"gb2312" as GB18030, "big5" as BIG5, "utf16"/"utf-16" as
   * UTF-16 and anything else as UTF-8; a resource file (.mdd) is always UTF-16.
   */
  function EncodingOf(enc: Text, lower: CodeUnit -> CodeUnit, mdd: bool): (r: Encoding)
    ensures r == UTF16 <==> mdd || Utils.Lowered(lower, enc) == Utf16 || Utils.Lowered(lower, enc) == UtfDash16
    ensures r == GB18030 <==> !mdd && (Utils.Lowered(lower, enc) == Gbk || Utils.Lowered(lower, enc) == Gb2312)
    ensures r == BIG5 <==> !mdd && Utils.Lowered(lower, enc) == Big5
  {
    var l := Utils.Lowered(lower, enc);
    if mdd then UTF16
    else if l == [] then UTF8
    else if l == Gbk || l == Gb2312 then GB18030
    else if l == Big5 then BIG5
    else if l == Utf16 || l == UtfDash16 then UTF16
    else UTF8
  }

  /** What ReadHeader leaves behind: the attributes, the meta data and the end of the header section. */
  datatype HeaderInfo = HeaderInfo(header: map<Text, Text>, meta: Meta, headerEnd: nat)

  /**
   * ReadHeader: a 4-byte size, that many bytes of UTF-16 attribute text, and
   * a 4-byte checksum that is skipped.
   */
  function ReadHeaderSpec(file: seq<byte>, ext: Text, passcode: Text, options: Options, host: Host): (r: Result<HeaderInfo>)
    ensures r.Success? ==> WidthOk(r.value.meta)
    ensures r.Success? ==> (r.value.meta.numFmt == Utils.UInt64 <==> IsV2OrLater(r.value.meta))
    ensures r.Success? ==> (r.value.meta.numFmt == Utils.UInt32 <==> !IsV2OrLater(r.value.meta))
    ensures r.Success? ==> KeyCaseSensitiveAttr in r.value.header && StripKeyAttr in r.value.header
    ensures r.Success? ==> r.value.meta.ext == ext && r.value.meta.passcode == passcode
    ensures r.Success? && IsMdd(r.value.meta) ==> r.value.meta.encoding == UTF16
    ensures r.Success? && options.encryptType.Some? && options.encryptType.value != -1 ==>
      r.value.meta.encrypt == options.encryptType.value
    ensures r.Success? && |file| >= 4 ==> r.value.headerEnd == Utils.BeValue(file[..4]) + 8
  {
    var sizeBuf := ReadBuffer(file, 0, 4).value;
    var size := Utils.B2N(sizeBuf).value;
    assert |file| >= 4 ==> sizeBuf == file[..4];
    var text :- ReadBuffer(file, 4, ToInt32(size));
    var h := WithDefaults(host.parseHeader(host.unicode(text)));
    var encrypt :- EncryptOf(h, options, host.parseInt);
    var version :- ParsedFloat(host.parseFloat(OrEmpty(Get(h, VersionAttr))));
    var v2 := version >= 2.0;
    var encoding := EncodingOf(OrEmpty(Get(h, EncodingAttr)), host.lower, ext == Mdd);
    var meta := Meta(ext, passcode, version, if v2 then 8 else 4, if v2 then Utils.UInt64 else Utils.UInt32, encoding, encrypt);
    Success(HeaderInfo(h, meta, size + 8))
  }

  /** `value?.ToString() ?? string.Empty`. */
  function OrEmpty(v: Option<Text>): Text
  {
    if v.Some? then v.value else []
  }

  /** float.Parse: a text it rejects raises. */
  function ParsedFloat(v: Option<real>): Result<real>
  {
    if v.Some? then Success(v.value) else Failure(FormatError)
  }

  // ---------------------------------------------------------------------------
  // ReadKeyHeader

  /** The key header holds five numbers from version 2.0 on (40 bytes) and four before (16 bytes). */
  function KeyHeaderSize(meta: Meta): nat
  {
    if IsV2OrLater(meta) then 40 else 16
  }

  /** The end of the key header: from version 2.0 on a 4-byte checksum follows it. */
  function KeyHeaderEnd(meta: Meta, start: nat): nat
  {
    start + KeyHeaderSize(meta) + if IsV2OrLater(meta) then 4 else 0
  }

  /**
   * The numbers of the key header, each numWidth bytes: the number of key
   * blocks, the number of keywords, (from version 2.0 on) the unpacked size
   * of the key-block info, its packed size and the packed size of all key
   * blocks. Before version 2.0 the unpacked size keeps its initial 0.
   */
  function KeyHeaderFields(buf: seq<byte>, meta: Meta): (r: Result<KeyHeader>)
    ensures r.Success? && !IsV2OrLater(meta) ==> r.value.keyInfoUnpackSize == 0
  {
    var w := meta.numWidth;
    var blocks :- Field(buf, 0, w);
    var words :- Field(buf, w, w);
    if IsV2OrLater(meta) then
      var unpacked :- Field(buf, 2 * w, w);
      var infoPacked :- Field(buf, 3 * w, w);
      var blockPacked :- Field(buf, 4 * w, w);
      Success(KeyHeader(blocks, words, unpacked, infoPacked, blockPacked))
    else
      var infoPacked :- Field(buf, 2 * w, w);
      var blockPacked :- Field(buf, 3 * w, w);
      Success(KeyHeader(blocks, words, 0, infoPacked, blockPacked))
  }

  /**
   * ReadKeyHeader: read the key header at `start`, refusing a file whose
   * record blocks are encrypted (bit 0 of Encrypt): without a passcode the
   * user must identify, with one the format is not supported. Dafny's `%`
   * is Euclidean, so `encrypt % 2 == 1` is bit 0 of the two's complement
   * value for negative numbers as well.
   */
  function ReadKeyHeaderSpec(file: seq<byte>, meta: Meta, start: nat): (r: Result<KeyHeader>)
    ensures ReadBuffer(file, ToInt32(start), KeyHeaderSize(meta)).Success? ==>
      (meta.encrypt % 2 == 1 <==> r.Failure? && (r.error == NeedPasscode || r.error == EncryptionNotSupported))
    ensures r.Success? ==> meta.encrypt % 2 == 0
  {
    var buf :- ReadBuffer(file, ToInt32(start), KeyHeaderSize(meta));
    if meta.encrypt % 2 == 1 then
      if meta.passcode == [] then Failure(NeedPasscode) else Failure(EncryptionNotSupported)
    else
      KeyHeaderFields(buf, meta)
  }

  /** The numbers of a key header in file order; the unpacked size is stored from version 2.0 on. */
  function KeyHeaderNumbers(kh: KeyHeader, meta: Meta): seq<nat>
  {
    if IsV2OrLater(meta) then [kh.blocksNum, kh.keywordNum, kh.keyInfoUnpackSize, kh.keyInfoPackedSize, kh.blockPackedSize]
    else [kh.blocksNum, kh.keywordNum, kh.keyInfoPackedSize, kh.blockPackedSize]
  }

  /** Every number of a key header fits the width, and before version 2.0 there is no unpacked size. */
  predicate KeyHeaderStorable(kh: KeyHeader, meta: Meta)
  {
    AllFit(KeyHeaderNumbers(kh, meta), meta.numWidth) && (!IsV2OrLater(meta) ==> kh.keyInfoUnpackSize == 0)
  }

  /** A written key header reads back: KeyHeaderFields inverts the layout, in exactly KeyHeaderSize bytes. */
  lemma KeyHeaderRoundTrip(kh: KeyHeader, meta: Meta)
    requires WidthOk(meta) && KeyHeaderStorable(kh, meta)
    ensures |Layout(KeyHeaderNumbers(kh, meta), meta.numWidth)| == KeyHeaderSize(meta)
    ensures KeyHeaderFields(Layout(KeyHeaderNumbers(kh, meta), meta.numWidth), meta) == Success(kh)
  {
    var w, ns := meta.numWidth, KeyHeaderNumbers(kh, meta);
    var buf := Layout(ns, w);
    LayoutLength(ns, w);
    FieldOfLayout(ns, w, 0);
    FieldOfLayout(ns, w, 1);
    FieldOfLayout(ns, w, 2);
    FieldOfLayout(ns, w, 3);
    if IsV2OrLater(meta) {
      FieldOfLayout(ns, w, 4);
      KeyHeaderFieldsV2(buf, meta, kh);
    } else {
      KeyHeaderFieldsV1(buf, meta, kh);
    }
  }

  /** KeyHeaderFields assembles the five fields of a version 2.0 key header. */
  lemma KeyHeaderFieldsV2(buf: seq<byte>, meta: Meta, kh: KeyHeader)
    requires IsV2OrLater(meta)
    requires Field(buf, 0, meta.numWidth) == Success(kh.blocksNum)
    requires Field(buf, meta.numWidth, meta.numWidth) == Success(kh.keywordNum)
    requires Field(buf, 2 * meta.numWidth, meta.numWidth) == Success(kh.keyInfoUnpackSize)
    requires Field(buf, 3 * meta.numWidth, meta.numWidth) == Success(kh.keyInfoPackedSize)
    requires Field(buf, 4 * meta.numWidth, meta.numWidth) == Success(kh.blockPackedSize)
    ensures KeyHeaderFields(buf, meta) == Success(kh)
  {
  }

  /** KeyHeaderFields assembles the four fields of an older key header. */
  lemma KeyHeaderFieldsV1(buf: seq<byte>, meta: Meta, kh: KeyHeader)
    requires !IsV2OrLater(meta) && kh.keyInfoUnpackSize == 0
    requires Field(buf, 0, meta.numWidth) == Success(kh.blocksNum)
    requires Field(buf, meta.numWidth, meta.numWidth) == Success(kh.keywordNum)
    requires Field(buf, 2 * meta.numWidth, meta.numWidth) == Success(kh.keyInfoPackedSize)
    requires Field(buf, 3 * meta.numWidth, meta.numWidth) == Success(kh.blockPackedSize)
    ensures KeyHeaderFields(buf, meta) == Success(kh)
  {
  }

  // ---------------------------------------------------------------------------
  // ReadRecordHeader

  /** The record header holds four numbers: 32 bytes from version 2.0 on, 16 before. */
  function RecordHeaderSize(meta: Meta): nat
  {
    if IsV2OrLater(meta) then 32 else 16
  }

  /**
   * The numbers of the record header: the number of record blocks, the
   * number of entries (which must be the key header's keyword count), the
   * size of the record-info table and the packed size of all record blocks.
   */
  function RecordHeaderFields(buf: seq<byte>, meta: Meta, keywordNum: nat): (r: Result<RecordHeader>)
    ensures r.Success? ==> r.value.entriesNum == keywordNum
    ensures Field(buf, 0, meta.numWidth).Success? && Field(buf, meta.numWidth, meta.numWidth).Success? ==>
      (r == Failure(Corrupt(EntriesMismatch)) <==> Field(buf, meta.numWidth, meta.numWidth).value != keywordNum)
  {
    var w := meta.numWidth;
    var blocks :- Field(buf, 0, w);
    var entries :- Field(buf, w, w);
    if entries != keywordNum then Failure(Corrupt(EntriesMismatch))
    else
      var infoSize :- Field(buf, 2 * w, w);
      var blockSize :- Field(buf, 3 * w, w);
      Success(RecordHeader(blocks, entries, infoSize, blockSize))
  }

  const EntriesMismatch := "record header entries num should equal key header keyword num"

  /** ReadRecordHeader: the record header sits right after the key blocks. */
  function ReadRecordHeaderSpec(file: seq<byte>, meta: Meta, start: nat, keywordNum: nat): (r: Result<RecordHeader>)
    ensures r.Success? ==> r.value.entriesNum == keywordNum
  {
    var buf := ReadBuffer(file, start, RecordHeaderSize(meta)).value;
    RecordHeaderFields(buf, meta, keywordNum)
  }

  /** The numbers of a record header in file order. */
  function RecordHeaderNumbers(rh: RecordHeader): seq<nat>
  {
    [rh.blocksNum, rh.entriesNum, rh.infoCompSize, rh.blockCompSize]
  }

  /** A written record header reads back when its entry count is the keyword count. */
  lemma RecordHeaderRoundTrip(rh: RecordHeader, meta: Meta)
    requires WidthOk(meta) && AllFit(RecordHeaderNumbers(rh), meta.numWidth)
    ensures |Layout(RecordHeaderNumbers(rh), meta.numWidth)| == RecordHeaderSize(meta)
    ensures RecordHeaderFields(Layout(RecordHeaderNumbers(rh), meta.numWidth), meta, rh.entriesNum) == Success(rh)
  {
    var w, ns := meta.numWidth, RecordHeaderNumbers(rh);
    var buf := Layout(ns, w);
    LayoutLength(ns, w);
    assert |ns| * w == 4 * w;
    FieldOfLayout(ns, w, 0);
    FieldOfLayout(ns, w, 1);
    FieldOfLayout(ns, w, 2);
    FieldOfLayout(ns, w, 3);
    RecordHeaderFieldsOf(buf, meta, rh);
  }

  /** RecordHeaderFields assembles the four fields it finds. */
  lemma RecordHeaderFieldsOf(buf: seq<byte>, meta: Meta, rh: RecordHeader)
    requires Field(buf, 0, meta.numWidth) == Success(rh.blocksNum)
    requires Field(buf, meta.numWidth, meta.numWidth) == Success(rh.entriesNum)
    requires Field(buf, 2 * meta.numWidth, meta.numWidth) == Success(rh.infoCompSize)
    requires Field(buf, 3 * meta.numWidth, meta.numWidth) == Success(rh.blockCompSize)
    ensures RecordHeaderFields(buf, meta, rh.entriesNum) == Success(rh)
  {
  }


}
