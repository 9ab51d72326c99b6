/**
 * The reader of Lingoes LD2 dictionary files (cn/kk/extractor/lingoes/LingoesLd2Extractor.java):
 * the little-endian file buffer, the header that locates the dictionary data, the loop that
 * collects the offsets of the compressed streams, the fixed-size index records, the text
 * extractor `strip`, and the loop that fills the word-to-definition map.
 *
 * The zlib inflation of the streams and the charset decoding of words and definitions are not
 * part of this model: the decoded (word, definition) of index record i is a parameter of Extract.
 * Helper.SEP_NEWLINE_CHAR is not part of this model either and is a parameter `sep`.
 */
module LingoesLd2Extractor {
  import opened Wrappers
  import opened JavaLang

  /** The unsigned value of one byte of the file (what `get() & 0xff` yields). */
  type byte = b: int | 0 <= b < 0x100

  // ---------------------------------------------------------------- little-endian ints

  /** The int stored little-endian in data[i..i + 4], as a two's complement value. */
  function Int32At(data: seq<byte>, i: int): (r: int)
    requires 0 <= i && i + 4 <= |data|
    ensures InInt32(r)
  {
    var u := data[i] as int + 0x100 * (data[i + 1] as int) + 0x1_0000 * (data[i + 2] as int) + 0x100_0000 * (data[i + 3] as int);
    if u <= INT_MAX then u else u - 0x1_0000_0000
  }

  /** The four little-endian bytes of a Java int. */
  function EncodeInt32(x: int): (r: seq<byte>)
    requires InInt32(x)
    ensures |r| == 4
  {
    var u := if x < 0 then x + 0x1_0000_0000 else x;
    var u1 := u / 0x100;
    var u2 := u1 / 0x100;
    var u3 := u2 / 0x100;
    [u % 0x100, u1 % 0x100, u2 % 0x100, u3]
  }

  /** Splitting off the low byte of a natural number, and putting it back. */
  lemma LowByte(u: int, low: int, high: int)
    requires 0 <= u
    ensures u == u % 0x100 + 0x100 * (u / 0x100)
    ensures 0 <= low < 0x100 && 0 <= high && u == low + 0x100 * high ==> u % 0x100 == low && u / 0x100 == high
  {
  }

  /** Decoding the encoding of an int gives the int back. */
  lemma DecodeEncodeInt32(x: int)
    requires InInt32(x)
    ensures Int32At(EncodeInt32(x), 0) == x
  {
    var u := if x < 0 then x + 0x1_0000_0000 else x;
    var u1 := u / 0x100;
    var u2 := u1 / 0x100;
    LowByte(u, 0, 0);
    LowByte(u1, 0, 0);
    LowByte(u2, 0, 0);
  }

  /** Encoding the int read from four bytes gives those bytes back. */
  lemma EncodeDecodeInt32(data: seq<byte>, i: int)
    requires 0 <= i && i + 4 <= |data|
    ensures EncodeInt32(Int32At(data, i)) == data[i..i + 4]
  {
    var d0, d1, d2, d3 := data[i] as int, data[i + 1] as int, data[i + 2] as int, data[i + 3] as int;
    var u := d0 + 0x100 * (d1 + 0x100 * (d2 + 0x100 * d3));
    LowByte(u, d0, d1 + 0x100 * (d2 + 0x100 * d3));
    LowByte(u / 0x100, d1, d2 + 0x100 * d3);
    LowByte(u / 0x100 / 0x100, d2, d3);
    LowByte(u / 0x100 / 0x100 / 0x100, d3, 0);
    assert EncodeInt32(Int32At(data, i)) == [d0, d1, d2, d3];
  }

  /** ByteBuffer.getInt(index): IndexOutOfBoundsException unless four bytes lie at index. */
  function IntAt(data: seq<byte>, index: int): (r: Result<int, Error>)
    ensures r.Success? <==> 0 <= index && index + 4 <= |data|
    ensures r.Success? ==> r.value == Int32At(data, index)
    ensures r.Failure? ==> r.error == IndexOutOfBounds
  {
    if 0 <= index && index + 4 <= |data| then Success(Int32At(data, index)) else Failure(IndexOutOfBounds)
  }

  // ---------------------------------------------------------------- the file buffer

  /**
   * A ByteBuffer over the whole file in little-endian order: the bytes never change, the
   * position moves. The limit is the length of the file.
   */
  class ByteBuffer {
    const data: seq<byte>
    var position: int

    predicate Valid()
      reads this
    {
      0 <= position <= |data|
    }

    /** The buffer as extractLd2ToMap leaves it after reading the file and rewinding. */
    constructor(bytes: seq<byte>)
      ensures data == bytes && position == 0 && Valid()
    {
      data := bytes;
      position := 0;
    }

    /** Buffer.position(p): IllegalArgumentException unless 0 <= p <= limit. */
    method SetPosition(p: int) returns (r: Result<(), Error>)
      modifies this
      ensures r.Success? <==> 0 <= p <= |data|
      ensures r.Success? ==> position == p
      ensures r.Failure? ==> r.error == IllegalArgument && position == old(position)
    {
      if 0 <= p <= |data| {
        position := p;
        r := Success(());
      } else {
        r := Failure(IllegalArgument);
      }
    }

    /** The relative getInt(): BufferUnderflowException when fewer than four bytes remain. */
    method GetInt() returns (r: Result<int, Error>)
      requires Valid()
      modifies this
      ensures Valid()
      ensures r.Success? <==> old(position) + 4 <= |data|
      ensures r.Success? ==> r.value == Int32At(data, old(position)) && position == old(position) + 4
      ensures r.Failure? ==> r.error == BufferUnderflow && position == old(position)
    {
      if position + 4 <= |data| {
        r := Success(Int32At(data, position));
        position := position + 4;
      } else {
        r := Failure(BufferUnderflow);
      }
    }

    /** The relative get(), as an unsigned value: BufferUnderflowException at the limit. */
    method Get() returns (r: Result<byte, Error>)
      requires Valid()
      modifies this
      ensures Valid()
      ensures r.Success? <==> old(position) < |data|
      ensures r.Success? ==> r.value == data[old(position)] && position == old(position) + 1
      ensures r.Failure? ==> r.error == BufferUnderflow && position == old(position)
    {
      if position < |data| {
        r := Success(data[position]);
        position := position + 1;
      } else {
        r := Failure(BufferUnderflow);
      }
    }
  }

  // ---------------------------------------------------------------- index records

  /** Length of one index record: int, int, byte, byte, int, int. */
  const RECORD_SIZE: int := 18

  /** The six values of the index record at p: two ints, two unsigned bytes, two ints. */
  function IdxRecord(data: seq<byte>, p: int): (r: seq<int>)
    requires 0 <= p && p + RECORD_SIZE <= |data|
    ensures |r| == 6
    ensures r[2] == data[p + 8] && r[3] == data[p + 9]
  {
    [Int32At(data, p), Int32At(data, p + 4), data[p + 8], data[p + 9], Int32At(data, p + 10), Int32At(data, p + 14)]
  }

  /** The bytes of an index record holding the given values. */
  function EncodeIdxRecord(lastWord: int, lastXml: int, flags: byte, refs: byte, word: int, xml: int): (r: seq<byte>)
    requires InInt32(lastWord) && InInt32(lastXml) && InInt32(word) && InInt32(xml)
    ensures |r| == RECORD_SIZE
  {
    EncodeInt32(lastWord) + EncodeInt32(lastXml) + [flags, refs] + EncodeInt32(word) + EncodeInt32(xml)
  }

  /** Reading an encoded record at any position gives back its values. */
  lemma IdxRecordRoundTrip(prefix: seq<byte>, lastWord: int, lastXml: int, flags: byte, refs: byte, word: int, xml: int)
    requires InInt32(lastWord) && InInt32(lastXml) && InInt32(word) && InInt32(xml)
    ensures var data := prefix + EncodeIdxRecord(lastWord, lastXml, flags, refs, word, xml);
      IdxRecord(data, |prefix|) == [lastWord, lastXml, flags, refs, word, xml]
  {
    var data := prefix + EncodeIdxRecord(lastWord, lastXml, flags, refs, word, xml);
    var p := |prefix|;
    IntAtSlice(data, p, EncodeInt32(lastWord));
    IntAtSlice(data, p + 4, EncodeInt32(lastXml));
    IntAtSlice(data, p + 10, EncodeInt32(word));
    IntAtSlice(data, p + 14, EncodeInt32(xml));
    DecodeEncodeInt32(lastWord);
    DecodeEncodeInt32(lastXml);
    DecodeEncodeInt32(word);
    DecodeEncodeInt32(xml);
  }

  /** An int read inside a buffer is the int read from the four bytes it covers. */
  lemma IntAtSlice(data: seq<byte>, i: int, four: seq<byte>)
    requires 0 <= i && i + 4 <= |data| && data[i..i + 4] == four
    ensures Int32At(data, i) == Int32At(four, 0)
  {
    assert four[0] == data[i] && four[1] == data[i + 1] && four[2] == data[i + 2] && four[3] == data[i + 3];
  }

  /** The six relative reads of getIdxData, from the current position on. */
  method ReadIdxRecord(buffer: ByteBuffer, wordIdxData: array<int>) returns (r: Result<(), Error>)
    requires buffer.Valid() && wordIdxData.Length == 6
    modifies buffer, wordIdxData
    ensures buffer.Valid()
    ensures r.Success? <==> old(buffer.position) + RECORD_SIZE <= |buffer.data|
    ensures r.Success? ==> && wordIdxData[..] == IdxRecord(buffer.data, old(buffer.position))
                           && buffer.position == old(buffer.position) + RECORD_SIZE
    ensures r.Failure? ==> r.error == BufferUnderflow
  {
    var lastWord :- buffer.GetInt();
    wordIdxData[0] := lastWord;
    var lastXml :- buffer.GetInt();
    wordIdxData[1] := lastXml;
    var flags :- buffer.Get();
    wordIdxData[2] := flags;
    var refs :- buffer.Get();
    wordIdxData[3] := refs;
    var word :- buffer.GetInt();
    wordIdxData[4] := word;
    var xml :- buffer.GetInt();
    wordIdxData[5] := xml;
    r := Success(());
  }

  /**
   * getIdxData: positions the buffer at `position` and reads one record into wordIdxData. An
   * exception leaves a prefix of the record written (not stated here).
   */
  method GetIdxData(buffer: ByteBuffer, position: int, wordIdxData: array<int>) returns (r: Result<(), Error>)
    requires buffer.Valid() && wordIdxData.Length == 6
    modifies buffer, wordIdxData
    ensures buffer.Valid()
    ensures r.Success? <==> 0 <= position && position + RECORD_SIZE <= |buffer.data|
    ensures r.Success? ==> wordIdxData[..] == IdxRecord(buffer.data, position) && buffer.position == position + RECORD_SIZE
    ensures r.Failure? ==> r.error == if 0 <= position <= |buffer.data| then BufferUnderflow else IllegalArgument
  {
    var _ :- buffer.SetPosition(position);
    r := ReadIdxRecord(buffer, wordIdxData);
  }

  // ---------------------------------------------------------------- locating the data

  /** Type code of a dictionary whose data starts at the data offset itself. */
  const TYPE_PLAIN: int := 3

  /** The data offset: the int at 0x5C plus 0x60, in int arithmetic. */
  function DataOffsetField(data: seq<byte>): (r: Result<int, Error>)
    ensures r.Success? <==> 0x60 <= |data|
    ensures r.Success? ==> r.value == Wrap32(Int32At(data, 0x5C) + 0x60)
    ensures r.Failure? ==> r.error == IndexOutOfBounds
  {
    var base :- IntAt(data, 0x5C);
    Success(Wrap32(base + 0x60))
  }

  /**
   * extractLd2ToMap: the offset at which readDictionary reads. Type 3 is read at the data
   * offset; any other type at offsetWithInfo (the int after the type, plus the data offset, plus
   * 12) when the buffer extends beyond offsetWithInfo + 0x1C; otherwise UnexpectedCriticalError.
   * Header reads outside the buffer raise IndexOutOfBoundsException.
   */
  function DictionaryOffset(data: seq<byte>): (r: Result<int, Error>)
  {
    var offsetData :- DataOffsetField(data);
    OffsetForType(data, offsetData)
  }

  /** The type test of extractLd2ToMap, once the data offset is known. */
  function OffsetForType(data: seq<byte>, offsetData: int): (r: Result<int, Error>)
  {
    if |data| > offsetData then
      var kind :- IntAt(data, offsetData);
      var info :- IntAt(data, Wrap32(offsetData + 4));
      var offsetWithInfo := Wrap32(Wrap32(info + offsetData) + 12);
      if kind == TYPE_PLAIN then Success(offsetData)
      else if |data| > Wrap32(offsetWithInfo + 0x1C) then Success(offsetWithInfo)
      else Failure(UnexpectedCriticalError)
    else Failure(UnexpectedCriticalError)
  }

  /** Type 3 at the data offset: the dictionary is read at the data offset. */
  lemma DictionaryOffsetPlain(data: seq<byte>)
    requires 0x60 <= |data| <= INT_MAX
    ensures var offsetData := Wrap32(Int32At(data, 0x5C) + 0x60);
      0 <= offsetData && offsetData + 8 <= |data| && Int32At(data, offsetData) == TYPE_PLAIN ==>
        DictionaryOffset(data) == Success(offsetData)
  {
    var offsetData := Wrap32(Int32At(data, 0x5C) + 0x60);
    assert DataOffsetField(data) == Success(offsetData);
    if 0 <= offsetData && offsetData + 8 <= |data| {
      assert Wrap32(offsetData + 4) == offsetData + 4;
      assert IntAt(data, offsetData) == Success(Int32At(data, offsetData));
      assert IntAt(data, offsetData + 4) == Success(Int32At(data, offsetData + 4));
    }
  }

  /**
   * Any other offset comes from a dictionary of another type: offsetWithInfo, which lies inside
   * the buffer once 0x1C is added.
   */
  lemma OffsetForTypeWithInfo(data: seq<byte>, offsetData: int)
    requires |data| <= INT_MAX
    ensures var r := OffsetForType(data, offsetData);
      r.Success? && r.value != offsetData ==>
        && 0 <= offsetData && offsetData + 8 <= |data| && Int32At(data, offsetData) != TYPE_PLAIN
        && r.value == Wrap32(Wrap32(Int32At(data, offsetData + 4) + offsetData) + 12)
        && |data| > Wrap32(r.value + 0x1C)
  {
    if 0 <= offsetData && offsetData + 8 <= |data| {
      assert Wrap32(offsetData + 4) == offsetData + 4;
    }
  }

  /** A data offset at or past the end of the buffer is an UnexpectedCriticalError. */
  lemma DictionaryOffsetPastEnd(data: seq<byte>)
    requires 0x60 <= |data|
    ensures Wrap32(Int32At(data, 0x5C) + 0x60) >= |data| ==> DictionaryOffset(data) == Failure(UnexpectedCriticalError)
  {
    assert DataOffsetField(data) == Success(Wrap32(Int32At(data, 0x5C) + 0x60));
  }

  /** A file whose header names a plain dictionary at o is read at o. */
  lemma PlainDictionaryFound(data: seq<byte>, o: int)
    requires 0x60 <= o && o + 8 <= |data| <= INT_MAX
    requires data[0x5C..0x60] == EncodeInt32(o - 0x60)
    requires data[o..o + 4] == EncodeInt32(TYPE_PLAIN)
    ensures DictionaryOffset(data) == Success(o)
  {
    IntAtSlice(data, 0x5C, EncodeInt32(o - 0x60));
    DecodeEncodeInt32(o - 0x60);
    IntAtSlice(data, o, EncodeInt32(TYPE_PLAIN));
    DecodeEncodeInt32(TYPE_PLAIN);
    DictionaryOffsetPlain(data);
  }

  // ---------------------------------------------------------------- stream offsets

  /** What readDictionary hands on to inflation and extract. */
  datatype StreamLayout = StreamLayout(
    /** The collected offsets of the compressed streams, relative to streamsStart. */
    deflateStreams: seq<int>,
    /** The buffer position after the loop, where the first stream begins. */
    streamsStart: int,
    /** Length of the inflated word index (extract's offsetDefs). */
    offsetDefs: int,
    /** Index length plus words length (extract's offsetXml). */
    offsetXml: int)

  /**
   * The offsets the loop of readDictionary reads from pos on, given the offset read last:
   * while offset + position < limit (int addition), the next int is read and collected.
   */
  function StreamOffsets(data: seq<byte>, pos: int, offset: int, limit: int): (r: Result<seq<int>, Error>)
    requires 0 <= pos <= |data|
    ensures r.Success? ==> pos + 4 * |r.value| <= |data|
    ensures r.Failure? ==> r.error == BufferUnderflow
    decreases |data| - pos
  {
    if Wrap32(offset + pos) < limit then
      if pos + 4 > |data| then Failure(BufferUnderflow)
      else
        var next := Int32At(data, pos);
        var rest :- StreamOffsets(data, pos + 4, next, limit);
        Success([next] + rest)
    else Success([])
  }

  /** The offset the loop condition of readDictionary tests before reading number k. */
  function OffsetBefore(first: int, offsets: seq<int>, k: int): int
    requires 0 <= k <= |offsets|
  {
    if k == 0 then first else offsets[k - 1]
  }

  /**
   * Offset k of the collected ones is the int at pos + 4k, read because the loop condition held
   * for the offset before it.
   */
  lemma {:induction false} StreamOffsetAt(data: seq<byte>, pos: int, offset: int, limit: int, k: int)
    requires 0 <= pos <= |data|
    requires StreamOffsets(data, pos, offset, limit).Success?
    requires 0 <= k < |StreamOffsets(data, pos, offset, limit).value|
    ensures var offsets := StreamOffsets(data, pos, offset, limit).value;
      && offsets[k] == Int32At(data, pos + 4 * k)
      && Wrap32(OffsetBefore(offset, offsets, k) + pos + 4 * k) < limit
    decreases k
  {
    if k > 0 {
      var next := Int32At(data, pos);
      StreamOffsetAt(data, pos + 4, next, limit, k - 1);
      StreamOffsetsTail(data, pos, offset, limit);
    }
  }

  /** Past the first read, the collected offsets are those collected from the next position. */
  lemma StreamOffsetsTail(data: seq<byte>, pos: int, offset: int, limit: int)
    requires 0 <= pos <= |data|
    requires StreamOffsets(data, pos, offset, limit).Success?
    requires |StreamOffsets(data, pos, offset, limit).value| > 0
    ensures pos + 4 <= |data|
    ensures var rest := StreamOffsets(data, pos + 4, Int32At(data, pos), limit);
      && rest.Success?
      && StreamOffsets(data, pos, offset, limit).value == [Int32At(data, pos)] + rest.value
  {
  }

  /** The loop stops at the first offset for which the condition fails. */
  lemma {:induction false} StreamOffsetsEnd(data: seq<byte>, pos: int, offset: int, limit: int)
    requires 0 <= pos <= |data|
    requires StreamOffsets(data, pos, offset, limit).Success?
    ensures var offsets := StreamOffsets(data, pos, offset, limit).value;
      Wrap32(OffsetBefore(offset, offsets, |offsets|) + pos + 4 * |offsets|) >= limit
    decreases |data| - pos
  {
    var offsets := StreamOffsets(data, pos, offset, limit).value;
    if |offsets| > 0 {
      StreamOffsetsTail(data, pos, offset, limit);
      StreamOffsetsEnd(data, pos + 4, Int32At(data, pos), limit);
    }
  }

  /** The fields readDictionary reads from the header at the offset it is given. */
  datatype DataHeader = DataHeader(
    /** End of the stream offset table: the int at offsetData + 4, plus offsetData, plus 8. */
    limit: int,
    /** Position of the first offset: the compressed data header plus 8. */
    start: int,
    wordsIndexLength: int,
    wordsLength: int)

  /**
   * The absolute reads of readDictionary: the limit, the compressed data header (relative to
   * offsetData + 0x1C) and the two inflated lengths, all in int arithmetic.
   */
  function ReadDataHeader(data: seq<byte>, offsetData: int): (r: Result<DataHeader, Error>)
    ensures r.Failure? ==> r.error == IndexOutOfBounds
  {
    var limitField :- IntAt(data, Wrap32(offsetData + 4));
    var headerField :- IntAt(data, Wrap32(offsetData + 8));
    var wordsIndexLength :- IntAt(data, Wrap32(offsetData + 12));
    var wordsLength :- IntAt(data, Wrap32(offsetData + 16));
    var header := Wrap32(headerField + Wrap32(offsetData + 0x1C));
    Success(DataHeader(Wrap32(Wrap32(limitField + offsetData) + 8), Wrap32(header + 8), wordsIndexLength, wordsLength))
  }

  /**
   * readDictionary up to inflation: positions the buffer at the start of the offset table,
   * reads the first offset and collects the stream offsets.
   */
  function DictionaryLayout(data: seq<byte>, offsetData: int): (r: Result<StreamLayout, Error>)
  {
    var header :- ReadDataHeader(data, offsetData);
    var start := header.start;
    if !(0 <= start <= |data|) then Failure(IllegalArgument)
    else if start + 4 > |data| then Failure(BufferUnderflow)
    else
      var offsets :- StreamOffsets(data, start + 4, Int32At(data, start), header.limit);
      Success(StreamLayout(offsets, start + 4 + 4 * |offsets|, header.wordsIndexLength,
        Wrap32(header.wordsIndexLength + header.wordsLength)))
  }

  /** The layout names the streams read after the header, and the lengths stored in it. */
  lemma DictionaryLayoutFields(data: seq<byte>, offsetData: int)
    requires 0 <= offsetData && offsetData + 20 <= |data| <= INT_MAX
    requires DictionaryLayout(data, offsetData).Success?
    ensures var layout := DictionaryLayout(data, offsetData).value;
      && layout.offsetDefs == Int32At(data, offsetData + 12)
      && layout.offsetXml == Wrap32(Int32At(data, offsetData + 12) + Int32At(data, offsetData + 16))
      && 4 <= layout.streamsStart - 4 * |layout.deflateStreams| <= |data|
      && (forall k :: 0 <= k < |layout.deflateStreams| ==>
            layout.deflateStreams[k] == Int32At(data, layout.streamsStart - 4 * |layout.deflateStreams| + 4 * k))
  {
    assert Wrap32(offsetData + 12) == offsetData + 12 && Wrap32(offsetData + 16) == offsetData + 16;
    var header := ReadDataHeader(data, offsetData).value;
    var layout := DictionaryLayout(data, offsetData).value;
    assert layout.deflateStreams == StreamOffsets(data, header.start + 4, Int32At(data, header.start), header.limit).value;
    forall k | 0 <= k < |layout.deflateStreams|
      ensures layout.deflateStreams[k] == Int32At(data, header.start + 4 + 4 * k)
    {
      StreamOffsetAt(data, header.start + 4, Int32At(data, header.start), header.limit, k);
    }
  }

  /** Offsets collected so far, followed by what the rest of the loop collects. */
  function AppendOffsets(done: seq<int>, rest: Result<seq<int>, Error>): Result<seq<int>, Error>
  {
    if rest.Success? then Success(done + rest.value) else rest
  }

  /** One turn of the loop of readDictionary moves one offset from the rest to the collected. */
  lemma CollectStep(data: seq<byte>, pos: int, offset: int, limit: int, done: seq<int>)
    requires 0 <= pos && pos + 4 <= |data| && Wrap32(offset + pos) < limit
    ensures AppendOffsets(done, StreamOffsets(data, pos, offset, limit))
      == AppendOffsets(done + [Int32At(data, pos)], StreamOffsets(data, pos + 4, Int32At(data, pos), limit))
  {
    var rest := StreamOffsets(data, pos + 4, Int32At(data, pos), limit);
    if rest.Success? {
      assert done + ([Int32At(data, pos)] + rest.value) == done + [Int32At(data, pos)] + rest.value;
    }
  }

  /**
   * The loop of readDictionary over the buffer: `first` is the offset read after positioning
   * the buffer past the compressed data header.
   */
  method CollectStreams(buffer: ByteBuffer, first: int, limit: int) returns (r: Result<seq<int>, Error>)
    requires buffer.Valid()
    modifies buffer
    ensures buffer.Valid()
    ensures r == StreamOffsets(buffer.data, old(buffer.position), first, limit)
    ensures r.Success? ==> buffer.position == old(buffer.position) + 4 * |r.value|
  {
    ghost var start := buffer.position;
    var offset := first;
    var offsets: seq<int> := [];
    assert AppendOffsets(offsets, StreamOffsets(buffer.data, start, first, limit)) == StreamOffsets(buffer.data, start, first, limit) by {
      assert forall v: seq<int> :: offsets + v == v;
    }
    while Wrap32(offset + buffer.position) < limit
      invariant buffer.Valid() && start <= buffer.position
      invariant buffer.position == start + 4 * |offsets|
      invariant StreamOffsets(buffer.data, start, first, limit)
        == AppendOffsets(offsets, StreamOffsets(buffer.data, buffer.position, offset, limit))
      decreases |buffer.data| - buffer.position
    {
      if buffer.position + 4 <= |buffer.data| {
        CollectStep(buffer.data, buffer.position, offset, limit, offsets);
      }
      var next := buffer.GetInt();
      if next.Failure? {
        assert StreamOffsets(buffer.data, buffer.position, offset, limit) == Failure(BufferUnderflow);
        return Failure(next.error);
      }
      offset := next.value;
      offsets := offsets + [offset];
    }
    assert StreamOffsets(buffer.data, buffer.position, offset, limit) == Success([]);
    assert offsets + [] == offsets;
    r := Success(offsets);
  }

  /** readDictionary over the buffer, up to the inflation of the streams. */
  method ReadDictionaryLayout(buffer: ByteBuffer, offsetData: int) returns (r: Result<StreamLayout, Error>)
    requires buffer.Valid()
    modifies buffer
    ensures buffer.Valid()
    ensures r == DictionaryLayout(buffer.data, offsetData)
    ensures r.Success? ==> buffer.position == r.value.streamsStart
  {
    var header :- ReadDataHeader(buffer.data, offsetData);
    var moved := buffer.SetPosition(header.start);
    if moved.Failure? {
      return Failure(moved.error);
    }
    var first :- buffer.GetInt();
    var offsets :- CollectStreams(buffer, first, header.limit);
    r := Success(StreamLayout(offsets, buffer.position, header.wordsIndexLength,
      Wrap32(header.wordsIndexLength + header.wordsLength)));
  }

  // ---------------------------------------------------------------- definitions

  /** Java's int division by ten (truncating toward zero). */
  function DivTen(a: int): (r: int)
    ensures a >= 0 ==> 10 * r <= a < 10 * r + 10
    ensures a < 0 ==> 10 * r - 10 < a <= 10 * r
  {
    if a >= 0 then a / 10 else -((-a) / 10)
  }

  /** extract's defTotal: the index length over the record size 10, minus one. */
  function DefinitionCount(offsetDefs: int): (r: int)
    ensures offsetDefs < 20 ==> r <= 0
    ensures offsetDefs >= 0 ==> 10 * r + 10 <= offsetDefs < 10 * r + 20
  {
    DivTen(offsetDefs) - 1
  }

  /**
   * The map extract has built after the first `count` definitions: each decoded (word, value)
   * is trimmed on both sides and put, so a later duplicate word overwrites an earlier one. The
   * first failing read ends extract with its exception.
   */
  function Definitions(count: int, read: int -> Result<(string, string), Error>): Result<map<string, string>, Error>
    decreases count
  {
    if count <= 0 then Success(map[])
    else
      var m :- Definitions(count - 1, read);
      var d :- read(count - 1);
      Success(m[Trim(d.0) := Trim(d.1)])
  }

  /** The loop of extract, from the definition count on. */
  method Extract(offsetDefs: int, read: int -> Result<(string, string), Error>) returns (r: Result<map<string, string>, Error>)
    ensures r == Definitions(DefinitionCount(offsetDefs), read)
  {
    var defTotal := DefinitionCount(offsetDefs);
    var definitions: map<string, string> := map[];
    var i := 0;
    while i < defTotal
      invariant 0 <= i <= (if defTotal > 0 then defTotal else 0)
      invariant Definitions(i, read) == Success(definitions)
    {
      var defData := read(i);
      if defData.Failure? {
        assert Definitions(i + 1, read) == Failure(defData.error);
        DefinitionsFailAfter(i + 1, defTotal, read);
        return Failure(defData.error);
      }
      var word := Trim(defData.value.0);
      var value := Trim(defData.value.1);
      DefinitionsStep(i + 1, read);
      definitions := definitions[word := value];
      i := i + 1;
    }
    if defTotal <= 0 {
      assert Definitions(defTotal, read) == Success(map[]);
    }
    r := Success(definitions);
  }

  /** A failure among the first reads stays the result once more definitions are read. */
  lemma {:induction false} DefinitionsFailAfter(i: int, n: int, read: int -> Result<(string, string), Error>)
    requires 0 < i <= n && Definitions(i, read).Failure?
    ensures Definitions(n, read) == Definitions(i, read)
    decreases n - i
  {
    if i < n {
      DefinitionsFailAfter(i, n - 1, read);
    }
  }

  /** The trimmed word of definition j. */
  function WordAt(read: int -> Result<(string, string), Error>, j: int): string
    requires read(j).Success?
  {
    Trim(read(j).value.0)
  }

  /** The trimmed value of definition j. */
  function ValueAt(read: int -> Result<(string, string), Error>, j: int): string
    requires read(j).Success?
  {
    Trim(read(j).value.1)
  }

  /** The trimmed words of the first `count` definitions. */
  function WordsRead(count: int, read: int -> Result<(string, string), Error>): set<string>
    requires forall j :: 0 <= j < count ==> read(j).Success?
  {
    set j | 0 <= j < count :: WordAt(read, j)
  }

  lemma WordsReadSnoc(count: int, read: int -> Result<(string, string), Error>)
    requires count > 0
    requires forall j :: 0 <= j < count ==> read(j).Success?
    ensures WordsRead(count, read) == WordsRead(count - 1, read) + {WordAt(read, count - 1)}
  {
  }

  /** One more definition read puts its trimmed word and value. */
  lemma DefinitionsStep(count: int, read: int -> Result<(string, string), Error>)
    requires count > 0 && Definitions(count - 1, read).Success? && read(count - 1).Success?
    ensures Definitions(count, read)
      == Success(Definitions(count - 1, read).value[WordAt(read, count - 1) := ValueAt(read, count - 1)])
  {
  }

  /** extract succeeds exactly when every read does. */
  lemma {:induction false} DefinitionsSucceed(count: int, read: int -> Result<(string, string), Error>)
    ensures Definitions(count, read).Success? <==> forall j :: 0 <= j < count ==> read(j).Success?
    decreases count
  {
    if count > 0 {
      DefinitionsSucceed(count - 1, read);
    }
  }

  /** A failing extract fails with the exception of its first failing read. */
  lemma {:induction false} FirstFailure(count: int, read: int -> Result<(string, string), Error>) returns (j: int)
    requires Definitions(count, read).Failure?
    ensures 0 <= j < count && read(j) == Failure(Definitions(count, read).error)
    ensures forall k :: 0 <= k < j ==> read(k).Success?
    decreases count
  {
    if Definitions(count - 1, read).Failure? {
      j := FirstFailure(count - 1, read);
    } else {
      DefinitionsSucceed(count - 1, read);
      j := count - 1;
    }
  }

  /** The keys are the trimmed words of all definitions read. */
  lemma {:induction false} DefinitionsKeys(count: int, read: int -> Result<(string, string), Error>)
    requires forall j :: 0 <= j < count ==> read(j).Success?
    ensures Definitions(count, read).Success?
    ensures Definitions(count, read).value.Keys == WordsRead(count, read)
    decreases count
  {
    if count > 0 {
      DefinitionsKeys(count - 1, read);
      DefinitionsStep(count, read);
      WordsReadSnoc(count, read);
    }
  }

  /** A word's value is the trimmed value of its last definition. */
  lemma {:induction false} LaterDefinitionWins(count: int, read: int -> Result<(string, string), Error>, i: int)
    requires forall j :: 0 <= j < count ==> read(j).Success?
    requires 0 <= i < count
    requires forall j :: i < j < count ==> WordAt(read, j) != WordAt(read, i)
    ensures Definitions(count, read).Success? && WordAt(read, i) in Definitions(count, read).value
    ensures Definitions(count, read).value[WordAt(read, i)] == ValueAt(read, i)
    decreases count
  {
    DefinitionsSucceed(count - 1, read);
    DefinitionsStep(count, read);
    if i < count - 1 {
      LaterDefinitionWins(count - 1, read, i);
    }
  }

  // ---------------------------------------------------------------- strip

  const CDATA_OPEN: string := "<![CDATA["
  const CDATA_CLOSE: string := "]]>"
  const ELEMENT_OPEN: string := "<Ô"
  const ELEMENT_CLOSE: string := "</Ô"
  /** Helper.EMPTY_STRING. */
  const EMPTY_STRING: string := ""

  /** The characters every branch of strip turns into spaces. */
  predicate IsBlankedChar(c: char, sep: char) {
    c == '\t' || c == sep || c == '\U{1E}' || c == '\U{1F}'
  }

  /** No tab, separator, U+001E or U+001F is left (unless the separator is a space itself). */
  predicate IsBlanked(s: string, sep: char) {
    forall i :: 0 <= i < |s| ==> !IsBlankedChar(s[i], sep) || s[i] == ' '
  }

  /** The chain of replace calls that ends every branch of strip. */
  function Blank(s: string, sep: char): (r: string)
    ensures |r| == |s| && IsBlanked(r, sep)
    ensures forall i :: 0 <= i < |s| ==> r[i] == if IsBlankedChar(s[i], sep) then ' ' else s[i]
  {
    ReplaceChar(ReplaceChar(ReplaceChar(ReplaceChar(s, '\t', ' '), sep, ' '), '\U{1E}', ' '), '\U{1F}', ' ')
  }

  /** String.substring(b, e): StringIndexOutOfBoundsException unless 0 <= b <= e <= length. */
  function Substring(s: string, b: int, e: int): (r: Result<string, Error>)
    ensures r.Success? <==> 0 <= b <= e <= |s|
    ensures r.Success? ==> r.value == s[b..e]
    ensures r.Failure? ==> r.error == IndexOutOfBounds
  {
    if 0 <= b <= e <= |s| then Success(s[b..e]) else Failure(IndexOutOfBounds)
  }

  /** The text between end + 1 and open, when there is any. */
  function Gap(xml: string, open: int, end: int): string
    requires -1 <= open <= |xml| && 0 <= end <= |xml|
  {
    if open - end > 1 then xml[end + 1..open] else ""
  }

  /**
   * The text the do-while loop of strip appends from a state (open, end) on: the gap, then the
   * next '<' after open and the next '>' after end are looked up, and the loop goes on while
   * both exist.
   */
  function TagGaps(xml: string, open: int, end: int): string
    requires -1 <= open <= |xml| && 0 <= end <= |xml|
    decreases |xml| - end
  {
    var nextOpen := IndexOfFrom(xml, "<", open + 1);
    var nextEnd := IndexOfFrom(xml, ">", end + 1);
    if nextOpen != -1 && nextEnd != -1 then Gap(xml, open, end) + TagGaps(xml, nextOpen, nextEnd)
    else Gap(xml, open, end)
  }

  /** One turn of the do-while loop of strip keeps what is appended plus what is to come. */
  lemma TagGapsTurn(xml: string, open: int, end: int, before: string, sb: string, nextOpen: int, nextEnd: int, all: string)
    requires -1 <= open <= |xml| && 0 <= end <= |xml|
    requires before + TagGaps(xml, open, end) == all
    requires sb == before + Gap(xml, open, end)
    requires nextOpen == IndexOfFrom(xml, "<", open + 1) && nextEnd == IndexOfFrom(xml, ">", end + 1)
    ensures nextOpen != -1 && nextEnd != -1 ==>
      0 <= nextOpen <= |xml| && end < nextEnd <= |xml| && sb + TagGaps(xml, nextOpen, nextEnd) == all
    ensures nextOpen == -1 || nextEnd == -1 ==> sb == all
  {
    if nextOpen != -1 && nextEnd != -1 {
      assert TagGaps(xml, open, end) == Gap(xml, open, end) + TagGaps(xml, nextOpen, nextEnd);
    }
  }

  /**
   * strip: the text inside the first CDATA section, or inside the first `<Ô` element, or else
   * the text between tags; then Blank. A CDATA or `<Ô` element without its terminator gives
   * the empty string.
   */
  function Stripped(xml: string, sep: char): Result<string, Error>
  {
    var open := IndexOf(xml, CDATA_OPEN);
    if open != -1 then
      var end := IndexOfFrom(xml, CDATA_CLOSE, open);
      if end == -1 then Success(EMPTY_STRING)
      else
        var text :- Substring(xml, open + |CDATA_OPEN|, end);
        Success(Blank(text, sep))
    else
      var elementOpen := IndexOf(xml, ELEMENT_OPEN);
      if elementOpen != -1 then ElementText(xml, sep, elementOpen)
      else Success(Blank(TagGaps(xml, IndexOf(xml, "<"), 0), sep))
  }

  /** The element branch of strip: the text from the end of the opening tag to the closing tag. */
  function ElementText(xml: string, sep: char, elementOpen: int): Result<string, Error>
  {
    var end := IndexOfFrom(xml, ELEMENT_CLOSE, elementOpen);
    if end == -1 then Success(EMPTY_STRING)
    else
      var tagEnd := IndexOfFrom(xml, ">", elementOpen + 1);
      var text :- Substring(xml, tagEnd + 1, end);
      Success(Blank(text, sep))
  }

  /** The element branch of strip, from the position of the opening tag. */
  method StripElement(xml: string, sep: char, elementOpen: int) returns (r: Result<string, Error>)
    ensures r == ElementText(xml, sep, elementOpen)
  {
    var end := IndexOfFrom(xml, ELEMENT_CLOSE, elementOpen);
    if end == -1 {
      return Success(EMPTY_STRING);
    }
    var open := IndexOfFrom(xml, ">", elementOpen + 1);
    var text :- Substring(xml, open + 1, end);
    return Success(Blank(text, sep));
  }

  /** The body of the do-while loop of strip: the text between the tag end and the next '<', if any. */
  method AppendGap(sb: string, xml: string, open: int, end: int) returns (r: string)
    requires -1 <= open <= |xml| && 0 <= end <= |xml|
    ensures r == sb + Gap(xml, open, end)
  {
    r := sb;
    if open - end > 1 {
      r := r + xml[end + 1..open];
    }
  }

  /** Whatever strip returns holds no tab, separator, U+001E or U+001F. */
  lemma StrippedIsBlanked(xml: string, sep: char)
    ensures Stripped(xml, sep).Success? ==> IsBlanked(Stripped(xml, sep).value, sep)
  {
  }

  /**
   * One turn of the do-while loop of strip: append the gap, then look up the next '<' and the
   * next '>'. What is appended plus what is still to come stays the same.
   */
  method StripTurn(xml: string, sb: string, open: int, end: int, ghost all: string)
    returns (sb': string, open': int, end': int)
    requires -1 <= open <= |xml| && 0 <= end <= |xml|
    requires sb + TagGaps(xml, open, end) == all
    ensures open' != -1 && end' != -1 ==>
      && 0 <= open' <= |xml| && end < end' <= |xml| && sb' + TagGaps(xml, open', end') == all
    ensures open' == -1 || end' == -1 ==> sb' == all
  {
    sb' := AppendGap(sb, xml, open, end);
    open' := IndexOfFrom(xml, "<", open + 1);
    end' := IndexOfFrom(xml, ">", end + 1);
    TagGapsTurn(xml, open, end, sb, sb', open', end', all);
  }

  /** The do-while loop of strip, appending to a builder. */
  method StripTags(xml: string, first: int) returns (text: string)
    requires -1 <= first <= |xml|
    ensures text == TagGaps(xml, first, 0)
  {
    ghost var all := TagGaps(xml, first, 0);
    var sb := "";
    var end := 0;
    var open := first;
    while true
      invariant -1 <= open <= |xml| && 0 <= end <= |xml|
      invariant sb + TagGaps(xml, open, end) == all
      decreases |xml| - end
    {
      sb, open, end := StripTurn(xml, sb, open, end, all);
      if open == -1 || end == -1 {
        break;
      }
    }
    text := sb;
  }

  /** strip. */
  method Strip(xml: string, sep: char) returns (r: Result<string, Error>)
    ensures r == Stripped(xml, sep)
  {
    var open := IndexOf(xml, CDATA_OPEN);
    if open != -1 {
      var end := IndexOfFrom(xml, CDATA_CLOSE, open);
      if end != -1 {
        var text :- Substring(xml, open + |CDATA_OPEN|, end);
        return Success(Blank(text, sep));
      }
    } else {
      open := IndexOf(xml, ELEMENT_OPEN);
      if open != -1 {
        r := StripElement(xml, sep, open);
        return;
      } else {
        open := IndexOf(xml, "<");
        var text := StripTags(xml, open);
        return Success(Blank(text, sep));
      }
    }
    r := Success(EMPTY_STRING);
  }

  /** The first `]]>` after `<![CDATA[` lies past its last character. */
  lemma CDataCloseAfterOpen(xml: string, open: int, end: int)
    requires OccursAt(xml, CDATA_OPEN, open) && OccursAt(xml, CDATA_CLOSE, end) && open <= end
    ensures open + |CDATA_OPEN| <= end
  {
    assert xml[end] == CDATA_CLOSE[0];
    forall k | open <= k < open + |CDATA_OPEN|
      ensures xml[k] != CDATA_CLOSE[0]
    {
      assert xml[k] == CDATA_OPEN[k - open];
    }
  }

  /** The text up to the first occurrence of t from `from` on holds no t. */
  lemma BeforeFirstOccurrence(xml: string, t: string, from: int, start: int)
    requires |t| > 0 && 0 <= from <= start && IndexOfFrom(xml, t, from) >= start
    ensures !Contains(xml[start..IndexOfFrom(xml, t, from)], t)
  {
    var end := IndexOfFrom(xml, t, from);
    var text := xml[start..end];
    forall j | 0 <= j <= |text|
      ensures !OccursAt(text, t, j)
    {
      if j + |t| <= |text| {
        assert from <= start + j < end;
        assert !OccursAt(xml, t, start + j);
        var inXml, inText := xml[start + j..start + j + |t|], text[j..j + |t|];
        forall k | 0 <= k < |t|
          ensures inXml[k] == inText[k]
        {
          assert text[j + k] == xml[start + j + k];
        }
        assert inXml == inText;
      }
    }
  }

  /** A `<![CDATA[` occurrence and a later `]]>` occurrence frame the text between them. */
  lemma CDataSection(xml: string, open: int, end: int)
    requires OccursAt(xml, CDATA_OPEN, open) && OccursAt(xml, CDATA_CLOSE, end) && open <= end
    ensures open + |CDATA_OPEN| <= end
    ensures OccursAt(xml, CDATA_OPEN + xml[open + |CDATA_OPEN|..end] + CDATA_CLOSE, open)
  {
    CDataCloseAfterOpen(xml, open, end);
    var start := open + |CDATA_OPEN|;
    assert xml[open..end + 3] == xml[open..start] + xml[start..end] + xml[end..end + 3];
  }

  /**
   * With a CDATA section: the result is the blanked text between `<![CDATA[` and the first `]]>`
   * after it, and that text holds no `]]>`.
   */
  lemma StripCData(xml: string, sep: char) returns (text: string)
    requires Contains(xml, CDATA_OPEN) && IndexOfFrom(xml, CDATA_CLOSE, IndexOf(xml, CDATA_OPEN)) != -1
    ensures Stripped(xml, sep) == Success(Blank(text, sep))
    ensures OccursAt(xml, CDATA_OPEN + text + CDATA_CLOSE, IndexOf(xml, CDATA_OPEN))
    ensures !Contains(text, CDATA_CLOSE)
  {
    var open := IndexOf(xml, CDATA_OPEN);
    var end := IndexOfFrom(xml, CDATA_CLOSE, open);
    CDataSection(xml, open, end);
    text := xml[open + |CDATA_OPEN|..end];
    BeforeFirstOccurrence(xml, CDATA_CLOSE, open, open + |CDATA_OPEN|);
  }

  /** A CDATA section or `<Ô` element without its terminator gives the empty string. */
  lemma StripUnterminated(xml: string, sep: char)
    requires || (Contains(xml, CDATA_OPEN) && IndexOfFrom(xml, CDATA_CLOSE, IndexOf(xml, CDATA_OPEN)) == -1)
             || (!Contains(xml, CDATA_OPEN) && Contains(xml, ELEMENT_OPEN)
                 && IndexOfFrom(xml, ELEMENT_CLOSE, IndexOf(xml, ELEMENT_OPEN)) == -1)
    ensures Stripped(xml, sep) == Success("")
  {
  }

  /** A text without '<' holds nothing that starts with '<'. */
  lemma NoTagStart(xml: string, t: string)
    requires !Contains(xml, "<") && |t| > 0 && t[0] == '<'
    ensures !Contains(xml, t)
  {
    forall j | 0 <= j <= |xml|
      ensures !OccursAt(xml, t, j)
    {
      assert !OccursAt(xml, "<", j);
      if j + |t| <= |xml| {
        assert xml[j..j + 1] != "<";
        assert xml[j..j + |t|][0] == xml[j];
      }
    }
  }

  /** Text without any '<' has no tag to strip around and gives the empty string. */
  lemma StripWithoutTags(xml: string, sep: char)
    requires !Contains(xml, "<")
    ensures Stripped(xml, sep) == Success("")
  {
    NoTagStart(xml, CDATA_OPEN);
    NoTagStart(xml, ELEMENT_OPEN);
    assert IndexOfFrom(xml, "<", 0) == -1;
    assert TagGaps(xml, -1, 0) == "";
  }

  /**
   * A `<Ô` element whose opening tag is not closed before `</Ô` makes strip fail: the text
   * would have to start after the end it ends at.
   */
  lemma StripUnclosedElementTag(sep: char)
    ensures Stripped("<Ô</Ô>", sep) == Failure(IndexOutOfBounds)
  {
    var xml := "<Ô</Ô>";
    assert IndexOf(xml, CDATA_OPEN) == -1;
    assert IndexOf(xml, ELEMENT_OPEN) == 0;
    assert IndexOfFrom(xml, ELEMENT_CLOSE, 2) == 2;
    assert xml[1..4][0] != ELEMENT_CLOSE[0];
    assert IndexOfFrom(xml, ELEMENT_CLOSE, 1) == 2;
    assert xml[0..3][1] != ELEMENT_CLOSE[1];
    assert IndexOfFrom(xml, ELEMENT_CLOSE, 0) == 2;
    assert IndexOfFrom(xml, ">", 5) == 5;
    assert xml[4..5][0] != '>';
    assert IndexOfFrom(xml, ">", 4) == 5;
    assert xml[3..4][0] != '>';
    assert IndexOfFrom(xml, ">", 3) == 5;
    assert xml[2..3][0] != '>';
    assert IndexOfFrom(xml, ">", 2) == 5;
    assert xml[1..2][0] != '>';
    assert IndexOfFrom(xml, ">", 1) == 5;
  }

  // ---------------------------------------------------------------- the whole reader

  /**
   * extractLd2ToMap up to inflation: the offset the header points at, then the layout read
   * there.
   */
  function Ld2Layout(data: seq<byte>): (r: Result<StreamLayout, Error>)
    ensures |data| < 0x60 ==> r == Failure(IndexOutOfBounds)
  {
    var offsetData :- DictionaryOffset(data);
    DictionaryLayout(data, offsetData)
  }

  /** extractLd2ToMap over a freshly read buffer, up to inflation. */
  method ExtractLayout(buffer: ByteBuffer) returns (r: Result<StreamLayout, Error>)
    requires buffer.Valid()
    modifies buffer
    ensures r == Ld2Layout(buffer.data)
  {
    var offsetData :- DictionaryOffset(buffer.data);
    r := ReadDictionaryLayout(buffer, offsetData);
  }
}
