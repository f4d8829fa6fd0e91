/** The TSCB binary layout of NoSpherA2 (`TSCBFile.from_file` and
    `TSCBFile.to_file`), over the bytes of the file:

      int32 header-block length, int32 label length,
      the header block (ASCII), the labels (ASCII),
      int32 record count,
      per record: three int32 Miller indices, then one 16-byte complex128 per
      scatterer.

    Integers are little-endian. */
module Tscb {
  import opened Common
  import opened Text
  import opened TscHeader
  import opened TscModel

  // ---------------------------------------------------------------------------
  // Records
  // ---------------------------------------------------------------------------

  /** The bytes of one record holding n form factors. */
  function RecordSize(n: nat): nat {
    12 + 16 * n
  }

  /** `f0js.tobytes()`: the raw bytes of a row of form factors. */
  function Flatten(row: Row): (b: seq<Byte>)
    ensures |b| == 16 * |row|
  {
    if row == [] then [] else row[0] + Flatten(row[1..])
  }

  /** `np.frombuffer(b, dtype=np.complex128)`: consecutive 16-byte blocks. */
  function Chunks(b: seq<Byte>): (row: Row)
    requires |b| % 16 == 0
    ensures 16 * |row| == |b|
  {
    if b == [] then [] else [b[..16]] + Chunks(b[16..])
  }

  lemma {:induction false} ChunksFlatten(row: Row)
    ensures Chunks(Flatten(row)) == row
  {
    if row != [] {
      var b := Flatten(row);
      assert b[..16] == row[0] && b[16..] == Flatten(row[1..]);
      ChunksFlatten(row[1..]);
    }
  }

  predicate HklInInt32(hkl: Hkl) {
    InInt32(hkl.0) && InInt32(hkl.1) && InInt32(hkl.2)
  }

  /** `struct.pack("3i", *hkl) + f0js.tobytes()`. */
  function RecordBytes(hkl: Hkl, row: Row): (b: seq<Byte>)
    requires HklInInt32(hkl)
    ensures |b| == RecordSize(|row|)
  {
    Int32Le(hkl.0) + Int32Le(hkl.1) + Int32Le(hkl.2) + Flatten(row)
  }

  /** One record read back: the Miller indices, then the form factors. */
  function DecodeRecord(b: seq<Byte>, n: nat): (r: (Hkl, Row))
    requires |b| == RecordSize(n)
    ensures HklInInt32(r.0) && |r.1| == n
  {
    ((Int32Of(b[0..4]), Int32Of(b[4..8]), Int32Of(b[8..12])), Chunks(b[12..]))
  }

  lemma RecordRoundTrip(hkl: Hkl, row: Row)
    requires HklInInt32(hkl)
    ensures DecodeRecord(RecordBytes(hkl, row), |row|) == (hkl, row)
  {
    var b := RecordBytes(hkl, row);
    assert b[0..4] == Int32Le(hkl.0);
    assert b[4..8] == Int32Le(hkl.1);
    assert b[8..12] == Int32Le(hkl.2);
    assert b[12..] == Flatten(row);
    ChunksFlatten(row);
  }

  predicate IndicesInInt32(data: Data) {
    forall i :: 0 <= i < |data| ==> HklInInt32(data[i].0)
  }

  /** The record bytes of all rows in order. */
  function RecordsBytes(data: Data): (b: seq<Byte>)
    requires IndicesInInt32(data)
    ensures |b| == RecordsSize(data)
  {
    if data == [] then [] else RecordBytes(data[0].0, data[0].1) + RecordsBytes(data[1..])
  }

  /** Σ (12 + 16·|row|) over the rows. */
  function RecordsSize(data: Data): nat {
    if data == [] then 0 else RecordSize(|data[0].1|) + RecordsSize(data[1..])
  }

  /** The bytes taken by `count` records of `size` bytes each. */
  function Span(count: nat, size: nat): (total: nat)
    ensures count > 0 ==> total >= size
  {
    if count == 0 then 0 else size + Span(count - 1, size)
  }

  /** Reading `count` records of n form factors from the front of b; a record
      the bytes run out in the middle of fails. */
  function DecodeRecords(b: seq<Byte>, count: nat, n: nat): (r: Result<Data, DecodeError>)
    ensures r.Ok? ==> |r.value| == count && Span(count, RecordSize(n)) <= |b|
    ensures r.Ok? ==> forall i :: 0 <= i < count ==> |r.value[i].1| == n && HklInInt32(r.value[i].0)
    ensures r.Err? ==> r.error == ShortRecord && Span(count, RecordSize(n)) > |b|
  {
    if count == 0 then Ok([])
    else if |b| < RecordSize(n) then Err(ShortRecord)
    else
      var rest := DecodeRecords(b[RecordSize(n)..], count - 1, n);
      if rest.Err? then Err(rest.error)
      else
        var records := [DecodeRecord(b[..RecordSize(n)], n)] + rest.value;
        assert forall i :: 1 <= i < count ==> records[i] == rest.value[i - 1];
        Ok(records)
  }

  /** Rows of n form factors are read back as written, whatever follows them. */
  lemma {:induction false} RecordsRoundTrip(data: Data, n: nat, trailing: seq<Byte>)
    requires IndicesInInt32(data)
    requires forall i :: 0 <= i < |data| ==> |data[i].1| == n
    ensures DecodeRecords(RecordsBytes(data) + trailing, |data|, n) == Ok(data)
  {
    if data != [] {
      var hkl, row := data[0].0, data[0].1;
      assert |row| == n && data[0] == (hkl, row);
      var first := RecordBytes(hkl, row);
      var more := RecordsBytes(data[1..]) + trailing;
      var b := RecordsBytes(data) + trailing;
      assert b == first + more;
      FrontAndBack(first, more);
      assert b[..RecordSize(n)] == first && b[RecordSize(n)..] == more;
      RecordsRoundTrip(data[1..], n, trailing);
      RecordRoundTrip(hkl, row);
      RecordsStep(b, |data|, n, data[0], data[1..]);
      HeadTail(data);
    }
  }

  /** The two parts of a concatenation, taken apart again. */
  lemma FrontAndBack(front: seq<Byte>, back: seq<Byte>)
    ensures (front + back)[..|front|] == front && (front + back)[|front|..] == back
  {
  }

  /** Reading records: the first record, then the rest after it. */
  lemma RecordsStep(b: seq<Byte>, count: nat, n: nat, first: (Hkl, Row), rest: Data)
    requires count > 0 && |b| >= RecordSize(n)
    requires DecodeRecord(b[..RecordSize(n)], n) == first
    requires DecodeRecords(b[RecordSize(n)..], count - 1, n) == Ok(rest)
    ensures DecodeRecords(b, count, n) == Ok([first] + rest)
  {
  }

  // ---------------------------------------------------------------------------
  // Decoding: `TSCBFile.from_file`
  // ---------------------------------------------------------------------------

  datatype DecodeError =
    | StructError              // struct.unpack got fewer bytes than it needs
    | UnicodeError             // bytes.decode("ASCII") met a byte >= 128
    | BadHeader(e: HeaderError)  // parse_header refused the header block
    | ShortRecord              // a record cut short by the end of the file
    | BadReadLength            // read(n) with n < -1: "read length must be non-negative or -1"

  /** `fobj.read(n)` at offset pos on a buffered binary file: at most n
      bytes, fewer at the end of the file; -1 reads to the end, and a length
      below -1 is refused with a ValueError. */
  function ReadAt(f: seq<Byte>, pos: nat, n: int): (r: Result<seq<Byte>, DecodeError>)
    requires pos <= |f|
    ensures r.Err? <==> n < -1
    ensures r.Err? ==> r.error == BadReadLength
    ensures r.Ok? ==> pos + |r.value| <= |f| && r.value == f[pos..pos + |r.value|]
    ensures n >= 0 && pos + n <= |f| ==> r.Ok? && |r.value| == n
    ensures n == -1 || pos + n > |f| >= pos ==> r.Ok? && |r.value| == |f| - pos
  {
    if n < -1 then Err(BadReadLength)
    else if n == -1 || pos + n > |f| then Ok(f[pos..])
    else Ok(f[pos..pos + n])
  }

  /** The header after the optional header block, and the offset after it.
      A non-positive size skips the block and keeps the default header. */
  function DecodeHeaderBlock(f: seq<Byte>, size: int): (r: Result<(Header, nat), DecodeError>)
    requires |f| >= 8
    ensures r.Ok? ==> 8 <= r.value.1 <= |f| && DistinctKeys(r.value.0)
    ensures size <= 0 ==> r == Ok((DefaultHeader, 8))
  {
    DefaultHeaderDistinct();
    if size <= 0 then Ok((DefaultHeader, 8))
    else DecodeBlockText(ReadAt(f, 8, size).value)
  }

  /** The bytes of a header block: ASCII text the header grammar accepts,
      whose entries are assigned over the defaults. */
  function DecodeBlockText(hb: seq<Byte>): (r: Result<(Header, nat), DecodeError>)
    ensures r.Ok? ==> r.value.1 == 8 + |hb| && DistinctKeys(r.value.0)
  {
    DefaultHeaderDistinct();
    match AsciiDecode(hb)
    case None => Err(UnicodeError)
    case Some(text) =>
      match ParseHeader(text)
      case Err(e) => Err(BadHeader(e))
      case Ok(fields) => Ok((PutAll(DefaultHeader, fields), 8 + |hb|))
  }

  /** `TSCBFile.from_file`, on the bytes of the file.  Bytes after the last
      record are ignored; a negative record count reads no record. */
  function DecodeTscb(f: seq<Byte>): (r: Result<Table, DecodeError>)
    ensures |f| < 8 ==> r == Err(StructError)
    ensures r.Ok? ==> HasKey(r.value.header, ScatterersKey)
    ensures r.Ok? ==> DistinctKeys(r.value.header) && DistinctKeys(r.value.data)
    ensures r.Ok? ==> forall i :: 0 <= i < |r.value.data| ==> |r.value.data[i].1| == |Scatterers(r.value.header)|
  {
    if |f| < 8 then Err(StructError)
    else
      match DecodeHeaderBlock(f, Int32Of(f[0..4]))
      case Err(e) => Err(e)
      case Ok(hp) => DecodeLabels(f, hp.0, hp.1, Int32Of(f[4..8]))
  }

  /** The labels after the header block: they become the SCATTERERS entry,
      whose words give the number of form factors per record. */
  function DecodeLabels(f: seq<Byte>, header: Header, pos: nat, size: int): (r: Result<Table, DecodeError>)
    requires pos <= |f| && DistinctKeys(header)
    ensures r.Ok? ==> HasKey(r.value.header, ScatterersKey)
    ensures r.Ok? ==> DistinctKeys(r.value.header) && DistinctKeys(r.value.data)
    ensures r.Ok? ==> forall i :: 0 <= i < |r.value.data| ==> |r.value.data[i].1| == |Scatterers(r.value.header)|
    ensures r == Err(BadReadLength) <==> size < -1
  {
    match ReadAt(f, pos, size)
    case Err(e) => Err(e)
    case Ok(lb) =>
    match AsciiDecode(lb)
    case None => Err(UnicodeError)
    case Some(labels) => WithLabels(f[pos + |lb|..], header, labels)
  }

  /** The labels assigned to SCATTERERS, then the count and the records
      after them, each record holding one form factor per label. */
  function WithLabels(rest: seq<Byte>, header: Header, labels: string): (r: Result<Table, DecodeError>)
    requires DistinctKeys(header)
    ensures r.Ok? ==> HasKey(r.value.header, ScatterersKey)
    ensures r.Ok? ==> DistinctKeys(r.value.header) && DistinctKeys(r.value.data)
    ensures r.Ok? ==> forall i :: 0 <= i < |r.value.data| ==> |r.value.data[i].1| == |Scatterers(r.value.header)|
    ensures r.Err? ==> r.error != BadReadLength
  {
    var header' := Put(header, ScatterersKey, labels);
    GetPut(header, ScatterersKey, labels, ScatterersKey);
    WordsOfStrip(labels);
    DecodeCount(rest, header', |Words(labels)|)
  }

  /** A label length below -1 makes the read of the labels raise, whatever
      follows it; -1 is the one negative length that reads to the end. */
  lemma LabelLengthRefused(f: seq<Byte>)
    requires |f| >= 8 && DecodeHeaderBlock(f, Int32Of(f[0..4])).Ok?
    ensures Int32Of(f[4..8]) < -1 ==> DecodeTscb(f) == Err(BadReadLength)
    ensures Int32Of(f[4..8]) >= -1 ==> DecodeTscb(f) != Err(BadReadLength)
  {
    var hp := DecodeHeaderBlock(f, Int32Of(f[0..4])).value;
    assert DecodeTscb(f) == DecodeLabels(f, hp.0, hp.1, Int32Of(f[4..8]));
  }

  /** A file without a header block whose label length is FE FF FF FF (-2)
      raises at the read of the labels, whatever bytes follow. */
  lemma LabelLengthMinusTwo(rest: seq<Byte>)
    ensures DecodeTscb([0, 0, 0, 0, 0xFE, 0xFF, 0xFF, 0xFF] + rest) == Err(BadReadLength)
  {
    var f := [0, 0, 0, 0, 0xFE, 0xFF, 0xFF, 0xFF] + rest;
    assert f[0..4] == [0, 0, 0, 0];
    assert f[4..8] == [0xFE, 0xFF, 0xFF, 0xFF];
    LabelLengthRefused(f);
  }

  /** The record count and the records. */
  function DecodeCount(rest: seq<Byte>, header: Header, n: nat): (r: Result<Table, DecodeError>)
    ensures r.Ok? ==> r.value.header == header && DistinctKeys(r.value.data)
    ensures r.Ok? ==> forall i :: 0 <= i < |r.value.data| ==> |r.value.data[i].1| == n
    ensures r.Err? ==> r.error in {StructError, ShortRecord}
  {
    if |rest| < 4 then Err(StructError)
    else
      var count := Int32Of(rest[..4]);
      match DecodeRecords(rest[4..], if count < 0 then 0 else count, n)
      case Err(e) => Err(e)
      case Ok(records) =>
        var data := PutAll([], records);
        PutAllPairs([], records);
        assert forall i :: 0 <= i < |data| ==> data[i] in records;
        assert forall p :: p in records ==> |p.1| == n;
        Ok(Table(header, data))
  }

  /** Stripping does not change the words of a text. */
  lemma WordsOfStrip(s: string)
    ensures Words(Strip(s)) == Words(s)
  {
    WordsOfTrimStart(s);
    WordsOfTrimEnd(TrimStart(s, IsSpace));
  }

  lemma WordsOfTrimStart(s: string)
    ensures Words(TrimStart(s, IsSpace)) == Words(s)
  {
    var t := TrimStart(s, IsSpace);
    var lead := s[..|s| - |t|];
    assert lead + t == s;
    WordsSkipSpace(lead, t);
  }

  lemma WordsOfTrimEnd(t: string)
    ensures Words(TrimEnd(t, IsSpace)) == Words(t)
  {
    var u := TrimEnd(t, IsSpace);
    var trail := t[|u|..];
    assert u + trail == t;
    WordsTrailingSpace(u, trail);
  }

  /** Whitespace at the end adds no word. */
  lemma {:induction false} WordsTrailingSpace(a: string, b: string)
    requires forall i :: 0 <= i < |b| ==> IsSpace(b[i])
    ensures Words(a + b) == Words(a)
    decreases |a|
  {
    if a == [] {
      assert a + b == b + [];
      WordsSkipSpace(b, []);
    } else {
      assert (a + b)[1..] == a[1..] + b;
      WordsTrailingSpace(a[1..], b);
      if a[1..] == [] {
        assert (a + b)[1..] == b;
        if b != [] {
          assert IsSpace((a + b)[1]);
        }
      } else {
        assert (a + b)[1] == a[1];
      }
    }
  }

  // ---------------------------------------------------------------------------
  // Encoding: `TSCBFile.to_file`
  // ---------------------------------------------------------------------------

  datatype EncodeError =
    | EmptyData          // StopIteration from next(iter(self.data.values()))
    | MissingScatterers  // KeyError: the header has no SCATTERERS entry
    | LengthOutOfRange   // struct.error packing the two lengths
    | NotAsciiHeader     // UnicodeEncodeError on the header block
    | NotAsciiLabels     // UnicodeEncodeError on SCATTERERS
    | CountOutOfRange    // struct.error packing the record count
    | IndexOutOfRange    // struct.error packing some Miller index

  /** The file after `to_file`: None where the file is never opened, else what
      was written to it before the error, if any, stopped the writing. */
  datatype Written = Written(file: Option<seq<Byte>>, error: Option<EncodeError>)

  const Omitted: set<string> := {"SCATTERERS", "TITLE", "SYMM"}

  /** The header entries the header block holds, in order. */
  function Extras(header: Header): (r: Header)
    ensures |r| <= |header|
    ensures forall i :: 0 <= i < |r| ==> r[i] in header && r[i].0 !in Omitted
    ensures forall p :: p in header && p.0 !in Omitted ==> p in r
  {
    if header == [] then []
    else if header[0].0 in Omitted then Extras(header[1..])
    else [header[0]] + Extras(header[1..])
  }

  /** One header entry goes into the block unless its name is omitted. */
  lemma ExtrasOne(p: (string, string))
    ensures Extras([p]) == if p.0 in Omitted then [] else [p]
  {
    assert [p][1..] == [];
  }

  /** The block keeps the header's order: the extras of a concatenation are
      those of its first part followed by those of the rest. */
  lemma {:induction false} ExtrasAppend(a: Header, b: Header)
    ensures Extras(a + b) == Extras(a) + Extras(b)
    decreases |a|
  {
    if a == [] {
      assert a + b == b;
    } else {
      var head := if a[0].0 in Omitted then [] else [a[0]];
      var x, y := Extras(a[1..]), Extras(b);
      assert (a + b)[0] == a[0];
      assert (a + b)[1..] == a[1..] + b;
      assert Extras(a + b) == head + Extras(a[1..] + b);
      ExtrasAppend(a[1..], b);
      AppendAssoc(head, x, y);
    }
  }

  /** The header block `"\n".join(f"{name}: {entry}" ...)`. */
  function HeaderBlock(header: Header): string {
    HeaderText(Extras(header))
  }

  /** `TSCBFile.to_file`, as the bytes the file ends up holding. */
  function EncodeTscb(t: Table): (w: Written)
    ensures t.data == [] <==> w.file.None?
    ensures w.file.None? ==> w.error == Some(EmptyData)
    ensures !HasKey(t.header, ScatterersKey) && t.data != [] ==> w == Written(Some([]), Some(MissingScatterers))
  {
    if t.data == [] then Written(None, Some(EmptyData))
    else
      var text := HeaderBlock(t.header);
      match Get(t.header, ScatterersKey)
      case None => Written(Some([]), Some(MissingScatterers))
      case Some(labels) =>
        if !InInt32(|text|) || !InInt32(|labels|) then Written(Some([]), Some(LengthOutOfRange))
        else
          var lengths := Int32Le(|text|) + Int32Le(|labels|);
          if !IsAscii(text) then Written(Some(lengths), Some(NotAsciiHeader))
          else
            var withHeader := lengths + AsciiBytes(text);
            if !IsAscii(labels) then Written(Some(withHeader), Some(NotAsciiLabels))
            else
              var withLabels := withHeader + AsciiBytes(labels);
              if !InInt32(|t.data|) then Written(Some(withLabels), Some(CountOutOfRange))
              else
                var withCount := withLabels + Int32Le(|t.data|);
                if !IndicesInInt32(t.data) then Written(Some(withCount), Some(IndexOutOfRange))
                else Written(Some(withCount + RecordsBytes(t.data)), None)
  }

  /** The size of a written file: the two lengths, the header block, the
      labels, the count, and 12 + 16·|row| bytes per record. */
  lemma FileSize(t: Table)
    requires EncodeTscb(t).error.None?
    ensures HasKey(t.header, ScatterersKey)
    ensures |EncodeTscb(t).file.value| ==
            8 + |HeaderBlock(t.header)| + |Get(t.header, ScatterersKey).value| + 4 + RecordsSize(t.data)
  {
  }

  /** A table `to_file` can write and `from_file` can read back unchanged in
      its rows: there is at least one row, the header has SCATTERERS, every
      text is ASCII and readable by the header grammar, every row holds one
      form factor per scatterer, and every number fits an int32. */
  predicate Encodable(t: Table) {
    && t.data != []
    && DistinctKeys(t.data)
    && HasKey(t.header, ScatterersKey)
    && var labels := Get(t.header, ScatterersKey).value;
       var text := HeaderBlock(t.header);
       && Readable(Extras(t.header))
       && IsAscii(text) && IsAscii(labels)
       && InInt32(|text|) && InInt32(|labels|) && InInt32(|t.data|)
       && IndicesInInt32(t.data)
       && forall i :: 0 <= i < |t.data| ==> |t.data[i].1| == |Words(labels)|
  }

  /** The header `from_file` gives back: the default TITLE and SYMM, the same
      SCATTERERS text, then the other entries with the leading space the
      header grammar keeps. */
  function ReadBackHeader(header: Header): Header
    requires HasKey(header, ScatterersKey)
  {
    [("TITLE", "generic_tsc"), ("SYMM", "expanded"), (ScatterersKey, Get(header, ScatterersKey).value)]
      + Spaced(Extras(header))
  }

  /** Read back, TITLE and SYMM hold their defaults and SCATTERERS the labels
      that were written. */
  lemma ReadBackKeys(header: Header)
    requires HasKey(header, ScatterersKey)
    ensures var r := ReadBackHeader(header);
            Get(r, "TITLE") == Some("generic_tsc") && Get(r, "SYMM") == Some("expanded") &&
            Get(r, ScatterersKey) == Get(header, ScatterersKey)
  {
    GetFront3(("TITLE", "generic_tsc"), ("SYMM", "expanded"), (ScatterersKey, Get(header, ScatterersKey).value),
              Spaced(Extras(header)));
  }

  /** Reading back what `to_file` wrote. */
  lemma {:induction false} RoundTrip(t: Table)
    requires Encodable(t)
    ensures EncodeTscb(t).error.None?
    ensures DecodeTscb(EncodeTscb(t).file.value) == Ok(Table(ReadBackHeader(t.header), t.data))
  {
    var labels := Get(t.header, ScatterersKey).value;
    var f := WrittenFile(t);
    var header := DefaultHeader + Spaced(Extras(t.header));
    assert Int32Of(f[0..4]) == |HeaderBlock(t.header)| && Int32Of(f[4..8]) == |labels|;
    DecodeAfterHeader(f, header, 8 + |HeaderBlock(t.header)|, labels, t.data);
    PutAllDistinct([], t.data);
    assert [] + t.data == t.data;
    HeaderPut(t.header);
  }

  /** The written file, as the decoder sees it up to the labels. */
  lemma WrittenFile(t: Table) returns (f: seq<Byte>)
    requires Encodable(t)
    ensures EncodeTscb(t) == Written(Some(f), None)
    ensures var labels := Get(t.header, ScatterersKey).value;
            var text := HeaderBlock(t.header);
            var pos := 8 + |text|;
            && pos <= |f|
            && f[0..4] == Int32Le(|text|) && f[4..8] == Int32Le(|labels|)
            && DecodeHeaderBlock(f, |text|) == Ok((DefaultHeader + Spaced(Extras(t.header)), pos))
            && f[pos..] == AsciiBytes(labels) + (Int32Le(|t.data|) + RecordsBytes(t.data))
  {
    var labels := Get(t.header, ScatterersKey).value;
    var tail := AsciiBytes(labels) + (Int32Le(|t.data|) + RecordsBytes(t.data));
    f := LayoutFacts(t.header, labels, tail);
    EncodedLayout(t);
  }

  lemma LayoutFacts(header: Header, labels: string, tail: seq<Byte>) returns (f: seq<Byte>)
    requires Readable(Extras(header)) && IsAscii(HeaderBlock(header))
    requires InInt32(|HeaderBlock(header)|) && InInt32(|labels|)
    ensures var text := HeaderBlock(header);
            var pos := 8 + |text|;
            && f == Int32Le(|text|) + Int32Le(|labels|) + AsciiBytes(text) + tail
            && pos <= |f|
            && f[0..4] == Int32Le(|text|) && f[4..8] == Int32Le(|labels|)
            && DecodeHeaderBlock(f, |text|) == Ok((DefaultHeader + Spaced(Extras(header)), pos))
            && f[pos..] == tail
  {
    var text := HeaderBlock(header);
    var lengths := Int32Le(|text|) + Int32Le(|labels|);
    var hb := AsciiBytes(text);
    f := lengths + hb + tail;
    FrontSlices(Int32Le(|text|), Int32Le(|labels|), hb, tail);
    var h := HeaderAfterBlock(f, header, lengths, hb, tail);
  }

  /** Where the pieces of a file lie: two four-byte lengths, a block, the rest. */
  lemma FrontSlices(x: seq<Byte>, y: seq<Byte>, block: seq<Byte>, tail: seq<Byte>)
    requires |x| == 4 && |y| == 4
    ensures var f := x + y + block + tail;
            f[0..4] == x && f[4..8] == y && f[8 + |block|..] == tail
  {
    var f := x + y + block + tail;
    assert f[0..4] == x;
    assert f[4..8] == y;
    assert f[8 + |block|..] == tail;
  }

  /** The pieces an encodable table is written as. */
  lemma EncodedLayout(t: Table)
    requires Encodable(t)
    ensures var labels := Get(t.header, ScatterersKey).value;
            var text := HeaderBlock(t.header);
            EncodeTscb(t) == Written(Some(Int32Le(|text|) + Int32Le(|labels|) + AsciiBytes(text) +
                                          (AsciiBytes(labels) + (Int32Le(|t.data|) + RecordsBytes(t.data)))), None)
  {
    var labels := Get(t.header, ScatterersKey).value;
    var text := HeaderBlock(t.header);
    var lengths := Int32Le(|text|) + Int32Le(|labels|);
    var hb := AsciiBytes(text);
    var lb := AsciiBytes(labels);
    var cb := Int32Le(|t.data|);
    var rb := RecordsBytes(t.data);
    assert EncodeTscb(t) == Written(Some(lengths + hb + lb + cb + rb), None);
    AppendRight(lengths + hb, lb, cb, rb);
  }

  /** The labels, the count and the records after a header block read back. */
  lemma DecodeAfterHeader(f: seq<Byte>, header: Header, pos: nat, labels: string, data: Data)
    requires |f| >= 8 && pos <= |f|
    requires DecodeHeaderBlock(f, Int32Of(f[0..4])) == Ok((header, pos))
    requires IsAscii(labels) && Int32Of(f[4..8]) == |labels|
    requires InInt32(|data|) && IndicesInInt32(data)
    requires forall i :: 0 <= i < |data| ==> |data[i].1| == |Words(labels)|
    requires f[pos..] == AsciiBytes(labels) + (Int32Le(|data|) + RecordsBytes(data))
    ensures DecodeTscb(f) == Ok(Table(Put(header, ScatterersKey, labels), PutAll([], data)))
  {
    var rest := Int32Le(|data|) + RecordsBytes(data);
    LabelsRoundTrip(f, header, pos, labels, rest);
    CountRoundTrip(Put(header, ScatterersKey, labels), |Words(labels)|, data);
    assert DecodeTscb(f) == DecodeLabels(f, header, pos, |labels|);
  }

  lemma LabelsRoundTrip(f: seq<Byte>, header: Header, pos: nat, labels: string, rest: seq<Byte>)
    requires pos <= |f| && DistinctKeys(header) && IsAscii(labels)
    requires f[pos..] == AsciiBytes(labels) + rest
    ensures DecodeLabels(f, header, pos, |labels|) == DecodeCount(rest, Put(header, ScatterersKey, labels), |Words(labels)|)
  {
    var lb := AsciiBytes(labels);
    assert f[pos..pos + |lb|] == lb by {
      assert f[pos..][..|lb|] == lb;
    }
    assert f[pos + |lb|..] == rest by {
      assert f[pos + |lb|..] == f[pos..][|lb|..];
    }
    LabelsRead(f, header, pos, labels, rest);
  }

  lemma LabelsRead(f: seq<Byte>, header: Header, pos: nat, labels: string, rest: seq<Byte>)
    requires pos <= |f| && DistinctKeys(header) && IsAscii(labels)
    requires ReadAt(f, pos, |labels|) == Ok(AsciiBytes(labels))
    requires f[pos + |labels|..] == rest
    ensures DecodeLabels(f, header, pos, |labels|) == DecodeCount(rest, Put(header, ScatterersKey, labels), |Words(labels)|)
  {
    AsciiDecodeOfBytes(labels);
    assert |AsciiBytes(labels)| == |labels|;
    LabelsThenCount(f, header, pos, |labels|, AsciiBytes(labels), labels, rest);
  }

  lemma CountRoundTrip(header: Header, n: nat, data: Data)
    requires InInt32(|data|) && IndicesInInt32(data)
    requires forall i :: 0 <= i < |data| ==> |data[i].1| == n
    ensures DecodeCount(Int32Le(|data|) + RecordsBytes(data), header, n) == Ok(Table(header, PutAll([], data)))
  {
    var rest := Int32Le(|data|) + RecordsBytes(data);
    assert rest[..4] == Int32Le(|data|);
    assert rest[4..] == RecordsBytes(data) + [];
    RecordsRoundTrip(data, n, []);
  }

  /** The header after the header block has been read from a written file. */
  lemma HeaderAfterBlock(f: seq<Byte>, header: Header, lengths: seq<Byte>, hb: seq<Byte>, rest: seq<Byte>)
    returns (h: Header)
    requires |lengths| == 8 && f == lengths + hb + rest
    requires Readable(Extras(header)) && IsAscii(HeaderBlock(header))
    requires hb == AsciiBytes(HeaderBlock(header))
    ensures DecodeHeaderBlock(f, |HeaderBlock(header)|) == Ok((h, 8 + |hb|))
    ensures h == DefaultHeader + Spaced(Extras(header))
  {
    var text := HeaderBlock(header);
    var extras := Extras(header);
    h := DefaultHeader + Spaced(extras);
    if |text| == 0 {
      if extras != [] {
        HeaderTextNonEmpty(extras);
      }
      assert Spaced(extras) == [];
      assert h == DefaultHeader;
    } else {
      assert f[8..8 + |hb|] == hb;
      BlockParses(f, header, hb);
    }
  }

  lemma BlockParses(f: seq<Byte>, header: Header, hb: seq<Byte>)
    requires |f| >= 8 + |hb| && f[8..8 + |hb|] == hb
    requires Readable(Extras(header)) && IsAscii(HeaderBlock(header))
    requires hb == AsciiBytes(HeaderBlock(header)) && |hb| > 0
    ensures DecodeHeaderBlock(f, |hb|) == Ok((DefaultHeader + Spaced(Extras(header)), 8 + |hb|))
  {
    var text := HeaderBlock(header);
    var extras := Extras(header);
    assert ReadAt(f, 8, |hb|) == Ok(hb);
    AsciiDecodeOfBytes(text);
    HeaderTextParses(extras);
    DecodeHeaderBlockOk(f, |hb|, text, Spaced(extras));
    DefaultThenSpaced(header);
    PutAllDistinct(DefaultHeader, Spaced(extras));
  }

  /** A header block that decodes and parses. */
  lemma DecodeHeaderBlockOk(f: seq<Byte>, size: int, text: string, fields: Header)
    requires |f| >= 8 && size > 0
    requires AsciiDecode(ReadAt(f, 8, size).value) == Some(text) && ParseHeader(text) == Ok(fields)
    ensures DecodeHeaderBlock(f, size) == Ok((PutAll(DefaultHeader, fields), 8 + |ReadAt(f, 8, size).value|))
  {
  }

  lemma HeaderTextNonEmpty(fields: Entries<string, string>)
    requires fields != []
    ensures HeaderText(fields) != []
  {
    JoinLength(HeaderLines(fields), "\n");
    SumLengthsPositive(HeaderLines(fields));
  }

  /** The read-back entries follow the defaults without clashing with them. */
  lemma DefaultThenSpaced(header: Header)
    requires DistinctKeys(Extras(header))
    ensures DistinctKeys(DefaultHeader + Spaced(Extras(header)))
  {
    var extras := Extras(header);
    var sp := Spaced(extras);
    SpacedDistinct(extras);
    forall j | 0 <= j < |sp| ensures sp[j].0 !in Omitted {
      assert sp[j].0 == extras[j].0;
    }
    assert |"TITLE"| != |"SYMM"|;
    DistinctAfter3(("TITLE", "generic_tsc"), ("SYMM", "expanded"), (ScatterersKey, ""), sp);
  }

  /** Three entries with distinct keys, then entries whose distinct keys are
      none of the three. */
  lemma DistinctAfter3<K, V>(a: (K, V), b: (K, V), c: (K, V), rest: Entries<K, V>)
    requires a.0 != b.0 && a.0 != c.0 && b.0 != c.0 && DistinctKeys(rest)
    requires forall j :: 0 <= j < |rest| ==> rest[j].0 != a.0 && rest[j].0 != b.0 && rest[j].0 != c.0
    ensures DistinctKeys([a, b, c] + rest)
  {
    var front := [a, b, c];
    forall i, j | 0 <= i < |front| && 0 <= j < |rest| ensures front[i].0 != rest[j].0 {
    }
    DistinctConcat(front, rest);
  }

  lemma SpacedDistinct(fields: Entries<string, string>)
    requires DistinctKeys(fields)
    ensures DistinctKeys(Spaced(fields))
  {
    var sp := Spaced(fields);
    forall i, j | 0 <= i < j < |sp| ensures sp[i].0 != sp[j].0 {
      assert sp[i].0 == fields[i].0 && sp[j].0 == fields[j].0;
    }
  }

  /** Putting SCATTERERS into the read-back header replaces the default. */
  lemma HeaderPut(header: Header)
    requires HasKey(header, ScatterersKey) && DistinctKeys(Extras(header))
    ensures Put(DefaultHeader + Spaced(Extras(header)), ScatterersKey, Get(header, ScatterersKey).value)
            == ReadBackHeader(header)
  {
    var extras := Extras(header);
    var sp := Spaced(extras);
    forall i | 0 <= i < |sp| ensures sp[i].0 != ScatterersKey {
      assert sp[i].0 == extras[i].0 && extras[i].0 !in Omitted;
    }
    assert |"TITLE"| != |ScatterersKey| && |"SYMM"| != |ScatterersKey|;
    PutThird(("TITLE", "generic_tsc"), ("SYMM", "expanded"), (ScatterersKey, ""), sp,
             ScatterersKey, Get(header, ScatterersKey).value);
  }

  /** Assigning the key of the third of three leading entries, which no other
      entry has, replaces that entry alone. */
  lemma PutThird<K, V>(a: (K, V), b: (K, V), c: (K, V), rest: Entries<K, V>, k: K, v: V)
    requires a.0 != k && b.0 != k && c.0 == k
    requires forall i :: 0 <= i < |rest| ==> rest[i].0 != k
    ensures Put([a, b, c] + rest, k, v) == [a, b, (k, v)] + rest
  {
    var e := [a, b, c] + rest;
    var r := Put(e, k, v);
    var t := [a, b, (k, v)] + rest;
    assert e[2].0 == k;
    forall i | 0 <= i < |r| ensures r[i] == t[i] {
      if i >= 3 {
        assert e[i] == rest[i - 3] && t[i] == rest[i - 3];
      }
    }
  }

  // ---------------------------------------------------------------------------
  // The reader and the writer as they run
  // ---------------------------------------------------------------------------

  /** `TSCBFile.from_file`: a cursor moves through the file. */
  method ReadTscb(f: seq<Byte>) returns (r: Result<Table, DecodeError>)
    ensures r == DecodeTscb(f)
  {
    if |f| < 8 {
      return Err(StructError);
    }
    var headerSize := Int32Of(f[0..4]);
    var labelsSize := Int32Of(f[4..8]);
    var block := ReadHeaderBlock(f, headerSize);
    if block.Err? {
      return Err(block.error);
    }
    r := ReadLabels(f, block.value.0, block.value.1, labelsSize);
  }

  /** The labels at the cursor, then the records. */
  method ReadLabels(f: seq<Byte>, header: Header, pos: nat, size: int) returns (r: Result<Table, DecodeError>)
    requires pos <= |f| && DistinctKeys(header)
    ensures r == DecodeLabels(f, header, pos, size)
  {
    var read := ReadAt(f, pos, size);
    if read.Err? {
      return Err(read.error);
    }
    var lb := read.value;
    var labels := AsciiDecode(lb);
    if labels.None? {
      return Err(UnicodeError);
    }
    var withLabels := Put(header, ScatterersKey, labels.value);
    r := ReadCount(f[pos + |lb|..], withLabels, |Words(labels.value)|);
    LabelsThenCount(f, header, pos, size, lb, labels.value, f[pos + |lb|..]);
    assert r == WithLabels(f[pos + |lb|..], header, labels.value);
  }

  lemma LabelsThenCount(f: seq<Byte>, header: Header, pos: nat, size: int, lb: seq<Byte>, labels: string, rest: seq<Byte>)
    requires pos <= |f| && DistinctKeys(header)
    requires ReadAt(f, pos, size) == Ok(lb) && AsciiDecode(lb) == Some(labels) && rest == f[pos + |lb|..]
    ensures DecodeLabels(f, header, pos, size) == WithLabels(rest, header, labels)
  {
    var read := ReadAt(f, pos, size);
    assert read.Ok? && read.value == lb;
    assert f[pos + |read.value|..] == rest;
  }

  /** The record count at the cursor, then that many records. */
  method ReadCount(rest: seq<Byte>, header: Header, n: nat) returns (r: Result<Table, DecodeError>)
    ensures r == DecodeCount(rest, header, n)
  {
    if |rest| < 4 {
      return Err(StructError);
    }
    var count := Int32Of(rest[..4]);
    var data := ReadRecords(rest[4..], if count < 0 then 0 else count, n);
    if data.Err? {
      return Err(data.error);
    }
    return Ok(Table(header, data.value));
  }

  /** The header block, read and parsed when its size is positive. */
  method ReadHeaderBlock(f: seq<Byte>, size: int) returns (r: Result<(Header, nat), DecodeError>)
    requires |f| >= 8
    ensures r == DecodeHeaderBlock(f, size)
  {
    if size <= 0 {
      return Ok((DefaultHeader, 8));
    }
    r := ReadHeaderText(ReadAt(f, 8, size).value);
  }

  /** A header block of positive size: decoded as ASCII, then parsed. */
  method ReadHeaderText(hb: seq<Byte>) returns (r: Result<(Header, nat), DecodeError>)
    ensures r == DecodeBlockText(hb)
  {
    var text := AsciiDecode(hb);
    if text.None? {
      return Err(UnicodeError);
    }
    var fields := ParseHeaderLines(text.value);
    if fields.Err? {
      return Err(BadHeader(fields.error));
    }
    return Ok((PutAll(DefaultHeader, fields.value), 8 + |hb|));
  }

  /** The records read before the cursor, in front of those after it. */
  function Prepend(done: Data, r: Result<Data, DecodeError>): Result<Data, DecodeError> {
    match r
    case Err(e) => Err(e)
    case Ok(more) => Ok(done + more)
  }

  /** The dictionary comprehension over `range(n_refln)`: each record is read
      at the cursor and assigned into the dictionary. */
  method ReadRecords(b: seq<Byte>, count: nat, n: nat) returns (r: Result<Data, DecodeError>)
    ensures r == match DecodeRecords(b, count, n)
                 case Err(e) => Err(e)
                 case Ok(records) => Ok(PutAll([], records))
  {
    var pos := 0;
    var data: Data := [];
    ghost var done: Data := [];
    var i := 0;
    assert b[pos..] == b;
    PrependNone(DecodeRecords(b, count, n));
    while i < count
      invariant 0 <= i <= count && 0 <= pos <= |b|
      invariant data == PutAll([], done)
      invariant ReadSoFar(b, count, n, done, pos, i)
    {
      if pos + RecordSize(n) > |b| {
        ShortAtCursor(b, count, n, done, pos, i);
        return Err(ShortRecord);
      }
      var record := DecodeRecord(b[pos..pos + RecordSize(n)], n);
      assert record == (record.0, record.1);
      PutAllSnoc([], done, record.0, record.1);
      ghost var done0, pos0, i0 := done, pos, i;
      data := Put(data, record.0, record.1);
      done := done + [record];
      pos := pos + RecordSize(n);
      i := i + 1;
      ReadOneMore(b, count, n, done0, pos0, i0, done, pos, i);
    }
    ReadAll(b, count, n, done, pos);
    return Ok(data);
  }

  /** The loop invariant of `ReadRecords`: the records read so far, followed
      by those still to be read at the cursor, are all the records. */
  ghost predicate ReadSoFar(b: seq<Byte>, count: nat, n: nat, done: Data, pos: nat, i: nat)
    requires i <= count && pos <= |b|
  {
    DecodeRecords(b, count, n) == Prepend(done, DecodeRecords(b[pos..], count - i, n))
  }

  lemma ReadOneMore(b: seq<Byte>, count: nat, n: nat, done: Data, pos: nat, i: nat, done': Data, pos': nat, i': nat)
    requires i < count && pos + RecordSize(n) <= |b| && ReadSoFar(b, count, n, done, pos, i)
    requires done' == done + [DecodeRecord(b[pos..pos + RecordSize(n)], n)]
    requires pos' == pos + RecordSize(n) && i' == i + 1
    ensures ReadSoFar(b, count, n, done', pos', i')
  {
    var record := DecodeRecord(b[pos..pos'], n);
    var after := DecodeRecords(b[pos'..], count - i', n);
    RecordAtCursor(b, pos, pos', count - i, count - i', n);
    PrependOne(done, record, after);
    assert DecodeRecords(b, count, n) == Prepend(done, Prepend([record], after));
    assert done' == done + [record];
  }

  lemma ShortAtCursor(b: seq<Byte>, count: nat, n: nat, done: Data, pos: nat, i: nat)
    requires i < count && pos <= |b| && pos + RecordSize(n) > |b| && ReadSoFar(b, count, n, done, pos, i)
    ensures DecodeRecords(b, count, n) == Err(ShortRecord)
  {
  }

  lemma ReadAll(b: seq<Byte>, count: nat, n: nat, done: Data, pos: nat)
    requires pos <= |b| && ReadSoFar(b, count, n, done, pos, count)
    ensures DecodeRecords(b, count, n) == Ok(done)
  {
    assert done + [] == done;
  }

  lemma PrependNone(r: Result<Data, DecodeError>)
    ensures Prepend([], r) == r
  {
    if r.Ok? {
      assert [] + r.value == r.value;
    }
  }

  lemma PrependOne(done: Data, record: (Hkl, Row), r: Result<Data, DecodeError>)
    ensures Prepend(done, Prepend([record], r)) == Prepend(done + [record], r)
  {
    if r.Ok? {
      assert done + ([record] + r.value) == (done + [record]) + r.value;
    }
  }

  /** One record read at the cursor, in front of the records after it. */
  lemma RecordAtCursor(b: seq<Byte>, pos: nat, next: nat, left: nat, left': nat, n: nat)
    requires left > 0 && left' == left - 1 && next == pos + RecordSize(n) <= |b|
    ensures DecodeRecords(b[pos..], left, n) ==
            Prepend([DecodeRecord(b[pos..next], n)], DecodeRecords(b[next..], left', n))
  {
    assert b[pos..][..RecordSize(n)] == b[pos..next];
    assert b[pos..][RecordSize(n)..] == b[next..];
  }

  lemma IndicesAppend(a: Data, b: Data)
    requires IndicesInInt32(a) && IndicesInInt32(b)
    ensures IndicesInInt32(a + b)
  {
    forall i | 0 <= i < |a + b| ensures HklInInt32((a + b)[i].0) {
      if i < |a| {
        assert (a + b)[i] == a[i];
      } else {
        assert (a + b)[i] == b[i - |a|];
      }
    }
  }

  lemma {:induction false} RecordsBytesAppend(a: Data, b: Data)
    requires IndicesInInt32(a) && IndicesInInt32(b)
    ensures IndicesInInt32(a + b)
    ensures RecordsBytes(a + b) == RecordsBytes(a) + RecordsBytes(b)
  {
    IndicesAppend(a, b);
    if a == [] {
      assert a + b == b;
    } else {
      var rest := a[1..] + b;
      assert (a + b)[0] == a[0] && (a + b)[1..] == rest;
      assert IndicesInInt32(a[1..]) by {
        forall i | 0 <= i < |a[1..]| ensures HklInInt32(a[1..][i].0) {
          assert a[1..][i] == a[i + 1];
        }
      }
      RecordsBytesAppend(a[1..], b);
      var head, x, y := RecordBytes(a[0].0, a[0].1), RecordsBytes(a[1..]), RecordsBytes(b);
      assert RecordsBytes(a + b) == head + RecordsBytes(rest);
      assert RecordsBytes(a) == head + x;
      AppendAssoc(head, x, y);
    }
  }

  /** `TSCBFile.to_file`: the pieces are appended to the file one after the
      other; the records are all packed before the one write that holds them. */
  method WriteTscb(t: Table) returns (w: Written)
    ensures w == EncodeTscb(t)
  {
    if t.data == [] {
      return Written(None, Some(EmptyData));
    }
    var text := HeaderBlock(t.header);
    var scatterers := Get(t.header, ScatterersKey);
    if scatterers.None? {
      return Written(Some([]), Some(MissingScatterers));
    }
    var labels := scatterers.value;
    if !InInt32(|text|) || !InInt32(|labels|) {
      return Written(Some([]), Some(LengthOutOfRange));
    }
    var out := Int32Le(|text|) + Int32Le(|labels|);
    if !IsAscii(text) {
      return Written(Some(out), Some(NotAsciiHeader));
    }
    out := out + AsciiBytes(text);
    if !IsAscii(labels) {
      return Written(Some(out), Some(NotAsciiLabels));
    }
    out := out + AsciiBytes(labels);
    if !InInt32(|t.data|) {
      return Written(Some(out), Some(CountOutOfRange));
    }
    out := out + Int32Le(|t.data|);
    var packed, records := PackRecords(t.data);
    if !packed {
      return Written(Some(out), Some(IndexOutOfRange));
    }
    return Written(Some(out + records), None);
  }

  /** One more record packed onto the bytes of the records before it. */
  lemma PackOneMore(data: Data, i: nat, records: seq<Byte>, i': nat, records': seq<Byte>)
    requires i < |data| && i' == i + 1 && HklInInt32(data[i].0)
    requires IndicesInInt32(data[..i]) && records == RecordsBytes(data[..i])
    requires records' == records + RecordBytes(data[i].0, data[i].1)
    ensures IndicesInInt32(data[..i']) && records' == RecordsBytes(data[..i'])
  {
    assert data[..i + 1] == data[..i] + [data[i]];
    RecordsBytesAppend(data[..i], [data[i]]);
    assert RecordsBytes([data[i]]) == RecordBytes(data[i].0, data[i].1) + RecordsBytes([]);
  }

  /** Packing the records one by one; a Miller index outside int32 stops it. */
  method PackRecords(data: Data) returns (ok: bool, records: seq<Byte>)
    ensures ok <==> IndicesInInt32(data)
    ensures ok ==> records == RecordsBytes(data)
  {
    records := [];
    var i := 0;
    while i < |data|
      invariant 0 <= i <= |data|
      invariant IndicesInInt32(data[..i])
      invariant records == RecordsBytes(data[..i])
    {
      if !HklInInt32(data[i].0) {
        return false, records;
      }
      ghost var records0, i0 := records, i;
      records := records + RecordBytes(data[i].0, data[i].1);
      i := i + 1;
      PackOneMore(data, i0, records0, i, records);
    }
    assert data[..i] == data;
    return true, records;
  }
}
