/** The table object of `qcrbox_plugin/tsc.py` (`TSCBase` with the binary
    `TSCBFile` methods), whose `header` and `data` are updated in place, and
    `read_tsc_file`, which picks a reader by the file name's suffix. */
module TscFile {
  import opened Common
  import opened Text
  import opened TscModel
  import opened Tscb
  import opened TscCif

  class TscbFile {
    var header: Header
    var data: Data

    /** What every table built and updated here keeps: the header and the
        data are dictionaries (no key twice) and the header has labels. */
    ghost predicate Valid()
      reads this
    {
      DistinctKeys(header) && HasKey(header, ScatterersKey) && DistinctKeys(data)
    }

    /** `TSCBase.__init__`: the three default header entries and no data. */
    constructor()
      ensures Valid()
      ensures header == DefaultHeader && data == []
      ensures Scatterers(header) == []
    {
      header := DefaultHeader;
      data := [];
      DefaultHeaderShape();
    }

    /** The `scatterers` setter: the labels joined by single spaces replace
        the SCATTERERS entry; nothing else changes. */
    method SetScatterers(labels: seq<string>)
      requires Valid()
      modifies this
      ensures Valid()
      ensures header == WithScatterers(old(header), labels) && data == old(data)
      ensures PlainLabels(labels) ==> Scatterers(header) == labels
      ensures forall k :: k != ScatterersKey ==> Get(header, k) == Get(old(header), k)
    {
      header := Put(header, ScatterersKey, Join(labels, " "));
      GetPut(old(header), ScatterersKey, Join(labels, " "), ScatterersKey);
      forall k | k != ScatterersKey ensures Get(header, k) == Get(old(header), k) {
        GetPut(old(header), ScatterersKey, Join(labels, " "), k);
      }
      if PlainLabels(labels) {
        ScatterersRoundTrip(old(header), labels);
      }
    }

    /** `populate_from_cif_block`: the labels are set before the loop is
        looked at, so a later failure leaves them set; the data is replaced
        only when the whole import succeeds. */
    method PopulateFromCifBlock<F>(block: CifBlock, parseFloat: string -> Option<F>, complexOf: (F, F) -> Complex128)
      returns (err: Option<ImportError>)
      requires Valid()
      modifies this
      ensures Valid()
      ensures var r := Import(old(header), block, parseFloat, complexOf);
              header == r.header &&
              match r.result
              case Ok(d) => data == d && err == None
              case Err(e) => data == old(data) && err == Some(e)
    {
      if SourceItem !in block.items || PartitionNameItem !in block.items || PartitionSoftwareItem !in block.items {
        return Some(MissingEntries);
      }
      if LabelsItem !in block.items {
        return Some(MissingKey(LabelsItem));
      }
      SetScatterers(LabelValues(block.items[LabelsItem]));
      if AffLoop !in block.loops {
        return Some(MissingLoop);
      }
      var imported := ImportLoop(Scatterers(header), block.loops[AffLoop], parseFloat, complexOf);
      if imported.Err? {
        return Some(imported.error);
      }
      data := imported.value;
      return None;
    }

    /** `TSCBFile.from_file` over the file's bytes: a new table holding what
        the decoder reads, or the error it stops at. */
    static method FromFile(f: seq<Byte>) returns (r: Result<TscbFile, DecodeError>)
      ensures r.Ok? ==> fresh(r.value) && r.value.Valid()
      ensures r.Ok? ==> DecodeTscb(f) == Ok(Table(r.value.header, r.value.data))
      ensures r.Err? ==> DecodeTscb(f) == Err(r.error)
    {
      var t := ReadTscb(f);
      if t.Err? {
        return Err(t.error);
      }
      var obj := FromTable(t.value);
      return Ok(obj);
    }

    /** A new table whose header and data are then replaced by the ones read. */
    static method FromTable(t: Table) returns (obj: TscbFile)
      requires DistinctKeys(t.header) && HasKey(t.header, ScatterersKey) && DistinctKeys(t.data)
      ensures fresh(obj) && obj.Valid() && obj.header == t.header && obj.data == t.data
    {
      obj := new TscbFile();
      obj.Replace(t);
    }

    /** Overwrites the header and the data with a table that keeps the invariant. */
    method Replace(t: Table)
      requires DistinctKeys(t.header) && HasKey(t.header, ScatterersKey) && DistinctKeys(t.data)
      modifies this
      ensures Valid() && header == t.header && data == t.data
    {
      header := t.header;
      data := t.data;
    }

    /** `TSCBFile.to_file`: the bytes the file ends up holding and the error
        that stopped the writing, if any. */
    method ToFile() returns (w: Written)
      ensures w == EncodeTscb(Table(header, data))
      ensures data == [] <==> w.file.None?
    {
      w := WriteTscb(Table(header, data));
    }
  }

  /** A table written to a file and read back with `from_file` has the same
      labels and the same records; the header comes back as `ReadBackHeader`
      describes. */
  method WriteThenRead(t: TscbFile) returns (back: Result<TscbFile, DecodeError>)
    requires Encodable(Table(t.header, t.data))
    ensures back.Ok? && fresh(back.value)
    ensures back.value.data == t.data
    ensures back.value.header == ReadBackHeader(t.header)
    ensures Get(back.value.header, ScatterersKey) == Get(t.header, ScatterersKey)
  {
    var w := t.ToFile();
    RoundTrip(Table(t.header, t.data));
    back := TscbFile.FromFile(w.file.value);
    ReadBackKeys(t.header);
  }

  /** Python's `pathlib` view of a path: the last component that is neither
      empty nor `.`. */
  function FinalName(path: string): (name: string)
    ensures '/' !in name
  {
    LastPart(Split(path, '/'))
  }

  function LastPart(parts: seq<string>): (name: string)
    requires forall i :: 0 <= i < |parts| ==> '/' !in parts[i]
    ensures '/' !in name
    ensures name == "" || name in parts
  {
    if parts == [] then ""
    else if parts[|parts| - 1] == "" || parts[|parts| - 1] == "." then LastPart(parts[..|parts| - 1])
    else parts[|parts| - 1]
  }

  /** The last position of `c` in `s`, if any (`str.rfind`). */
  function LastIndexOf(s: string, c: char): (r: Option<nat>)
    ensures r.Some? ==> r.value < |s| && s[r.value] == c && c !in s[r.value + 1..]
    ensures r.None? <==> c !in s
  {
    if s == [] then None
    else if s[|s| - 1] == c then Some(|s| - 1)
    else
      var r := LastIndexOf(s[..|s| - 1], c);
      assert s == s[..|s| - 1] + [s[|s| - 1]];
      r
  }

  /** `PurePath.suffix`: from the last dot of the final name, when that dot
      is neither its first nor its last character. */
  function Suffix(path: string): (ext: string)
    ensures ext == "" || (ext[0] == '.' && '.' !in ext[1..] && '/' !in ext && |ext| >= 2)
  {
    var name := FinalName(path);
    match LastIndexOf(name, '.')
    case None => ""
    case Some(i) => if 0 < i < |name| - 1 then name[i..] else ""
  }

  /** What `read_tsc_file` returns: a binary table, or what the text-format
      reader returns. */
  datatype Loaded<T> = Binary(table: Table) | Text(text: T)

  /** The ValueError raised when both readers fail, chained from the failure
      of the reader tried first. */
  datatype ReadFailure<E> =
    | CannotReadTscb(path: string, cause: DecodeError)
    | CannotReadTsc(path: string, textCause: E)

  /** `read_tsc_file`: `.tscb` tries the binary reader, then the text reader;
      `.tsc` the other way round; any other suffix gives nothing.  The text
      reader is a parameter. */
  function ReadTscFile<T, E>(path: string, contents: seq<Byte>, readText: seq<Byte> -> Result<T, E>): (r: Option<Result<Loaded<T>, ReadFailure<E>>>)
    ensures r.None? <==> Suffix(path) != ".tscb" && Suffix(path) != ".tsc"
    ensures r.Some? && r.value.Err? <==>
              (Suffix(path) == ".tscb" || Suffix(path) == ".tsc") && DecodeTscb(contents).Err? && readText(contents).Err?
    ensures r.Some? && r.value.Err? && Suffix(path) == ".tscb" ==>
              r.value.error == CannotReadTscb(path, DecodeTscb(contents).error)
    ensures r.Some? && r.value.Err? && Suffix(path) == ".tsc" ==>
              r.value.error == CannotReadTsc(path, readText(contents).error)
    ensures r.Some? && r.value.Ok? && r.value.value.Binary? ==> DecodeTscb(contents) == Ok(r.value.value.table)
    ensures r.Some? && r.value.Ok? && r.value.value.Text? ==> readText(contents) == Ok(r.value.value.text)
  {
    var suffix := Suffix(path);
    if suffix == ".tscb" then
      match DecodeTscb(contents)
      case Ok(t) => Some(Ok(Binary(t)))
      case Err(first) =>
        match readText(contents)
        case Ok(x) => Some(Ok(Text(x)))
        case Err(_) => Some(Err(CannotReadTscb(path, first)))
    else if suffix == ".tsc" then
      match readText(contents)
      case Ok(x) => Some(Ok(Text(x)))
      case Err(first) =>
        match DecodeTscb(contents)
        case Ok(t) => Some(Ok(Binary(t)))
        case Err(_) => Some(Err(CannotReadTsc(path, first)))
    else None
  }

  /** A file written by `to_file` under a `.tscb` name reads back as the
      binary table, whatever the text reader would say; under a `.tsc` name
      it does too once the text reader refuses it. */
  lemma ReadWritten<T, E>(path: string, t: Table, readText: seq<Byte> -> Result<T, E>)
    requires Encodable(t)
    requires Suffix(path) == ".tscb" || (Suffix(path) == ".tsc" && readText(EncodeTscb(t).file.value).Err?)
    ensures ReadTscFile(path, EncodeTscb(t).file.value, readText) == Some(Ok(Binary(Table(ReadBackHeader(t.header), t.data))))
  {
    RoundTrip(t);
  }

  /** A final name with one inner dot has the text from the dot on as its
      suffix; a name starting with its only dot, or ending in a dot, has none. */
  lemma NameSuffix(stem: string, ext: string)
    requires stem != [] && '.' !in stem && '/' !in stem
    requires ext != [] && '.' !in ext && '/' !in ext
    ensures Suffix(stem + "." + ext) == "." + ext
    ensures Suffix("." + ext) == ""
    ensures Suffix(stem + ".") == ""
  {
    NameOfPlain(stem + "." + ext);
    NameOfPlain("." + ext);
    NameOfPlain(stem + ".");
    var name := stem + "." + ext;
    assert name[|stem|] == '.';
    assert name[|stem| + 1..] == ext;
    LastIndexOfAt(name, |stem|);
    assert ("." + ext)[1..] == ext;
    LastIndexOfAt("." + ext, 0);
    assert (stem + ".")[..|stem|] == stem;
    LastIndexOfAt(stem + ".", |stem|);
  }

  /** A path without separators names itself, unless it is `.`. */
  lemma NameOfPlain(name: string)
    requires name != [] && name != "." && '/' !in name
    ensures FinalName(name) == name
  {
    SplitNoSep(name, '/');
  }

  /** rfind finds the dot after which no dot follows. */
  lemma {:induction false} LastIndexOfAt(s: string, i: nat)
    requires i < |s| && s[i] == '.' && '.' !in s[i + 1..]
    ensures LastIndexOf(s, '.') == Some(i)
    decreases |s|
  {
    if i < |s| - 1 {
      assert s[|s| - 1] in s[i + 1..];
      assert s[..|s| - 1][i + 1..] == s[i + 1..|s| - 1];
      assert s[i + 1..] == s[i + 1..|s| - 1] + [s[|s| - 1]];
      LastIndexOfAt(s[..|s| - 1], i);
    }
  }
}
