/** CIF text helpers of `qcrbox_plugin/cif_utils.py`: the DDL2-to-DDL1 data
    name rewriter, the data name check and the search for the CIF file in a
    dataset download answer. */
module CifUtils {
  import opened Common
  import opened Text

  // ---------------------------------------------------------------------------
  // The data name pattern `^(\s*)(_[a-zA-Z0-9_.\-]+)`
  // ---------------------------------------------------------------------------

  /** `[a-zA-Z0-9_.\-]`. */
  predicate IsNameChar(c: char) {
    ('a' <= c <= 'z') || ('A' <= c <= 'Z') || ('0' <= c <= '9') || c == '_' || c == '.' || c == '-'
  }

  predicate AllNameChars(s: string) {
    forall i :: 0 <= i < |s| ==> IsNameChar(s[i])
  }

  /** The end of the longest run of characters satisfying p from i on. */
  function Run(s: string, i: nat, p: char -> bool): (j: nat)
    requires i <= |s|
    ensures i <= j <= |s|
    ensures forall k :: i <= k < j ==> p(s[k])
    ensures j < |s| ==> !p(s[j])
    decreases |s| - i
  {
    if i < |s| && p(s[i]) then Run(s, i + 1, p) else i
  }

  /** Where the data name pattern matches a line: the end of the leading
      whitespace (where the `_` stands) and the end of the match. */
  function MatchDataName(line: string): (m: Option<(nat, nat)>)
    ensures m.Some? ==> m.value.0 + 1 < m.value.1 <= |line| && line[m.value.0] == '_'
    ensures m.Some? ==> forall i :: 0 <= i < m.value.0 ==> IsSpace(line[i])
    ensures m.Some? ==> AllNameChars(line[m.value.0..m.value.1])
    ensures m.Some? ==> m.value.1 == |line| || !IsNameChar(line[m.value.1])
  {
    var k := Run(line, 0, IsSpace);
    if k < |line| && line[k] == '_' then
      var e := Run(line, k + 1, IsNameChar);
      if e > k + 1 then
        assert AllNameChars(line[k..e]) by {
          forall i | 0 <= i < e - k ensures IsNameChar(line[k..e][i]) {
            assert line[k..e][i] == line[k + i];
          }
        }
        Some((k, e))
      else None
    else None
  }

  /** `s.replace('.', '_')`. */
  function Underscored(s: string): (r: string)
    ensures |r| == |s| && '.' !in r
    ensures forall i :: 0 <= i < |s| ==> r[i] == if s[i] == '.' then '_' else s[i]
  {
    seq(|s|, i requires 0 <= i < |s| => if s[i] == '.' then '_' else s[i])
  }

  /** b is a with some dots turned into underscores and nothing else changed. */
  predicate DotsOnly(a: string, b: string) {
    |a| == |b| && forall i :: 0 <= i < |a| ==> b[i] == a[i] || (a[i] == '.' && b[i] == '_')
  }

  /** One line outside a text field: the dots of a leading data name become
      underscores. */
  function ConvertLine(line: string): (r: string)
    ensures DotsOnly(line, r)
    ensures MatchDataName(line).None? ==> r == line
    ensures '.' !in line ==> r == line
  {
    match MatchDataName(line)
    case None => line
    case Some((k, e)) =>
      var mid := Underscored(line[k..e]);
      var r := line[..k] + mid + line[e..];
      assert DotsOnly(line, r) by {
        forall i | 0 <= i < |line| ensures r[i] == line[i] || (line[i] == '.' && r[i] == '_') {
          if i < k {
            assert r[i] == line[..k][i];
          } else if i < e {
            assert r[i] == mid[i - k] && line[k..e][i - k] == line[i];
          } else {
            assert r[i] == line[e..][i - e];
          }
        }
      }
      r
  }

  predicate AllSpace(s: string) {
    forall i :: 0 <= i < |s| ==> IsSpace(s[i])
  }

  /** A line made of whitespace up to k, `_` at k, and name characters up to
      e where the run of them stops: the dots of that name become underscores
      and the whitespace and the rest of the line are kept. */
  lemma ConvertLineAt(line: string, k: nat, e: nat)
    requires k + 1 < e <= |line| && AllSpace(line[..k]) && line[k] == '_' && AllNameChars(line[k + 1..e])
    requires e == |line| || !IsNameChar(line[e])
    ensures ConvertLine(line) == line[..k] + Underscored(line[k..e]) + line[e..]
  {
    forall i | 0 <= i < k ensures IsSpace(line[i]) {
      assert line[i] == line[..k][i];
    }
    forall i | k + 1 <= i < e ensures IsNameChar(line[i]) {
      assert line[i] == line[k + 1..e][i - k - 1];
    }
    RunStops(line, 0, IsSpace, k);
    RunStops(line, k + 1, IsNameChar, e);
  }

  /** A run of p ends where p first fails. */
  lemma {:induction false} RunStops(s: string, i: nat, p: char -> bool, j: nat)
    requires i <= j <= |s| && (forall k :: i <= k < j ==> p(s[k])) && (j == |s| || !p(s[j]))
    ensures Run(s, i, p) == j
    decreases j - i
  {
    if i < j {
      RunStops(s, i + 1, p, j);
    }
  }

  /** A line whose first non-blank characters are not `_` and a name
      character is kept as it is. */
  lemma ConvertLineNoName(line: string)
    requires var k := Run(line, 0, IsSpace);
             !(k + 1 < |line| && line[k] == '_' && IsNameChar(line[k + 1]))
    ensures ConvertLine(line) == line
  {
  }

  /** Positions where a and b are both or neither p give the same runs. */
  lemma {:induction false} RunAgree(a: string, b: string, i: nat, p: char -> bool)
    requires DotsOnly(a, b) && i <= |a| && p('.') == p('_')
    ensures Run(a, i, p) == Run(b, i, p)
    decreases |a| - i
  {
    if i < |a| {
      assert p(a[i]) == p(b[i]);
      if p(a[i]) {
        RunAgree(a, b, i + 1, p);
      }
    }
  }

  /** Rewriting a line a second time changes nothing. */
  lemma ConvertLineIdempotent(line: string)
    ensures ConvertLine(ConvertLine(line)) == ConvertLine(line)
  {
    var r := ConvertLine(line);
    match MatchDataName(line)
    case None =>
    case Some((k, e)) =>
      RunAgree(line, r, 0, IsSpace);
      RunAgree(line, r, k + 1, IsNameChar);
      assert r[k] == '_';
      assert MatchDataName(r) == Some((k, e));
      assert r[..k] == line[..k] && r[e..] == line[e..];
      assert r[k..e] == Underscored(line[k..e]);
      assert Underscored(Underscored(line[k..e])) == Underscored(line[k..e]);
  }

  // ---------------------------------------------------------------------------
  // Lines and text fields
  // ---------------------------------------------------------------------------

  /** A line opening or closing a text field: a semicolon in column one. */
  predicate IsDelimiter(line: string) {
    StartsWith(line, ";")
  }

  /** Whether line i lies inside a text field: the delimiter lines before it
      are odd in number. */
  function Inside(lines: seq<string>, i: nat): bool
    requires i <= |lines|
  {
    if i == 0 then false
    else if IsDelimiter(lines[i - 1]) then !Inside(lines, i - 1)
    else Inside(lines, i - 1)
  }

  /** What becomes of line i: delimiters and lines inside a field are kept. */
  function LineAt(lines: seq<string>, i: nat): string
    requires i < |lines|
  {
    if IsDelimiter(lines[i]) || Inside(lines, i) then lines[i] else ConvertLine(lines[i])
  }

  function ConvertLines(lines: seq<string>): (out: seq<string>)
    ensures |out| == |lines| && forall i :: 0 <= i < |lines| ==> out[i] == LineAt(lines, i)
  {
    seq(|lines|, i requires 0 <= i < |lines| => LineAt(lines, i))
  }

  /** `convert_cif_ddl2_to_ddl1`. */
  function Convert(text: string): string {
    Join(ConvertLines(Split(text, '\n')), "\n")
  }

  /** The first i lines of the output, as the loop has built them. */
  function Converted(lines: seq<string>, i: nat): (out: seq<string>)
    requires i <= |lines|
    ensures out == ConvertLines(lines)[..i]
  {
    if i == 0 then []
    else
      var out := Converted(lines, i - 1) + [LineAt(lines, i - 1)];
      assert ConvertLines(lines)[..i] == ConvertLines(lines)[..i - 1] + [ConvertLines(lines)[i - 1]];
      out
  }

  /** The converter's loop: one pass over the lines with the field flag,
      appending each line as it is or rewritten. */
  method ConvertCif(text: string) returns (r: string)
    ensures r == Convert(text)
  {
    var lines := Split(text, '\n');
    var result: seq<string> := [];
    var inField := false;
    var i := 0;
    while i < |lines|
      invariant 0 <= i <= |lines|
      invariant inField == Inside(lines, i)
      invariant result == Converted(lines, i)
    {
      var line := lines[i];
      var out := line;
      if StartsWith(line, ";") {
        inField := !inField;
      } else if !inField {
        var m := MatchDataName(line);
        if m.Some? {
          var k := m.value.0;
          var e := m.value.1;
          out := line[..k] + Underscored(line[k..e]) + line[e..];
        }
        assert out == ConvertLine(line);
      }
      assert out == LineAt(lines, i);
      result := result + [out];
      i := i + 1;
    }
    assert ConvertLines(lines)[..|lines|] == ConvertLines(lines);
    r := Join(result, "\n");
  }

  lemma {:induction false} DotsOnlyAppend(a: string, b: string, c: string, d: string)
    requires DotsOnly(a, c) && DotsOnly(b, d)
    ensures DotsOnly(a + b, c + d)
  {
    assert forall i :: 0 <= i < |a + b| ==> (a + b)[i] == if i < |a| then a[i] else b[i - |a|];
    assert forall i :: 0 <= i < |c + d| ==> (c + d)[i] == if i < |c| then c[i] else d[i - |c|];
  }

  lemma {:induction false} JoinDotsOnly(a: seq<string>, b: seq<string>, sep: string)
    requires |a| == |b| && forall i :: 0 <= i < |a| ==> DotsOnly(a[i], b[i])
    ensures DotsOnly(Join(a, sep), Join(b, sep))
  {
    if |a| > 1 {
      JoinDotsOnly(a[1..], b[1..], sep);
      DotsOnlyAppend(a[0], sep, b[0], sep);
      DotsOnlyAppend(a[0] + sep, Join(a[1..], sep), b[0] + sep, Join(b[1..], sep));
    }
  }

  /** The converted text has the length of the original and differs from it
      only where a dot became an underscore. */
  lemma ConvertDotsOnly(text: string)
    ensures DotsOnly(text, Convert(text))
    ensures |Convert(text)| == |text|
  {
    var lines := Split(text, '\n');
    JoinDotsOnly(lines, ConvertLines(lines), "\n");
    JoinSplit(text, '\n');
  }

  /** The converted text has the original's lines, one for one: delimiter
      lines and lines inside a text field unchanged, the others rewritten. */
  lemma ConvertByLine(text: string)
    ensures Split(Convert(text), '\n') == ConvertLines(Split(text, '\n'))
    ensures |Split(Convert(text), '\n')| == |Split(text, '\n')|
  {
    var lines := Split(text, '\n');
    var out := ConvertLines(lines);
    forall i | 0 <= i < |out| ensures '\n' !in out[i] {
      assert DotsOnly(lines[i], out[i]);
    }
    SplitJoin(out, '\n');
  }

  /** Rewriting keeps every line's delimiter status. */
  lemma SameDelimiters(lines: seq<string>)
    ensures forall i :: 0 <= i < |lines| ==> IsDelimiter(ConvertLines(lines)[i]) == IsDelimiter(lines[i])
  {
    var out := ConvertLines(lines);
    forall i | 0 <= i < |lines| ensures IsDelimiter(out[i]) == IsDelimiter(lines[i]) {
      assert DotsOnly(lines[i], out[i]);
      if |lines[i]| > 0 {
        assert out[i][0] == lines[i][0] || out[i][0] == '_';
      }
    }
  }

  lemma {:induction false} SameInside(a: seq<string>, b: seq<string>, i: nat)
    requires |a| == |b| && i <= |a|
    requires forall j :: 0 <= j < |a| ==> IsDelimiter(a[j]) == IsDelimiter(b[j])
    ensures Inside(a, i) == Inside(b, i)
  {
    if i > 0 {
      SameInside(a, b, i - 1);
    }
  }

  /** Converting twice gives what converting once gives. */
  lemma ConvertIdempotent(text: string)
    ensures Convert(Convert(text)) == Convert(text)
  {
    var lines := Split(text, '\n');
    var out := ConvertLines(lines);
    ConvertByLine(text);
    SameDelimiters(lines);
    forall i | 0 <= i < |out| ensures LineAt(out, i) == out[i] {
      SameInside(out, lines, i);
      ConvertLineIdempotent(lines[i]);
    }
    assert ConvertLines(out) == out;
  }

  // ---------------------------------------------------------------------------
  // Worked examples
  // ---------------------------------------------------------------------------

  /** Converting lines joined by newlines converts each line. */
  lemma ConvertJoined(lines: seq<string>)
    requires |lines| >= 1 && forall i :: 0 <= i < |lines| ==> '\n' !in lines[i]
    ensures Convert(Join(lines, "\n")) == Join(ConvertLines(lines), "\n")
  {
    SplitJoin(lines, '\n');
  }

  /** Two lines outside any text field are rewritten one by one. */
  lemma ConvertTwoLines(l0: string, l1: string)
    requires '\n' !in l0 && '\n' !in l1 && !IsDelimiter(l0) && !IsDelimiter(l1)
    ensures Convert(l0 + "\n" + l1) == ConvertLine(l0) + "\n" + ConvertLine(l1)
  {
    var lines := [l0, l1];
    assert Join(lines, "\n") == l0 + "\n" + l1;
    ConvertJoined(lines);
    assert !Inside(lines, 0) && !Inside(lines, 1);
    assert ConvertLines(lines) == [ConvertLine(l0), ConvertLine(l1)];
  }

  /** The example lines `_cell.length_a 10.5` and `_cell.length_b 12.3`: the
      name is rewritten and the number after it is kept. */
  lemma CellLine(line: string, converted: string)
    requires line == "_cell.length_a 10.5" || line == "_cell.length_b 12.3"
    requires converted == "_cell_length_" + [line[13]] + line[14..]
    ensures ConvertLine(line) == converted && '\n' !in line
  {
    CellLineParts(line);
    ConvertLineAt(line, 0, 14);
    CellLineText(line, converted);
  }

  lemma CellLineParts(line: string)
    requires line == "_cell.length_a 10.5" || line == "_cell.length_b 12.3"
    ensures AllNameChars(line[1..14]) && AllSpace(line[..0]) && line[0] == '_' && !IsNameChar(line[14])
    ensures '\n' !in line
  {
  }

  lemma CellLineText(line: string, converted: string)
    requires line == "_cell.length_a 10.5" || line == "_cell.length_b 12.3"
    requires converted == "_cell_length_" + [line[13]] + line[14..]
    ensures line[..0] + Underscored(line[0..14]) + line[14..] == converted
  {
    assert Underscored(line[0..14]) == "_cell_length_" + [line[13]];
  }

  /** A field of one line, then a line after it: only the line after the
      field is rewritten. */
  lemma ConvertField(inner: string, after: string)
    requires '\n' !in inner && '\n' !in after && !IsDelimiter(inner) && !IsDelimiter(after)
    ensures Convert(Join([";", inner, ";", after], "\n")) == Join([";", inner, ";", ConvertLine(after)], "\n")
  {
    var lines := [";", inner, ";", after];
    ConvertJoined(lines);
    assert ";"[..1] == ";";
    assert IsDelimiter(lines[0]) && IsDelimiter(lines[2]);
    assert !Inside(lines, 0);
    assert Inside(lines, 1);
    assert Inside(lines, 2);
    assert !Inside(lines, 3);
    assert ConvertLines(lines) == [";", inner, ";", ConvertLine(after)];
  }


  // ---------------------------------------------------------------------------
  // validate_cif_data_name
  // ---------------------------------------------------------------------------

  /** `^_[a-zA-Z0-9_.\-]+$`, where `$` also accepts one final newline. */
  function ValidateCifDataName(name: string): (ok: bool)
    ensures ok <==> |name| >= 2 && name[0] == '_' &&
                    (AllNameChars(name[1..]) || (|name| >= 3 && name[|name| - 1] == '\n' && AllNameChars(name[1..|name| - 1])))
  {
    if name == "" || !StartsWith(name, "_") then false
    else
      var e := Run(name, 1, IsNameChar);
      assert AllNameChars(name[1..e]);
      e > 1 && (e == |name| || (e == |name| - 1 && name[e] == '\n'))
  }

  /** The check as written lets a name through with a newline at its end. */
  lemma NewlineAccepted()
    ensures ValidateCifDataName("_cell\n") && '\n' in "_cell\n"
  {
    assert AllNameChars("_cell\n"[1..5]);
  }

  /** A CIF data name: `_` and then one or more name characters, nothing else. */
  function IsCifDataName(name: string): (ok: bool)
    ensures ok <==> |name| >= 2 && name[0] == '_' && AllNameChars(name[1..])
  {
    if name == "" || !StartsWith(name, "_") then false
    else
      var e := Run(name, 1, IsNameChar);
      assert AllNameChars(name[1..e]);
      e > 1 && e == |name|
  }

  /** The strict check accepts what the written check accepts, except the
      names ending in a newline. */
  lemma StrictCheck(name: string)
    ensures IsCifDataName(name) <==> ValidateCifDataName(name) && name[|name| - 1] != '\n'
  {
    if ValidateCifDataName(name) && name[|name| - 1] == '\n' {
      assert !IsNameChar(name[|name| - 1]);
    }
  }

  /** A valid name, rewritten, is still valid. */
  lemma ValidAfterUnderscore(name: string)
    requires IsCifDataName(name)
    ensures IsCifDataName(Underscored(name))
  {
    var u := Underscored(name);
    assert u[1..] == Underscored(name[1..]);
  }

  // ---------------------------------------------------------------------------
  // extract_cif_from_json_response
  // ---------------------------------------------------------------------------

  /** A parsed JSON value; an object keeps its keys in order.  `json.loads`
      keeps one entry per key (the last), so the objects met here have
      distinct keys; the type does not enforce it. */
  datatype Json =
    | JNull
    | JBool(b: bool)
    | JNumber(n: int)
    | JString(s: string)
    | JArray(items: seq<Json>)
    | JObject(fields: seq<(string, Json)>)

  /** The answer: the content found, nothing, or an exception the function
      does not catch (`.items()` on something that is not an object). */
  datatype Extracted = Found(content: Json) | NotFound | AttributeError

  /** Python's `key in v` for a JSON value: a key of an object, an element of
      an array, a substring of a string; None means a TypeError. */
  function HasMember(v: Json, key: string): Option<bool> {
    match v
    case JObject(fields) => Some(HasKey(fields, key))
    case JArray(items) => Some(JString(key) in items)
    case JString(s) => Some(Contains(s, key))
    case _ => None
  }

  /** `key in v` followed by `v[key]`: the value when v is an object holding
      the key; None when the test fails or either step raises. */
  function Member(v: Json, key: string): (r: Option<Json>)
    ensures r.Some? <==> v.JObject? && HasKey(v.fields, key)
    ensures r.Some? ==> Get(v.fields, key) == Some(r.value)
  {
    if v.JObject? && HasKey(v.fields, key) then Some(Get(v.fields, key).value) else None
  }

  /** `json_data['payload']['datasets'][0]['data_files']` with the guards of
      the source; None wherever it returns None or catches an error. */
  function DataFiles(response: Json): (r: Option<Json>)
    ensures r.Some? <==>
              && response.JObject? && HasKey(response.fields, "payload")
              && var payload := Get(response.fields, "payload").value;
                 && payload.JObject? && HasKey(payload.fields, "datasets")
                 && var datasets := Get(payload.fields, "datasets").value;
                    && datasets.JArray? && |datasets.items| > 0
                    && datasets.items[0].JObject? && HasKey(datasets.items[0].fields, "data_files")
    ensures r.Some? ==>
              var payload := Get(response.fields, "payload").value;
              var first := Get(payload.fields, "datasets").value.items[0];
              Get(first.fields, "data_files") == Some(r.value)
  {
    match Member(response, "payload")
    case None => None
    case Some(payload) =>
      match Member(payload, "datasets")
      case None => None
      case Some(datasets) =>
        if datasets.JArray? && |datasets.items| > 0 then Member(datasets.items[0], "data_files")
        else None
  }

  /** A data file entry the search passes over: not named `.cif`, or an entry
      that does not hold `content` and does not raise. */
  predicate Skipped(entry: (string, Json)) {
    !EndsWith(entry.0, ".cif") || HasMember(entry.1, "content") == Some(false)
  }

  /** The loop over `data_files.items()`. */
  function Scan(files: seq<(string, Json)>): (r: Extracted)
    ensures r != AttributeError
    ensures r.Found? ==> exists i :: 0 <= i < |files| && FirstCif(files, i) && Member(files[i].1, "content") == Some(r.content)
    ensures (forall i :: 0 <= i < |files| ==> Skipped(files[i])) ==> r == NotFound
    decreases |files|, 1
  {
    if files == [] then NotFound
    else
      var (name, info) := files[0];
      if !EndsWith(name, ".cif") then ScanRest(files)
      else match HasMember(info, "content")
        case None => NotFound
        case Some(false) => ScanRest(files)
        case Some(true) =>
          match Member(info, "content")
          case None => NotFound
          case Some(c) =>
            assert FirstCif(files, 0);
            Found(c)
  }

  function ScanRest(files: seq<(string, Json)>): (r: Extracted)
    requires files != [] && Skipped(files[0])
    ensures r != AttributeError
    ensures r.Found? ==> exists i :: 0 <= i < |files| && FirstCif(files, i) && Member(files[i].1, "content") == Some(r.content)
    ensures (forall i :: 1 <= i < |files| ==> Skipped(files[i])) ==> r == NotFound
    decreases |files|, 0
  {
    var r := Scan(files[1..]);
    if r.Found? then
      var j :| 0 <= j < |files[1..]| && FirstCif(files[1..], j) && Member(files[1..][j].1, "content") == Some(r.content);
      assert FirstCif(files, j + 1);
      r
    else r
  }

  /** Entry i is the first that the search does not pass over. */
  predicate FirstCif(files: seq<(string, Json)>, i: nat) {
    i < |files| && !Skipped(files[i]) && forall j :: 0 <= j < i ==> Skipped(files[j])
  }

  /** `extract_cif_from_json_response`. */
  function ExtractCif(response: Json): (r: Extracted)
    ensures DataFiles(response).None? ==> r == NotFound
    ensures r.Found? ==> DataFiles(response).Some? && DataFiles(response).value.JObject?
    ensures DataFiles(response).Some? ==> (r == AttributeError <==> !DataFiles(response).value.JObject?)
    ensures DataFiles(response).Some? && DataFiles(response).value.JObject? &&
            (forall i :: 0 <= i < |DataFiles(response).value.fields| ==> Skipped(DataFiles(response).value.fields[i])) ==>
              r == NotFound
  {
    match DataFiles(response)
    case None => NotFound
    case Some(files) => if files.JObject? then Scan(files.fields) else AttributeError
  }

  /** The search stops at the first entry it does not pass over: it returns
      that entry's content when the entry is an object holding `content`, and
      nothing otherwise. */
  lemma {:induction false} ScanFirst(files: seq<(string, Json)>, i: nat)
    requires FirstCif(files, i)
    ensures Scan(files) == match Member(files[i].1, "content")
                           case Some(c) => Found(c)
                           case None => NotFound
  {
    if i > 0 {
      assert FirstCif(files[1..], i - 1);
      ScanFirst(files[1..], i - 1);
    }
  }

  /** In the data files of the first dataset, the first entry the search
      does not pass over decides the answer: its content, or nothing. */
  lemma ExtractCifFirst(response: Json, i: nat)
    requires DataFiles(response).Some? && DataFiles(response).value.JObject?
    requires FirstCif(DataFiles(response).value.fields, i)
    ensures ExtractCif(response) == match Member(DataFiles(response).value.fields[i].1, "content")
                                    case Some(c) => Found(c)
                                    case None => NotFound
  {
    ScanFirst(DataFiles(response).value.fields, i);
  }
}
