/** The header grammar of TSC files and of the extra-header block of TSCB
    files (`parse_header`): after stripping, every line either opens a field
    with `KEY:value` (exactly one colon; the value keeps everything after the
    colon, leading space included) or, having no colon, continues the current
    field's value on a new line. */
module TscHeader {
  import opened Common
  import opened Text

  datatype HeaderError = MalformedHeaderLine(line: string)

  /** The loop state of `parse_header`: the fields closed so far, the key being
      read (None before the first field) and its value so far. */
  datatype Scan = Scan(header: Entries<string, string>, key: Option<string>, entry: string)

  const Start: Scan := Scan([], None, "")

  /** One iteration of the loop over the header lines. */
  function Step(st: Scan, line: string): Result<Scan, HeaderError> {
    var parts := Split(line, ':');
    if |parts| == 2 then
      var header := if st.key.Some? then Put(st.header, st.key.value, st.entry) else st.header;
      Ok(Scan(header, Some(parts[0]), parts[1]))
    else if |parts| == 1 && st.key.Some? then
      Ok(st.(entry := st.entry + "\n" + parts[0]))
    else
      Err(MalformedHeaderLine(Join(parts, ":")))
  }

  /** The loop over the remaining lines, stopping at the first malformed one. */
  function Run(st: Scan, lines: seq<string>): Result<Scan, HeaderError>
    decreases |lines|
  {
    if lines == [] then Ok(st)
    else match Step(st, lines[0])
      case Err(e) => Err(e)
      case Ok(st') => Run(st', lines[1..])
  }

  /** The assignment after the loop that closes the last field. */
  function Finish(st: Scan): Entries<string, string> {
    if st.key.Some? then Put(st.header, st.key.value, st.entry) else st.header
  }

  /** `parse_header(s)`. */
  function ParseHeader(s: string): (r: Result<Entries<string, string>, HeaderError>)
    ensures Strip(s) == [] ==> r == Ok([])
    ensures r.Ok? ==> DistinctKeys(r.value)
    ensures r.Ok? ==> forall i :: 0 <= i < |r.value| ==>
                        ':' !in r.value[i].0 && '\n' !in r.value[i].0 && ':' !in r.value[i].1
  {
    if Strip(s) == [] then Ok([])
    else
      var lines := Split(Strip(s), '\n');
      RunKeepsShape(Start, lines);
      match Run(Start, lines)
      case Err(e) => Err(e)
      case Ok(st) => Ok(Finish(st))
  }

  /** Keys and values never hold a colon, keys never a line break, and a key
      is never repeated. */
  ghost predicate Shaped(st: Scan) {
    && DistinctKeys(st.header)
    && (forall i :: 0 <= i < |st.header| ==>
          ':' !in st.header[i].0 && '\n' !in st.header[i].0 && ':' !in st.header[i].1)
    && (st.key.Some? ==> ':' !in st.key.value && '\n' !in st.key.value)
    && ':' !in st.entry
  }

  lemma {:induction false} RunKeepsShape(st: Scan, lines: seq<string>)
    requires Shaped(st)
    requires forall i :: 0 <= i < |lines| ==> '\n' !in lines[i]
    ensures Run(st, lines).Ok? ==> Shaped(Run(st, lines).value)
    ensures Run(st, lines).Ok? ==> Shaped(Run(st, lines).value.(header := Finish(Run(st, lines).value)))
    decreases |lines|
  {
    if lines == [] {
      assert Shaped(st.(header := Finish(st)));
    } else {
      var parts := Split(lines[0], ':');
      JoinSplit(lines[0], ':');
      if |parts| == 2 {
        assert Join(parts, [':']) == parts[0] + [':'] + parts[1];
        assert '\n' !in parts[0];
      } else if |parts| == 1 {
        assert Join(parts, [':']) == parts[0];
      }
      match Step(st, lines[0])
      case Err(_) =>
      case Ok(st') =>
        RunKeepsShape(st', lines[1..]);
    }
  }

  // ---------------------------------------------------------------------------
  // The loop as `parse_header` runs it
  // ---------------------------------------------------------------------------

  /** `parse_header`, line by line with the key and value being read. */
  method ParseHeaderLines(s: string) returns (r: Result<Entries<string, string>, HeaderError>)
    ensures r == ParseHeader(s)
  {
    if Strip(s) == [] {
      return Ok([]);
    }
    var lines := Split(Strip(s), '\n');
    var header: Entries<string, string> := [];
    var key: Option<string> := None;
    var entry := "";
    var i := 0;
    while i < |lines|
      invariant 0 <= i <= |lines|
      invariant Run(Start, lines) == Run(Scan(header, key, entry), lines[i..])
    {
      assert lines[i..][0] == lines[i] && lines[i..][1..] == lines[i + 1..];
      var parts := Split(lines[i], ':');
      if |parts| == 2 && key.Some? {
        header := Put(header, key.value, entry);
      }
      if |parts| == 2 {
        key, entry := Some(parts[0]), parts[1];
      } else if |parts| == 1 && key.Some? {
        entry := entry + "\n" + parts[0];
      } else {
        return Err(MalformedHeaderLine(Join(parts, ":")));
      }
      i := i + 1;
    }
    if key.Some? {
      header := Put(header, key.value, entry);
    }
    return Ok(header);
  }

  // ---------------------------------------------------------------------------
  // When parsing fails
  // ---------------------------------------------------------------------------

  function Colons(line: string): nat {
    if line == [] then 0 else (if line[0] == ':' then 1 else 0) + Colons(line[1..])
  }

  lemma {:induction false} SplitCount(line: string, c: char)
    requires c == ':'
    ensures |Split(line, c)| == Colons(line) + 1
  {
    if line != [] {
      SplitCount(line[1..], c);
    }
  }

  /** A line the grammar refuses: two or more colons, or no colon while no
      field is open. */
  predicate Refused(line: string, open: bool) {
    Colons(line) >= 2 || (Colons(line) == 0 && !open)
  }

  /** The loop fails exactly at the first refused line, and reports that line. */
  lemma {:induction false} RunFailsAtFirstRefused(st: Scan, lines: seq<string>)
    ensures Run(st, lines).Err? <==>
              exists j :: 0 <= j < |lines| && Refused(lines[j], j > 0 || st.key.Some?)
    ensures Run(st, lines).Err? ==>
              exists j :: 0 <= j < |lines| && Refused(lines[j], j > 0 || st.key.Some?) &&
                          Run(st, lines) == Err(MalformedHeaderLine(lines[j])) &&
                          forall m :: 0 <= m < j ==> !Refused(lines[m], m > 0 || st.key.Some?)
    decreases |lines|
  {
    if lines != [] {
      SplitCount(lines[0], ':');
      JoinSplit(lines[0], ':');
      match Step(st, lines[0])
      case Err(e) =>
        assert Refused(lines[0], st.key.Some?);
      case Ok(st') =>
        assert st'.key.Some?;
        assert !Refused(lines[0], st.key.Some?);
        RunFailsAtFirstRefused(st', lines[1..]);
        if Run(st', lines[1..]).Err? {
          var j :| 0 <= j < |lines[1..]| && Refused(lines[1..][j], j > 0 || st'.key.Some?) &&
                   Run(st', lines[1..]) == Err(MalformedHeaderLine(lines[1..][j])) &&
                   forall m :: 0 <= m < j ==> !Refused(lines[1..][m], m > 0 || st'.key.Some?);
          assert Refused(lines[j + 1], j + 1 > 0 || st.key.Some?);
          forall m | 0 <= m < j + 1 ensures !Refused(lines[m], m > 0 || st.key.Some?) {
            if m > 0 {
              assert lines[m] == lines[1..][m - 1];
            }
          }
        } else {
          forall j | 0 <= j < |lines| ensures !Refused(lines[j], j > 0 || st.key.Some?) {
            if j > 0 {
              assert lines[j] == lines[1..][j - 1];
            }
          }
        }
    }
  }

  /** `parse_header` raises "Malformed header line" exactly when some stripped
      line has two or more colons, or the first one has none. */
  lemma ParseHeaderFails(s: string)
    ensures ParseHeader(s).Err? <==>
              Strip(s) != [] &&
              var lines := Split(Strip(s), '\n');
              exists j :: 0 <= j < |lines| && Refused(lines[j], j > 0)
  {
    if Strip(s) != [] {
      RunFailsAtFirstRefused(Start, Split(Strip(s), '\n'));
    }
  }

  // ---------------------------------------------------------------------------
  // Reading back what `to_file` writes
  // ---------------------------------------------------------------------------

  /** The line `f"{name}: {entry}"` that `TSCBFile.to_file` writes per field. */
  function HeaderLine(name: string, entry: string): string {
    name + ": " + entry
  }

  function HeaderLines(fields: Entries<string, string>): (lines: seq<string>)
    ensures |lines| == |fields|
    ensures forall i :: 0 <= i < |fields| ==> lines[i] == HeaderLine(fields[i].0, fields[i].1)
  {
    if fields == [] then [] else [HeaderLine(fields[0].0, fields[0].1)] + HeaderLines(fields[1..])
  }

  /** The header text `"\n".join(f"{name}: {entry}" ...)`. */
  function HeaderText(fields: Entries<string, string>): string {
    Join(HeaderLines(fields), "\n")
  }

  /** What parsing gives back for each field: the value behind the colon,
      which starts with the space `to_file` put there. */
  function Spaced(fields: Entries<string, string>): (r: Entries<string, string>)
    ensures |r| == |fields|
    ensures forall i :: 0 <= i < |fields| ==> r[i] == (fields[i].0, " " + fields[i].1)
  {
    if fields == [] then [] else [(fields[0].0, " " + fields[0].1)] + Spaced(fields[1..])
  }

  /** Fields whose text reads back: no key holds a colon or a line break, no
      value a colon, and the text has no whitespace at either end (which
      `strip` would remove). */
  predicate Readable(fields: Entries<string, string>) {
    && DistinctKeys(fields)
    && (forall i :: 0 <= i < |fields| ==>
          ':' !in fields[i].0 && '\n' !in fields[i].0 && ':' !in fields[i].1)
    && var text := HeaderText(fields);
       text == [] || (!IsSpace(text[0]) && !IsSpace(text[|text| - 1]))
  }

  /** The header text of readable fields parses back to the same fields, each
      value with one more leading space; line breaks inside a value come back
      as continuation lines. */
  lemma {:induction false} HeaderTextParses(fields: Entries<string, string>)
    requires Readable(fields)
    ensures ParseHeader(HeaderText(fields)) == Ok(Spaced(fields))
  {
    var text := HeaderText(fields);
    StripUnchanged(text);
    if fields == [] {
      assert text == [];
    } else {
      assert |text| > 0 by {
        JoinLength(HeaderLines(fields), "\n");
        SumLengthsPositive(HeaderLines(fields));
      }
      assert Split(text, '\n') == Lines(fields) by {
        SplitJoinPieces(HeaderLines(fields));
        LinesAreSplitEach(fields);
      }
      RunAllFields(fields);
    }
  }

  /** The lines of all fields, read from the start, give back the spaced fields. */
  lemma {:induction false} RunAllFields(fields: Entries<string, string>)
    requires fields != [] && DistinctKeys(fields)
    requires forall i :: 0 <= i < |fields| ==>
               ':' !in fields[i].0 && '\n' !in fields[i].0 && ':' !in fields[i].1
    ensures Run(Start, Lines(fields)).Ok?
    ensures Finish(Run(Start, Lines(fields)).value) == Spaced(fields)
  {
    var st := Scan([], Some(fields[0].0), " " + fields[0].1);
    RunField(Start, fields[0].0, fields[0].1, Lines(fields[1..]));
    RunFields(st, fields[1..]);
    assert Finish(st) == [] + [(fields[0].0, " " + fields[0].1)];
    assert Spaced(fields) == [(fields[0].0, " " + fields[0].1)] + Spaced(fields[1..]);
    assert PutAll([], Spaced(fields)) == PutAll(Finish(st), Spaced(fields[1..]));
    assert DistinctKeys([] + Spaced(fields));
    PutAllDistinct([], Spaced(fields));
  }

  lemma {:induction false} SumLengthsPositive(lines: seq<string>)
    requires |lines| > 0 && |lines[0]| > 0
    ensures SumLengths(lines) > 0
  {
  }

  /** The physical lines the header text of some fields splits into. */
  function Lines(fields: Entries<string, string>): seq<string> {
    if fields == [] then [] else Split(HeaderLine(fields[0].0, fields[0].1), '\n') + Lines(fields[1..])
  }

  lemma {:induction false} SplitJoinPieces(lines: seq<string>)
    requires |lines| >= 1
    ensures Split(Join(lines, "\n"), '\n') == SplitEach(lines)
  {
    if |lines| == 1 {
    } else {
      SplitJoinPieces(lines[1..]);
      SplitAppend(lines[0], '\n', Join(lines[1..], "\n"));
    }
  }

  function SplitEach(lines: seq<string>): seq<string> {
    if lines == [] then [] else Split(lines[0], '\n') + SplitEach(lines[1..])
  }

  lemma {:induction false} LinesAreSplitEach(fields: Entries<string, string>)
    ensures Lines(fields) == SplitEach(HeaderLines(fields))
  {
    if fields != [] {
      LinesAreSplitEach(fields[1..]);
      assert HeaderLines(fields)[1..] == HeaderLines(fields[1..]);
    }
  }

  lemma {:induction false} RunAppend(st: Scan, a: seq<string>, b: seq<string>)
    ensures Run(st, a + b) == match Run(st, a) case Err(e) => Err(e) case Ok(st') => Run(st', b)
    decreases |a|
  {
    if a == [] {
      assert a + b == b;
    } else {
      assert (a + b)[0] == a[0] && (a + b)[1..] == a[1..] + b;
      match Step(st, a[0])
      case Err(_) =>
      case Ok(st') => RunAppend(st', a[1..], b);
    }
  }

  /** Continuation lines (no colon) extend the open field's value. */
  lemma {:induction false} RunContinuation(st: Scan, more: seq<string>)
    requires st.key.Some?
    requires forall i :: 0 <= i < |more| ==> ':' !in more[i]
    ensures Run(st, more) == Ok(st.(entry := st.entry + NewlineEach(more)))
    decreases |more|
  {
    if more != [] {
      SplitNoSep(more[0], ':');
      var st' := st.(entry := st.entry + "\n" + more[0]);
      assert Step(st, more[0]) == Ok(st');
      RunContinuation(st', more[1..]);
      var tail := NewlineEach(more[1..]);
      assert NewlineEach(more) == "\n" + more[0] + tail;
      assert st.entry + "\n" + more[0] + tail == st.entry + NewlineEach(more);
    } else {
      assert st.entry + NewlineEach(more) == st.entry;
    }
  }

  /** `"".join("\n" + line for line in lines)`. */
  function NewlineEach(lines: seq<string>): string {
    if lines == [] then [] else "\n" + lines[0] + NewlineEach(lines[1..])
  }

  lemma {:induction false} JoinNewline(pieces: seq<string>)
    requires |pieces| >= 1
    ensures Join(pieces, "\n") == pieces[0] + NewlineEach(pieces[1..])
  {
    if |pieces| > 1 {
      JoinNewline(pieces[1..]);
    }
  }

  /** The lines of one field open it and then continue it to its full value. */
  lemma RunField(st: Scan, name: string, entry: string, rest: seq<string>)
    requires ':' !in name && '\n' !in name && ':' !in entry
    ensures Run(st, Split(HeaderLine(name, entry), '\n') + rest) ==
            Run(Scan(Finish(st), Some(name), " " + entry), rest)
  {
    var pieces := Split(entry, '\n');
    var first := name + ": " + pieces[0];
    var whole := [first] + pieces[1..];
    FieldLines(name, entry);
    var opening := Scan(Finish(st), Some(name), " " + pieces[0]);
    OpenStep(st, name, pieces[0]);
    RunContinuation(opening, pieces[1..]);
    FieldValue(entry);
    assert whole[0] == first && whole[1..] == pieces[1..];
    assert Run(st, whole) == Ok(Scan(Finish(st), Some(name), " " + entry));
    RunAppend(st, whole, rest);
  }

  /** The lines of a field: the opening line with the first line of the
      value, then the value's further lines, none with a colon. */
  lemma FieldLines(name: string, entry: string)
    requires ':' !in name && '\n' !in name && ':' !in entry
    ensures var pieces := Split(entry, '\n');
            && Split(HeaderLine(name, entry), '\n') == [name + ": " + pieces[0]] + pieces[1..]
            && forall i :: 0 <= i < |pieces| ==> ':' !in pieces[i]
  {
    SplitPrefix(name + ": ", entry, '\n');
    SplitAvoids(entry, '\n', ':');
  }

  /** The opening line of a field closes the previous field and starts the
      value with the text after the colon. */
  lemma OpenStep(st: Scan, name: string, piece: string)
    requires ':' !in name && ':' !in piece
    ensures Step(st, name + ": " + piece) == Ok(Scan(Finish(st), Some(name), " " + piece))
  {
    assert name + ": " + piece == name + [':'] + (" " + piece);
    SplitAppend(name, ':', " " + piece);
    SplitNoSep(name, ':');
    SplitNoSep(" " + piece, ':');
  }

  /** The value is its first line followed by the others, each after a line break. */
  lemma FieldValue(entry: string)
    ensures var pieces := Split(entry, '\n');
            " " + pieces[0] + NewlineEach(pieces[1..]) == " " + entry
  {
    var pieces := Split(entry, '\n');
    JoinNewline(pieces);
    JoinSplit(entry, '\n');
  }

  /** A prefix without the separator sticks to the first piece. */
  lemma {:induction false} SplitPrefix(p: string, s: string, c: char)
    requires c !in p
    ensures Split(p + s, c) == [p + Split(s, c)[0]] + Split(s, c)[1..]
  {
    if p != [] {
      assert (p + s)[1..] == p[1..] + s;
      SplitPrefix(p[1..], s, c);
      assert [p[0]] + (p[1..] + Split(s, c)[0]) == p + Split(s, c)[0];
    } else {
      assert p + s == s;
      assert p + Split(s, c)[0] == Split(s, c)[0];
      assert Split(s, c) == [Split(s, c)[0]] + Split(s, c)[1..];
    }
  }

  /** After the first field, each further field closes the previous one. */
  lemma {:induction false} RunFields(st: Scan, fields: Entries<string, string>)
    requires st.key.Some?
    requires forall i :: 0 <= i < |fields| ==>
               ':' !in fields[i].0 && '\n' !in fields[i].0 && ':' !in fields[i].1
    ensures Run(st, Lines(fields)).Ok?
    ensures Finish(Run(st, Lines(fields)).value) == PutAll(Finish(st), Spaced(fields))
    decreases |fields|
  {
    if fields != [] {
      RunField(st, fields[0].0, fields[0].1, Lines(fields[1..]));
      var st' := Scan(Finish(st), Some(fields[0].0), " " + fields[0].1);
      RunFields(st', fields[1..]);
      assert Spaced(fields)[1..] == Spaced(fields[1..]);
    }
  }

  // ---------------------------------------------------------------------------
  // Examples
  // ---------------------------------------------------------------------------

  /** A field whose value goes on over a colon-free line, and the leading space
      the parser keeps. */
  lemma ContinuationExample(s: string)
    requires s == "TITLE: foo\nbar"
    ensures ParseHeader(s) == Ok([("TITLE", " foo\nbar")])
  {
    var fields := [("TITLE", "foo\nbar")];
    ExampleFields(fields);
    HeaderTextParses(fields);
  }

  lemma ExampleFields(fields: Entries<string, string>)
    requires fields == [("TITLE", "foo\nbar")]
    ensures Readable(fields)
    ensures HeaderText(fields) == "TITLE: foo\nbar"
    ensures Spaced(fields) == [("TITLE", " foo\nbar")]
  {
    assert fields[1..] == [];
    assert HeaderLine("TITLE", "foo\nbar") == "TITLE: foo\nbar";
    assert HeaderLines(fields) == ["TITLE: foo\nbar"];
    var text := HeaderText(fields);
    assert text == "TITLE: foo\nbar";
    assert !IsSpace(text[0]) && !IsSpace(text[|text| - 1]);
    assert DistinctKeys(fields);
    var spaced := Spaced(fields);
    assert |spaced| == 1 && spaced[0] == ("TITLE", " " + "foo\nbar");
    assert " " + "foo\nbar" == " foo\nbar";
  }
}
