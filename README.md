# QCrBox plugin for Olex2: a Dafny model of its core

This project models the core of `plugin-olex2qcrbox`, the Olex2 plugin
that runs QCrBox crystallography commands. The model covers:

- **Form-factor tables** (`qcrbox_plugin/tsc.py`).
  - A table holds a header dictionary and a data dictionary. The header's
    `SCATTERERS` entry names the atoms. The data dictionary maps each
    Miller index triple (h, k, l) to one complex form factor per atom.
  - Modelled: the header grammar of the TSC text format, the data-line
    parser, the `scatterers` getter and setter, and lookups by atom label.
  - Also modelled: the import from a CIF block, the binary TSCB reader and
    writer byte for byte, and the `read_tsc_file` front door that chooses
    a reader from the file suffix.
- **CIF text utilities** (`qcrbox_plugin/cif_utils.py`): the line-by-line
  rewrite of DDL2 data names (`_cell.length_a`) into DDL1 names
  (`_cell_length_a`), which leaves `;` text fields alone. Also the data
  name check and the search for the CIF file in a dataset download answer.
- **The plugin state record** (`qcrbox_plugin/state.py`), its resets, and
  the calculation status enumeration (`qcrbox_plugin/api_adapter.py`).
- **The interactive-command test** (`qcrbox_plugin/session_manager.py`).
- **The plugin object** (`olex2qcrbox.py`):
  - loading applications and commands, with their default parameter
    values;
  - the command list string;
  - the parameter store and its command-id coercion;
  - the output-CIF test;
  - the plugin's own copies of the interactive test and of the DDL
    converter.

## Form of the model

- **Python dictionaries** are sequences of key/value pairs in insertion
  order (`Common.Entries`).
  - Assignment replaces an existing pair in place or appends a new one
    (`Common.Put`).
  - `dict.update` and a comprehension assign in order (`Common.PutAll`),
    so a repeated key keeps its first position and its last value.
- **Objects the source mutates are classes:**
  - `TscFile.TscbFile`: `header` and `data`;
  - `PluginStates.PluginState`: every dataclass field;
  - `Olex2Plugin.QcrBoxPlugin`: the command-related attributes.

  Their methods state the whole new state through specification
  functions.
- **Loops become `method`s** with invariants, proved equal to a
  specification function:
  - `parse_header`;
  - the record comprehension of `from_file` and the writes of `to_file`;
  - the DDL converter;
  - `load_applications`.
- **Byte I/O.** A file is its bytes.
  - `fobj.read(n)` on the buffered binary file is `Tscb.ReadAt`: it
    returns at most n bytes, fewer at the end of the file. -1 reads to
    the end, and a length below -1 raises `ValueError` (`BadReadLength`).
  - `struct` integers are 32-bit little-endian (`Common.Int32Of` and
    `Common.Int32Le`).
  - A numpy `complex128` is kept as its 16 raw bytes: the model does no
    arithmetic on form factors.
- **Floats are parameters.** Python's `float()` is `parseFloat` and
  `re + 1j*im` is `complexOf`.
- **Text-format reader.** In `read_tsc_file`, the reader of the TSC text
  format is a parameter `readText`.
- **Exceptions** become `Result` and `Option` values whose error
  constructors name the exception and what it carries.

## Model

| member | source | states |
|---|---|---|
| Common.Int32Le | qcrbox_plugin/tsc.py:307 | `struct.pack("i", x)` gives four bytes that unpack to x again |
| Common.Int32LeOfInt32Of | qcrbox_plugin/tsc.py:270 | unpacking four bytes and packing the result gives the same bytes back |
| Common.AsciiDecode | qcrbox_plugin/tsc.py:272 | `decode("ASCII")` succeeds iff every byte is below 128; character i is byte i |
| Common.AsciiDecodeOfBytes | qcrbox_plugin/tsc.py:308-309 | ASCII text encoded and decoded again is the same text |
| Common.Put | qcrbox_plugin/tsc.py:275 | dict assignment: an existing key is replaced in place, a new key is appended, keys stay distinct |
| Common.GetPut | qcrbox_plugin/tsc.py:275 | after `d[k] = v`, `d[k]` is v and every other key reads as before |
| Common.GetPutAll | qcrbox_plugin/tsc.py:274 | after `d.update(kvs)`, a key reads as its last value in kvs, else as before |
| Common.PutAllDistinct | qcrbox_plugin/tsc.py:279-284 | a comprehension over distinct keys keeps all pairs in order |
| Text.JoinSplit | qcrbox_plugin/cif_utils.py:24-61 | joining the pieces of `s.split(c)` with c gives s back |
| Text.SplitJoin | qcrbox_plugin/tsc.py:303-305 | splitting a join of pieces free of the separator gives the pieces back |
| Text.Words | qcrbox_plugin/tsc.py:120 | `str.split()`: every word is non-empty and holds no whitespace |
| Text.WordsOfJoin | qcrbox_plugin/tsc.py:135 | words joined by single spaces split back into the same words |
| Text.StripEmpty | qcrbox_plugin/tsc.py:62 | `s.strip()` is empty iff s is all whitespace |
| Text.Lower | qcrbox_plugin/session_manager.py:52 | `lower()` keeps the length and lowers each character |
| Text.ContainsIff | qcrbox_plugin/session_manager.py:52 | the `in` test on strings holds iff the text occurs at some position |
| Text.IntToStringParses | qcrbox_plugin/tsc.py:100 | `int()` reads the decimal text of every integer back as that integer |
| TscHeader.ParseHeader | qcrbox_plugin/tsc.py:48-79 | blank text gives `{}`; a parsed header has distinct keys without `:` or newlines, and entries without `:` |
| TscHeader.ParseHeaderLines | qcrbox_plugin/tsc.py:62-79 | the loop over the lines returns exactly what ParseHeader specifies |
| TscHeader.RunKeepsShape | qcrbox_plugin/tsc.py:69-78 | every step of the loop keeps the keys distinct and free of `:` and newlines |
| TscHeader.RunFailsAtFirstRefused | qcrbox_plugin/tsc.py:69-77 | the loop raises iff some line has more than one colon, or is a continuation before any key; the error names the first such line |
| TscHeader.ParseHeaderFails | qcrbox_plugin/tsc.py:62-77 | parse_header raises iff the stripped text is non-blank and one of its lines is refused |
| TscHeader.RunContinuation | qcrbox_plugin/tsc.py:74-75 | colon-free lines after a key are appended to its entry, each after a newline |
| TscHeader.HeaderTextParses | qcrbox_plugin/tsc.py:303-305 | the header block `to_file` writes parses back to the same entries, each value with its leading space |
| TscHeader.ContinuationExample | qcrbox_plugin/tsc.py:73-78 | `"TITLE: foo\nbar"` parses to one entry whose value is `" foo\nbar"` |
| TscModel.DefaultHeaderShape | qcrbox_plugin/tsc.py:104-106 | a new table's header has TITLE `generic_tsc`, SYMM `expanded` and an empty SCATTERERS, with distinct keys |
| TscModel.Scatterers | qcrbox_plugin/tsc.py:108-120 | the getter returns non-empty labels without whitespace |
| TscModel.WithScatterers | qcrbox_plugin/tsc.py:122-135 | the setter leaves a SCATTERERS entry and keeps the keys distinct |
| TscModel.ScatterersRoundTrip | qcrbox_plugin/tsc.py:108-135 | setting plain labels and getting them gives the same labels; no other entry changes |
| TscModel.IndexOf | qcrbox_plugin/tsc.py:164-167 | `list.index`: the first position of the label; none iff it is absent |
| TscModel.Unknown | qcrbox_plugin/tsc.py:170-173 | exactly the requested labels that are not scatterers; empty iff all are known |
| TscModel.UnknownOne | qcrbox_plugin/tsc.py:171 | one requested label is reported iff it is not a scatterer |
| TscModel.UnknownAppend | qcrbox_plugin/tsc.py:171-174 | the unknown labels of `a + b` are those of `a` followed by those of `b`, so request order and repeated labels are kept in the message |
| TscModel.Column | qcrbox_plugin/tsc.py:168 | `f0js[index]` for every row, in key order; fails iff some row is too short |
| TscModel.Pick | qcrbox_plugin/tsc.py:164-165 | `f0js[indexes]` for every row: element j of row i is the row's element at position j of the index list |
| TscModel.LookupOne | qcrbox_plugin/tsc.py:166-174 | `tsc[atom]`: an unknown atom raises the error naming it; success means the atom is known |
| TscModel.LookupOneValues | qcrbox_plugin/tsc.py:166-168 | for a known atom, the lookup succeeds iff every row reaches its position, and then holds that column |
| TscModel.LookupMany | qcrbox_plugin/tsc.py:162-174 | `tsc[labels]`: unknown labels raise an error listing them all; an empty list raises IndexError unless there is no data; known labels succeed iff every row reaches each label's position; each row keeps its key |
| TscModel.LookupManyValues | qcrbox_plugin/tsc.py:163-165 | row i, column j holds the form factor at the first position of label j |
| TscModel.LookupManyUnknown | qcrbox_plugin/tsc.py:169-174 | any unknown label makes the lookup fail and is named in the error |
| TscModel.LookupOneAsMany | qcrbox_plugin/tsc.py:162-174 | looking up `[atom]` agrees with looking up `atom`, each value wrapped in a one-element row |
| TscModel.ParseValues | qcrbox_plugin/tsc.py:98-99 | every `re,im` token becomes complexOf of its two parsed halves; fails iff some token is not of that form |
| TscModel.ParseDataLine | qcrbox_plugin/tsc.py:82-100 | succeeds iff there are three integer words and then `re,im` tokens; fewer than three words fail |
| TscModel.ParseWords | qcrbox_plugin/tsc.py:97-100 | a line whose words are three integers and value tokens parses to those indices and values |
| TscModel.DataLineParses | qcrbox_plugin/tsc.py:82-100 | a line written as `h k l re,im ...` reads back as (h, k, l) and those form factors |
| Tscb.Flatten | qcrbox_plugin/tsc.py:311 | `f0js.tobytes()` holds 16 bytes per form factor |
| Tscb.ChunksFlatten | qcrbox_plugin/tsc.py:280-282 | `np.frombuffer` of the bytes of a row gives the row back |
| Tscb.RecordBytes | qcrbox_plugin/tsc.py:311 | one record is 12 + 16·n bytes |
| Tscb.DecodeRecord | qcrbox_plugin/tsc.py:280-282 | a record reads back as int32 indices and n form factors |
| Tscb.RecordRoundTrip | qcrbox_plugin/tsc.py:280-282 | a record written by `to_file` reads back as the same indices and row |
| Tscb.RecordsBytes | qcrbox_plugin/tsc.py:311 | all records in order, of the total size of their rows |
| Tscb.DecodeRecords | qcrbox_plugin/tsc.py:279-284 | count records of n form factors; fails iff the bytes run out before the last one |
| Tscb.RecordsRoundTrip | qcrbox_plugin/tsc.py:279-284 | written records read back unchanged, whatever bytes follow them |
| Tscb.ReadAt | qcrbox_plugin/tsc.py:269-281 | `fobj.read(n)` on a file opened `"rb"`: n bytes at the cursor, fewer at the end of the file, the rest for -1, and a ValueError iff n < -1 |
| Tscb.DecodeHeaderBlock | qcrbox_plugin/tsc.py:271-274 | a non-positive size keeps the default header; otherwise the block is read; keys stay distinct |
| Tscb.DecodeBlockText | qcrbox_plugin/tsc.py:272-274 | an ASCII block that the header grammar accepts is assigned over the defaults; the cursor moves past it |
| Tscb.DecodeTscb | qcrbox_plugin/tsc.py:250-285 | `from_file`: under 8 bytes raises struct.error; a table read has SCATTERERS, distinct keys and one form factor per scatterer in every row |
| Tscb.DecodeLabels | qcrbox_plugin/tsc.py:275-278 | the labels become the SCATTERERS entry; its word count gives the row length; the read raises ValueError iff the label length is below -1 |
| Tscb.LabelLengthRefused | qcrbox_plugin/tsc.py:270-275 | after a readable header block, `from_file` raises the read-length ValueError iff the label length is below -1 |
| Tscb.LabelLengthMinusTwo | qcrbox_plugin/tsc.py:270-275 | a label length of FE FF FF FF (-2) raises that ValueError whatever follows |
| Tscb.DecodeCount | qcrbox_plugin/tsc.py:277-284 | the record count and the records; rows have n form factors and distinct keys; its only failures are struct.error and a short record |
| Tscb.Extras | qcrbox_plugin/tsc.py:302-305 | the header entries other than SCATTERERS, TITLE and SYMM, in order |
| Tscb.ExtrasOne | qcrbox_plugin/tsc.py:302-305 | one entry goes into the block iff its name is not omitted |
| Tscb.ExtrasAppend | qcrbox_plugin/tsc.py:302-305 | the block follows header order: the extras of `a + b` are those of `a` followed by those of `b` |
| Tscb.EncodeTscb | qcrbox_plugin/tsc.py:287-311 | `to_file`: empty data raises before the file is opened; a missing SCATTERERS raises with an empty file |
| Tscb.FileSize | qcrbox_plugin/tsc.py:306-311 | a complete file has 8 + header block + labels + 4 + Σ(12 + 16·n) bytes |
| Tscb.ReadBackKeys | qcrbox_plugin/tsc.py:268-275 | read back, TITLE and SYMM are the defaults and SCATTERERS is the labels written |
| Tscb.RoundTrip | qcrbox_plugin/tsc.py:250-311 | a table that `to_file` can write reads back with the same data, the same labels and the other entries space-prefixed |
| Tscb.WrittenFile | qcrbox_plugin/tsc.py:306-311 | a written file holds the two lengths, then a header block the decoder parses, then the labels, count and records |
| Tscb.EncodedLayout | qcrbox_plugin/tsc.py:306-311 | the writes, in order, as one byte sequence |
| Tscb.DecodeAfterHeader | qcrbox_plugin/tsc.py:275-284 | after the header block, written labels, count and records are read back |
| Tscb.LabelsRoundTrip | qcrbox_plugin/tsc.py:275 | written labels read back as the same SCATTERERS text |
| Tscb.CountRoundTrip | qcrbox_plugin/tsc.py:277-284 | a written count and its records read back as the data |
| Tscb.HeaderAfterBlock | qcrbox_plugin/tsc.py:271-274 | a written header block reads back as the defaults followed by the extra entries |
| Tscb.HeaderPut | qcrbox_plugin/tsc.py:275 | assigning SCATTERERS after the block replaces the default entry in place |
| Tscb.ReadTscb | qcrbox_plugin/tsc.py:268-285 | the reader, with a cursor through the file, returns exactly DecodeTscb |
| Tscb.ReadHeaderBlock | qcrbox_plugin/tsc.py:270-274 | the header block read at the cursor equals DecodeHeaderBlock |
| Tscb.ReadHeaderText | qcrbox_plugin/tsc.py:272-274 | decoding and parsing a block of positive size equals DecodeBlockText |
| Tscb.ReadLabels | qcrbox_plugin/tsc.py:275-278 | reading the labels at the cursor equals DecodeLabels |
| Tscb.ReadCount | qcrbox_plugin/tsc.py:277-284 | reading the count and the records equals DecodeCount |
| Tscb.ReadRecords | qcrbox_plugin/tsc.py:279-284 | the comprehension loop assigns the records read into a dictionary, or fails as DecodeRecords does |
| Tscb.WriteTscb | qcrbox_plugin/tsc.py:287-311 | writing piece by piece leaves exactly the bytes EncodeTscb specifies |
| Tscb.PackRecords | qcrbox_plugin/tsc.py:311 | the records are packed one by one; this fails iff some index is outside int32 |
| TscCif.LabelValues | qcrbox_plugin/tsc.py:204 | a looped item gives its values; a single text is iterated character by character |
| TscCif.Zip3 | qcrbox_plugin/tsc.py:208-210 | `zip` stops at the shortest column |
| TscCif.ParseTriple | qcrbox_plugin/tsc.py:211 | `(int(h), int(k), int(l))`; fails iff one of them is no integer |
| TscCif.ParseIndices | qcrbox_plugin/tsc.py:211 | every triple, in order; fails iff some triple fails |
| TscCif.ParseFloats | qcrbox_plugin/tsc.py:214-219 | every token parsed in order; fails iff some token is no float |
| TscCif.Combine | qcrbox_plugin/tsc.py:220 | numpy broadcasting: equal lengths pair up, a length-one side repeats, anything else fails |
| TscCif.Rows | qcrbox_plugin/tsc.py:224 | `reshape((-1, n))`: count rows of n values |
| TscCif.RowsAt | qcrbox_plugin/tsc.py:224 | row i holds the values i·n up to i·n + n |
| TscCif.Zip | qcrbox_plugin/tsc.py:227 | indices paired with rows, in order |
| TscCif.Import | qcrbox_plugin/tsc.py:186-227 | a missing required item or labels item fails with the header untouched; once the required and labels items are there, the labels are set whatever fails later; a success has distinct keys and one value per scatterer per row |
| TscCif.ImportIsLoop | qcrbox_plugin/tsc.py:203-227 | a successful import is the read of the `_aspheric_ff` loop against the labels just set |
| TscCif.ImportLoopOk | qcrbox_plugin/tsc.py:207-227 | a successful loop read has all five columns, parses them, and is the reshaping of the parsed indices and form factors |
| TscCif.ImportLoopOfColumns | qcrbox_plugin/tsc.py:207-227 | with all columns parsed, the outcome is the reshaping's: its count checks and its table |
| TscCif.ReshapeRowMajor | qcrbox_plugin/tsc.py:224-227 | a table reshaped from distinct indices is row-major |
| TscCif.ImportRowMajor | qcrbox_plugin/tsc.py:203-227 | a successful import with distinct Miller indices holds entry i = the i-th index with form factors i·n up to i·n + n of the parsed columns |
| TscCif.ImportLoop | qcrbox_plugin/tsc.py:205-227 | the loop import succeeds only with scatterers, and its rows fit them |
| TscCif.Reshape | qcrbox_plugin/tsc.py:221-227 | no scatterers, a non-multiple and a count mismatch fail in that order; a success is the comprehension over the zipped rows |
| TscCif.ReshapeRows | qcrbox_plugin/tsc.py:224-227 | with distinct indices, row i is index i with values i·n up to i·n + n |
| TscCif.ReshapeLastWins | qcrbox_plugin/tsc.py:227 | a repeated index keeps its last row |
| TscCif.ImportLabels | qcrbox_plugin/tsc.py:204-227 | after a successful import of plain labels, the scatterers are those labels and every row has one value per label |
| TscFile.TscbFile.constructor | qcrbox_plugin/tsc.py:104-106 | the default header, no data, and no scatterers |
| TscFile.TscbFile.SetScatterers | qcrbox_plugin/tsc.py:122-135 | replaces SCATTERERS with the joined labels and changes nothing else; plain labels read back |
| TscFile.TscbFile.PopulateFromCifBlock | qcrbox_plugin/tsc.py:186-227 | the header and data become what Import gives; on failure the data are unchanged and the error is returned |
| TscFile.TscbFile.FromFile | qcrbox_plugin/tsc.py:250-285 | a new valid table holding exactly what DecodeTscb reads, or its error |
| TscFile.TscbFile.ToFile | qcrbox_plugin/tsc.py:287-311 | the bytes written are EncodeTscb of the table; no file is opened iff there is no data |
| TscFile.WriteThenRead | qcrbox_plugin/tsc.py:250-311 | a table written and read back has the same data and SCATTERERS text |
| TscFile.FinalName | qcrbox_plugin/tsc.py:29 | `Path(path).name`: the last non-empty component other than `.` |
| TscFile.Suffix | qcrbox_plugin/tsc.py:30 | `Path.suffix`: empty, or a dot and at least one further character, with no other dot |
| TscFile.NameSuffix | qcrbox_plugin/tsc.py:30-38 | `x.tscb` has suffix `.tscb`; a leading dot alone or a trailing dot gives no suffix |
| TscFile.ReadTscFile | qcrbox_plugin/tsc.py:11-45 | other suffixes give None; `.tscb` tries binary then text, `.tsc` the reverse; the ValueError iff both fail, carrying the first reader's error |
| TscFile.ReadWritten | qcrbox_plugin/tsc.py:29-37 | a file `to_file` wrote under a `.tscb` name reads back as the binary table |
| CifUtils.MatchDataName | qcrbox_plugin/cif_utils.py:30-50 | `^(\s*)(_[a-zA-Z0-9_.\-]+)`: whitespace, `_`, at least one name character, and the match ends where they stop |
| CifUtils.Underscored | qcrbox_plugin/cif_utils.py:53 | `replace('.', '_')`: same length, no dot left, nothing else changed |
| CifUtils.ConvertLine | qcrbox_plugin/cif_utils.py:44-59 | only dots turn into underscores; a line without a leading data name is unchanged |
| CifUtils.ConvertLineAt | qcrbox_plugin/cif_utils.py:45-56 | a line with a data name has exactly the name's dots replaced, the prefix and rest kept |
| CifUtils.ConvertLineNoName | qcrbox_plugin/cif_utils.py:57-59 | a line that does not start with a data name is kept as it is |
| CifUtils.ConvertLineIdempotent | qcrbox_plugin/cif_utils.py:44-59 | rewriting a line twice is rewriting it once |
| CifUtils.ConvertLines | qcrbox_plugin/cif_utils.py:32-59 | line i is kept inside a `;` text field or on a delimiter line, and rewritten otherwise |
| CifUtils.ConvertCif | qcrbox_plugin/cif_utils.py:6-61 | the loop with its text-field flag returns exactly Convert; the plugin's copy at olex2qcrbox.py lines 825-877 is the same loop |
| CifUtils.ConvertDotsOnly | qcrbox_plugin/cif_utils.py:52-56 | the whole text keeps its length and changes only dots into underscores |
| CifUtils.ConvertByLine | qcrbox_plugin/cif_utils.py:24-61 | the converted text has one line per input line, each converted by its position |
| CifUtils.SameDelimiters | qcrbox_plugin/cif_utils.py:33-37 | conversion keeps every delimiter line and creates none |
| CifUtils.ConvertIdempotent | qcrbox_plugin/cif_utils.py:6-61 | converting a converted text changes nothing |
| CifUtils.ConvertJoined | qcrbox_plugin/cif_utils.py:24-61 | converting newline-joined lines is joining their conversions |
| CifUtils.ConvertTwoLines | qcrbox_plugin/cif_utils.py:19-22 | two lines outside text fields are converted independently |
| CifUtils.CellLine | qcrbox_plugin/tests.py:18-20 | `_cell.length_a 10.5` becomes `_cell_length_a 10.5`, and likewise for `length_b` |
| CifUtils.ConvertField | qcrbox_plugin/tests.py:26-38 | a line inside a `;` text field is kept while the line after it is converted |
| CifUtils.ValidateCifDataName | qcrbox_plugin/cif_utils.py:87-99 | as written: `_` then name characters, optionally followed by one final newline |
| CifUtils.NewlineAccepted | qcrbox_plugin/cif_utils.py:99 | the check as written accepts `"_cell\n"` |
| CifUtils.IsCifDataName | qcrbox_plugin/cif_utils.py:87-99 | `_` then one or more name characters, and nothing else |
| CifUtils.StrictCheck | qcrbox_plugin/cif_utils.py:96-99 | the strict check is the written check minus the names ending in a newline |
| CifUtils.ValidAfterUnderscore | qcrbox_plugin/cif_utils.py:87-99 | a valid data name stays valid after its dots become underscores |
| CifUtils.Member | qcrbox_plugin/cif_utils.py:74-80 | a member exists iff the value is an object with that key; it is that key's value |
| CifUtils.Scan | qcrbox_plugin/cif_utils.py:78-82 | content found belongs to the first `.cif` entry; with no `.cif` entry nothing is found |
| CifUtils.ScanFirst | qcrbox_plugin/cif_utils.py:78-81 | the first `.cif` entry decides: its content if it has one, else nothing |
| CifUtils.DataFiles | qcrbox_plugin/cif_utils.py:73-76 | the data files exist exactly when the payload path runs through objects to a non-empty datasets array whose first element is an object holding `data_files`, and they are that value |
| CifUtils.ExtractCif | qcrbox_plugin/cif_utils.py:64-84 | no payload, datasets or data files gives None; the uncaught AttributeError happens iff the data files are not an object; found content comes from an object of data files; with every entry passed over the answer is None |
| CifUtils.ExtractCifFirst | qcrbox_plugin/cif_utils.py:73-81 | in the first dataset's data files, the first entry not passed over decides: its `content`, or None |
| Commands.Label | qcrbox_plugin/state.py:65 | `f"{name}({application})"`: the name, `(`, the application, `)` |
| Commands.Labels | olex2qcrbox.py:281 | one label per command, in order |
| Session.IsCommandInteractive | qcrbox_plugin/session_manager.py:32-57 | true iff there is a command and it is flagged interactive, or `interactive` occurs in its lowered name, or in its non-empty lowered description; the plugin's copy at olex2qcrbox.py lines 308-321 is the same test |
| Session.PlainCommandExample | qcrbox_plugin/tests.py:143 | `normal_command` with a plain description is not interactive |
| Session.NamedCommandExample | qcrbox_plugin/tests.py:144 | `interactive_session` is interactive by its name |
| Session.FlaggedCommandExample | qcrbox_plugin/tests.py:145 | a command flagged interactive is interactive |
| Session.DescribedCommandExample | qcrbox_plugin/tests.py:146 | a description mentioning an interactive tool makes the command interactive |
| PluginStates.StatusText | qcrbox_plugin/api_adapter.py:47-52 | each status has its non-empty string value |
| PluginStates.StatusOf | qcrbox_plugin/api_adapter.py:47-52 | `CalculationStatus(text)`: a status found has that text as its value |
| PluginStates.StatusRoundTrip | qcrbox_plugin/api_adapter.py:47-52 | the value of a status converts back to the same status |
| PluginStates.ResetCalculation | qcrbox_plugin/state.py:36-39 | the calculation id and status become None; nothing else changes |
| PluginStates.ResetSession | qcrbox_plugin/state.py:41-45 | the session ids become None and the interactive flag false; nothing else changes |
| PluginStates.ResetAllIsIdle | qcrbox_plugin/state.py:47-53 | a full reset gives the idle execution state whatever came before |
| PluginStates.ResetAllIdempotent | qcrbox_plugin/state.py:47-53 | a second full reset changes nothing |
| PluginStates.ResetsCommute | qcrbox_plugin/state.py:36-50 | the two partial resets touch disjoint fields and commute |
| PluginStates.FindByLabel | qcrbox_plugin/state.py:63-67 | the first command whose label is the selection; none iff no label matches |
| PluginStates.PluginState.constructor | qcrbox_plugin/state.py:8-34 | the dataclass defaults: empty lists and dictionary, nothing selected, idle execution state |
| PluginStates.PluginState.ResetCalculationState | qcrbox_plugin/state.py:36-39 | the execution state becomes ResetCalculation of the old one; the command data are unchanged |
| PluginStates.PluginState.ResetSessionState | qcrbox_plugin/state.py:41-45 | the execution state becomes ResetSession of the old one; the command data are unchanged |
| PluginStates.PluginState.ResetAllExecutionState | qcrbox_plugin/state.py:47-53 | the execution state becomes idle, including the button defaults; the command data are unchanged |
| PluginStates.PluginState.GetSelectedCommandObj | qcrbox_plugin/state.py:55-67 | None iff nothing or `""` is selected, or no command label matches; otherwise the first match |
| PluginStates.CalculationResetExample | qcrbox_plugin/tests.py:63-85 | after setting a calculation and resetting it, id and status are None and the session is untouched |
| Olex2Plugin.Public | olex2qcrbox.py:150 | the commands whose names do not start with `__`, in order |
| Olex2Plugin.PublicCommands | olex2qcrbox.py:147-151 | exactly the public commands of all applications |
| Olex2Plugin.PublicOne | olex2qcrbox.py:150 | one command is kept alone, or dropped when its name starts with `__` |
| Olex2Plugin.PublicAppend | olex2qcrbox.py:150 | filtering keeps order: the public commands of `a + b` are those of `a` followed by those of `b` |
| Olex2Plugin.PublicCommandsSnoc | olex2qcrbox.py:147-151 | a further application adds its public commands at the end of the list |
| Olex2Plugin.PublicCommandsOne | olex2qcrbox.py:147-151 | one application contributes exactly its public commands, in order |
| Olex2Plugin.PublicCommandsAppend | olex2qcrbox.py:147-151 | the command list follows the order of the applications: that of `a + b` is that of `a` followed by that of `b` |
| Olex2Plugin.DefaultValue | olex2qcrbox.py:160-169 | the declared default; an output-CIF parameter without a truthy default gets `output`; None becomes `""` |
| Olex2Plugin.DefaultPairs | olex2qcrbox.py:158-169 | one default per parameter, in order |
| Olex2Plugin.FillDefaults | olex2qcrbox.py:155-169 | the loop builds the command's default dictionary |
| Olex2Plugin.QcrBoxPlugin.LoadApplications | olex2qcrbox.py:137-186 | with an answer: its applications, their public commands, a fresh default dictionary per command id, and the first command selected; without one: empty lists |
| Olex2Plugin.LoadedDefault | olex2qcrbox.py:153-169 | after loading, every parameter of every command reads as its default |
| Olex2Plugin.LoadedOutputName | olex2qcrbox.py:163-165 | after loading, a command with an output CIF parameter has a truthy value for it |
| Olex2Plugin.QcrBoxPlugin.CommandListString | olex2qcrbox.py:278-281 | `No commands available` iff there are no commands; otherwise splitting on `;` gives the labels |
| Olex2Plugin.CommandIdOf | olex2qcrbox.py:296 | `int(command_id)`: a number is kept, a text is parsed; None where int() raises |
| Olex2Plugin.SameCommandId | olex2qcrbox.py:295-296 | a command id and its decimal text address the same entry |
| Olex2Plugin.QcrBoxPlugin.SetParameterState | olex2qcrbox.py:294-301 | a bad id raises and changes nothing; otherwise exactly that parameter of that command is set; nothing else changes |
| Olex2Plugin.QcrBoxPlugin.GetParameterState | olex2qcrbox.py:303-306 | a bad id raises; otherwise the stored value of the parameter of that command, and None when the command or the parameter is unknown |
| Olex2Plugin.StateOfSet | olex2qcrbox.py:294-306 | after a set, the parameter set reads the new value and every other one reads as before |
| Olex2Plugin.SetThenGet | olex2qcrbox.py:294-306 | setting then getting a parameter gives the value set |
| Olex2Plugin.AnyOutputCif | olex2qcrbox.py:327-331 | true iff some parameter has dtype `QCrBox.output_cif` |
| Olex2Plugin.CommandHasOutputCif | olex2qcrbox.py:323-332 | true iff there is a command whose parameters include an output CIF |

## Left out

- Floating point and numpy. Parsing floats and building complex numbers
  are the parameters `parseFloat` and `complexOf`. A `complex128` is its
  16 raw bytes.
- `to_file`'s `astype(np.complex128)` coercion is not modelled. Rows are
  complex128 already.
- File handles and paths. The readers and writers work on the bytes of
  the file; `Tscb.EncodeTscb` says what a failed write leaves in it.
- The TSC text reader and writer (`TSCFile`) and `from_cif_string` /
  `from_cif_file` are not part of this model. `read_tsc_file` takes the
  text reader as the parameter `readText`.
- The iotbx CIF block is a map of items and a map of loop columns
  (`TscCif.CifBlock`).
- Tscb.DecodeRecords: reports `ShortRecord` whenever fewer than
  12 + 16·n bytes remain for a record. Python's `from_file` raises only
  when a read comes back with a length that is not a multiple of the item
  size (`np.frombuffer` at tsc.py:280-281): 4 bytes for the index block,
  16 for the values. Otherwise it builds short or empty keys and rows
  without raising:
  - a file ending 4 or 8 bytes into an index block gives a key of 1 or 2
    ints, and the records after it get empty rows and the key `()`;
  - a file ending after k < n whole values gives a row of k values.
  These short keys and rows are not modelled.
- Text.ParseInt: `int()` is modelled on ASCII decimal text with optional
  sign and surrounding whitespace. Underscores between digits and
  non-ASCII digits are not accepted.
- TscFile.FinalName: paths follow POSIX rules: only `/` separates
  components. Windows `\` separators, drive letters and anchors are not
  modelled. The `ValueError` of `read_tsc_file` carries the path text as
  given, not the normalised `str(Path(path))`.
- CifUtils.Scan: a JSON object is a sequence of entries whose keys are
  taken to be distinct, as `json.loads` makes them. An object with a
  repeated key, which `json.loads` never returns, would be visited once per
  entry.
- Olex2Plugin.CommandIdOf: a float id (which `int()` truncates) is not
  modelled. Ids are integers or text.
- Text.Lower: lower-cases ASCII letters only. For the `interactive` test
  this is exact, since no other character lowers to an ASCII letter
  except U+0130 and U+212A, neither of which can complete the word.
- Session.IsCommandInteractive: an `interactive` attribute is taken as
  present-and-true or not. Truthiness of other attribute values is not
  modelled.
- Olex2Plugin.QcrBoxPlugin.LoadApplications:
  - The network request is replaced by its parsed answer.
  - An exception raised while the commands are being filled (a malformed
    command record) is not modelled. Nor are the printed messages.
- `print_applications`, the GUI, HTML generation, the calculation runner
  and polling are outside the modelled core.
- `PluginState` has no `polling_active` field, so the test's print of it
  is not modelled.

## Findings

| source | as written | input that shows it | evidently intended | confidence | as-written member | corrected member |
|---|---|---|---|---|---|---|
| qcrbox_plugin/cif_utils.py:99 | `re.match(r'^_[a-zA-Z0-9_.\-]+$', name)`; Python's `$` also matches just before a final newline | `"_cell\n"` is reported as a valid data name | only `_` followed by name characters, with nothing after them | high (Python `re` semantics), not executed | CifUtils.NewlineAccepted | CifUtils.IsCifDataName |
