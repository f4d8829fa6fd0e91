/** The form-factor table shared by the TSC formats (`TSCBase`): a header
    dictionary whose SCATTERERS entry names the atoms, and a dictionary from
    Miller indices (h, k, l) to one complex form factor per atom. */
module TscModel {
  import opened Common
  import opened Text

  /** One numpy complex128, kept as its sixteen raw bytes: the model never
      does arithmetic on form factors. */
  type Complex128 = b: seq<Byte> | |b| == 16 witness seq(16, i => 0)

  /** A Miller index triple (h, k, l). */
  type Hkl = (int, int, int)

  /** The form factors of one reflection, in the order of the scatterers. */
  type Row = seq<Complex128>

  type Header = Entries<string, string>

  type Data = Entries<Hkl, Row>

  /** The `header` and `data` attributes of a table. */
  datatype Table = Table(header: Header, data: Data)

  /** The header a new table starts with (`TSCBase.__init__`). */
  const DefaultHeader: Header := [("TITLE", "generic_tsc"), ("SYMM", "expanded"), ("SCATTERERS", "")]

  const ScatterersKey := "SCATTERERS"

  lemma DefaultHeaderShape()
    ensures DistinctKeys(DefaultHeader)
    ensures Get(DefaultHeader, "TITLE") == Some("generic_tsc")
    ensures Get(DefaultHeader, "SYMM") == Some("expanded")
    ensures Get(DefaultHeader, ScatterersKey) == Some("")
  {
    DefaultHeaderDistinct();
    GetFront3(("TITLE", "generic_tsc"), ("SYMM", "expanded"), (ScatterersKey, ""), []);
    assert DefaultHeader + [] == DefaultHeader;
  }

  lemma DefaultHeaderDistinct()
    ensures DistinctKeys(DefaultHeader)
  {
    assert |"TITLE"| != |"SYMM"| && |"TITLE"| != |ScatterersKey| && |"SYMM"| != |ScatterersKey|;
    Distinct3(("TITLE", "generic_tsc"), ("SYMM", "expanded"), (ScatterersKey, ""));
  }

  // ---------------------------------------------------------------------------
  // The scatterers property
  // ---------------------------------------------------------------------------

  /** The getter: `header["SCATTERERS"].strip().split()`. */
  function Scatterers(header: Header): (labels: seq<string>)
    requires HasKey(header, ScatterersKey)
    ensures forall i :: 0 <= i < |labels| ==> labels[i] != [] && !HasSpace(labels[i])
  {
    Words(Strip(Get(header, ScatterersKey).value))
  }

  /** The setter: `header["SCATTERERS"] = " ".join(str(val) for val in labels)`. */
  function WithScatterers(header: Header, labels: seq<string>): (r: Header)
    ensures HasKey(r, ScatterersKey)
    ensures DistinctKeys(header) ==> DistinctKeys(r)
  {
    GetPut(header, ScatterersKey, Join(labels, " "), ScatterersKey);
    Put(header, ScatterersKey, Join(labels, " "))
  }

  /** Labels without whitespace, each non-empty: exactly those the getter can
      give back. */
  predicate PlainLabels(labels: seq<string>) {
    forall i :: 0 <= i < |labels| ==> labels[i] != [] && !HasSpace(labels[i])
  }

  /** Setting plain labels and reading them back gives the same labels; no
      other header entry changes. */
  lemma {:induction false} ScatterersRoundTrip(header: Header, labels: seq<string>)
    requires PlainLabels(labels)
    ensures Scatterers(WithScatterers(header, labels)) == labels
    ensures forall k :: k != ScatterersKey ==> Get(WithScatterers(header, labels), k) == Get(header, k)
  {
    var text := Join(labels, " ");
    GetPut(header, ScatterersKey, text, ScatterersKey);
    JoinEnds(labels);
    StripUnchanged(text);
    WordsOfJoin(labels);
    forall k | k != ScatterersKey
      ensures Get(WithScatterers(header, labels), k) == Get(header, k)
    {
      GetPut(header, ScatterersKey, text, k);
    }
  }

  /** The joined text starts with the first label's first character and ends
      with the last label's last character. */
  lemma {:induction false} JoinEnds(labels: seq<string>)
    requires PlainLabels(labels)
    ensures var t := Join(labels, " ");
            t == [] || (!IsSpace(t[0]) && !IsSpace(t[|t| - 1]))
    ensures labels != [] ==> Join(labels, " ") != []
  {
    if |labels| == 1 {
      assert !IsSpace(labels[0][0]) && !IsSpace(labels[0][|labels[0]| - 1]);
    } else if |labels| > 1 {
      JoinEnds(labels[1..]);
      var t := Join(labels, " ");
      var u := Join(labels[1..], " ");
      assert t == labels[0] + " " + u;
      assert !IsSpace(labels[0][0]);
      assert t[0] == labels[0][0];
      assert t[|t| - 1] == u[|u| - 1];
    }
  }

  // ---------------------------------------------------------------------------
  // Lookup by atom: `tsc[atom]` and `tsc[[atom, ...]]`
  // ---------------------------------------------------------------------------

  /** `labels.index(x)`: the first position of x, None where Python raises. */
  function IndexOf(labels: seq<string>, x: string): (r: Option<nat>)
    ensures r.None? <==> x !in labels
    ensures r.Some? ==> r.value < |labels| && labels[r.value] == x && x !in labels[..r.value]
  {
    if labels == [] then None
    else if labels[0] == x then Some(0)
    else match IndexOf(labels[1..], x)
      case None => None
      case Some(i) =>
        assert labels[..i + 1] == [labels[0]] + labels[1..][..i];
        Some(i + 1)
  }

  datatype LookupError =
    | UnknownLabels(unknown: seq<string>)  // ValueError "Unknown atom label(s) ..."
    | IndexError                           // numpy's IndexError, which is not caught

  /** The text after the colon of the ValueError: `' '.join(unknown)`. */
  function UnknownMessage(e: LookupError): string {
    if e.UnknownLabels? then Join(e.unknown, " ") else ""
  }

  /** `[atom for atom in labels if atom not in scatterers]`. */
  function Unknown(scatterers: seq<string>, labels: seq<string>): (u: seq<string>)
    ensures |u| <= |labels|
    ensures forall x :: x in u <==> x in labels && x !in scatterers
    ensures u == [] <==> forall i :: 0 <= i < |labels| ==> labels[i] in scatterers
  {
    if labels == [] then []
    else
      var rest := Unknown(scatterers, labels[1..]);
      assert forall x :: x in labels <==> x == labels[0] || x in labels[1..];
      if labels[0] in scatterers then rest else [labels[0]] + rest
  }

  /** One requested label is reported alone, or not at all when it is known. */
  lemma UnknownOne(scatterers: seq<string>, x: string)
    ensures Unknown(scatterers, [x]) == if x in scatterers then [] else [x]
  {
    assert [x][1..] == [];
  }

  /** The unknown labels of a concatenated request are those of its first
      part followed by those of the rest: request order and repeated labels
      are kept. */
  lemma {:induction false} UnknownAppend(scatterers: seq<string>, a: seq<string>, b: seq<string>)
    ensures Unknown(scatterers, a + b) == Unknown(scatterers, a) + Unknown(scatterers, b)
    decreases |a|
  {
    if a == [] {
      assert a + b == b;
    } else {
      var head := if a[0] in scatterers then [] else [a[0]];
      var x, y := Unknown(scatterers, a[1..]), Unknown(scatterers, b);
      assert (a + b)[0] == a[0];
      assert (a + b)[1..] == a[1..] + b;
      assert Unknown(scatterers, a + b) == head + Unknown(scatterers, a[1..] + b);
      UnknownAppend(scatterers, a[1..], b);
      AppendAssoc(head, x, y);
    }
  }

  /** The element at position j of every row, for the keys of data in order;
      None where some row is too short. */
  function Column(data: Data, j: nat): (r: Option<Entries<Hkl, Complex128>>)
    ensures r.Some? <==> forall i :: 0 <= i < |data| ==> j < |data[i].1|
    ensures r.Some? ==> |r.value| == |data| &&
                        forall i :: 0 <= i < |data| ==> r.value[i] == (data[i].0, data[i].1[j])
  {
    if data == [] then Some([])
    else if j >= |data[0].1| then None
    else match Column(data[1..], j)
      case None => None
      case Some(rest) => Some([(data[0].0, data[0].1[j])] + rest)
  }

  /** `tsc[atom]` for one atom. */
  function LookupOne(scatterers: seq<string>, data: Data, atom: string): (r: Result<Entries<Hkl, Complex128>, LookupError>)
    ensures atom !in scatterers ==> r == Err(UnknownLabels([atom]))
    ensures r.Ok? ==> atom in scatterers
  {
    match IndexOf(scatterers, atom)
    case None => Err(UnknownLabels([atom]))
    case Some(j) =>
      match Column(data, j)
      case None => Err(IndexError)
      case Some(col) => Ok(col)
  }

  /** The positions `labels` asks for, all labels being known. */
  function Positions(scatterers: seq<string>, labels: seq<string>): (idx: seq<nat>)
    requires forall i :: 0 <= i < |labels| ==> labels[i] in scatterers
    ensures |idx| == |labels|
    ensures forall i :: 0 <= i < |labels| ==> IndexOf(scatterers, labels[i]) == Some(idx[i])
  {
    if labels == [] then [] else [IndexOf(scatterers, labels[0]).value] + Positions(scatterers, labels[1..])
  }

  /** Every row, picked at the given positions in order; None where some row
      is too short for some position. */
  function Pick(data: Data, idx: seq<nat>): (r: Option<Data>)
    ensures r.Some? <==> forall i, j :: 0 <= i < |data| && 0 <= j < |idx| ==> idx[j] < |data[i].1|
    ensures r.Some? ==> |r.value| == |data| &&
                        forall i :: 0 <= i < |data| ==> r.value[i].0 == data[i].0 && |r.value[i].1| == |idx|
    ensures r.Some? ==> forall i, j :: 0 <= i < |data| && 0 <= j < |idx| ==> r.value[i].1[j] == data[i].1[idx[j]]
  {
    if data == [] then Some([])
    else if exists j :: 0 <= j < |idx| && idx[j] >= |data[0].1| then None
    else
      var row := seq(|idx|, j requires 0 <= j < |idx| => data[0].1[idx[j]]);
      match Pick(data[1..], idx)
      case None => None
      case Some(rest) => Some([(data[0].0, row)] + rest)
  }

  /** `tsc[labels]` for a list of labels.  An empty list makes numpy index
      with a float array, which raises IndexError as soon as there is a row. */
  function LookupMany(scatterers: seq<string>, data: Data, labels: seq<string>): (r: Result<Data, LookupError>)
    ensures Unknown(scatterers, labels) != [] ==> r == Err(UnknownLabels(Unknown(scatterers, labels)))
    ensures r.Ok? ==> forall i :: 0 <= i < |labels| ==> labels[i] in scatterers
    ensures labels == [] ==> r == (if data == [] then Ok([]) else Err(IndexError))
    ensures r.Ok? ==> |r.value| == |data| &&
                      forall i :: 0 <= i < |data| ==> r.value[i].0 == data[i].0 && |r.value[i].1| == |labels|
    ensures Unknown(scatterers, labels) == [] && labels != [] ==>
              (r.Ok? <==> forall i, j :: 0 <= i < |data| && 0 <= j < |labels| ==>
                            IndexOf(scatterers, labels[j]).value < |data[i].1|)
    ensures r.Err? && r.error == IndexError ==> Unknown(scatterers, labels) == []
  {
    if Unknown(scatterers, labels) != [] then Err(UnknownLabels(Unknown(scatterers, labels)))
    else if data == [] then Ok([])
    else if labels == [] then Err(IndexError)
    else match Pick(data, Positions(scatterers, labels))
      case None => Err(IndexError)
      case Some(rows) => Ok(rows)
  }

  /** A list lookup of known labels holds, in every row and in request order,
      the form factor of each atom's first position among the scatterers. */
  lemma LookupManyValues(scatterers: seq<string>, data: Data, labels: seq<string>)
    requires LookupMany(scatterers, data, labels).Ok?
    ensures var rows := LookupMany(scatterers, data, labels).value;
            forall i, j :: 0 <= i < |data| && 0 <= j < |labels| ==>
              var p := IndexOf(scatterers, labels[j]).value;
              p < |data[i].1| && rows[i].1[j] == data[i].1[p]
  {
  }

  /** Every unknown atom makes the lookup fail, whatever the data. */
  lemma LookupManyUnknown(scatterers: seq<string>, data: Data, labels: seq<string>, x: string)
    requires x in labels && x !in scatterers
    ensures LookupMany(scatterers, data, labels).Err?
    ensures x in LookupMany(scatterers, data, labels).error.unknown
  {
  }

  /** A one-atom list looks up the same form factors as the atom alone,
      each wrapped in a one-element row, and fails in the same way. */
  lemma {:induction false} LookupOneAsMany(scatterers: seq<string>, data: Data, atom: string)
    ensures LookupOne(scatterers, data, atom).Err? <==>
            (LookupMany(scatterers, data, [atom]).Err? && (data != [] || atom !in scatterers))
    ensures LookupOne(scatterers, data, atom).Err? && LookupMany(scatterers, data, [atom]).Err? ==>
            LookupOne(scatterers, data, atom).error == LookupMany(scatterers, data, [atom]).error
    ensures LookupOne(scatterers, data, atom).Ok? && LookupMany(scatterers, data, [atom]).Ok? ==>
            var one := LookupOne(scatterers, data, atom).value;
            var many := LookupMany(scatterers, data, [atom]).value;
            forall i :: 0 <= i < |data| ==> many[i] == (one[i].0, [one[i].1])
  {
    if atom in scatterers {
      assert Unknown(scatterers, [atom]) == [];
      var j := IndexOf(scatterers, atom).value;
      var idx := Positions(scatterers, [atom]);
      assert idx == [j];
      if data != [] {
        var col := Column(data, j);
        var rows := Pick(data, idx);
        assert col.Some? <==> rows.Some?;
        if col.Some? {
          forall i | 0 <= i < |data| ensures rows.value[i] == (col.value[i].0, [col.value[i].1]) {
            assert rows.value[i].1[0] == data[i].1[j];
            assert rows.value[i].1 == [rows.value[i].1[0]];
          }
        }
      }
    } else {
      assert Unknown(scatterers, [atom]) == [atom];
    }
  }

  /** A lookup of one known atom succeeds exactly when every row is long
      enough for its first position, and then holds that element per row. */
  lemma LookupOneValues(scatterers: seq<string>, data: Data, atom: string)
    requires atom in scatterers
    ensures var p := IndexOf(scatterers, atom).value;
            && (LookupOne(scatterers, data, atom).Ok? <==> forall i :: 0 <= i < |data| ==> p < |data[i].1|)
            && (LookupOne(scatterers, data, atom).Err? ==> LookupOne(scatterers, data, atom) == Err(IndexError))
            && (LookupOne(scatterers, data, atom).Ok? ==>
                  var col := LookupOne(scatterers, data, atom).value;
                  |col| == |data| && forall i :: 0 <= i < |data| ==> col[i] == (data[i].0, data[i].1[p]))
  {
  }

  // ---------------------------------------------------------------------------
  // One data line of a text TSC file: `parse_tsc_data_line`
  // ---------------------------------------------------------------------------

  datatype DataLineError =
    | TooFewFields           // unpacking h_str, k_str, l_str
    | NotAPair(token: string)  // unpacking real_val, imag_val
    | BadFloat(text: string)   // float() refused the text
    | BadInteger(text: string) // int() refused the text

  /** The form factors of the tokens after the Miller indices, each token
      being `re,im`.  Parsing a float and making a complex number out of two
      are parameters: the model does no floating-point work. */
  function ParseValues<F>(tokens: seq<string>, parseFloat: string -> Option<F>, complexOf: (F, F) -> Complex128): (r: Result<Row, DataLineError>)
    ensures r.Ok? <==> forall i :: 0 <= i < |tokens| ==> ValueToken(tokens[i], parseFloat)
    ensures r.Ok? ==> |r.value| == |tokens|
    ensures r.Ok? ==> forall i :: 0 <= i < |tokens| ==>
                        var parts := Split(tokens[i], ',');
                        r.value[i] == complexOf(parseFloat(parts[0]).value, parseFloat(parts[1]).value)
  {
    if tokens == [] then Ok([])
    else
      var parts := Split(tokens[0], ',');
      if |parts| != 2 then Err(NotAPair(tokens[0]))
      else if parseFloat(parts[0]).None? then Err(BadFloat(parts[0]))
      else if parseFloat(parts[1]).None? then Err(BadFloat(parts[1]))
      else match ParseValues(tokens[1..], parseFloat, complexOf)
        case Err(e) => Err(e)
        case Ok(rest) =>
          Ok([complexOf(parseFloat(parts[0]).value, parseFloat(parts[1]).value)] + rest)
  }

  /** A token `re,im`: exactly one comma, and both halves parse as floats. */
  predicate ValueToken<F>(token: string, parseFloat: string -> Option<F>) {
    var parts := Split(token, ',');
    |parts| == 2 && parseFloat(parts[0]).Some? && parseFloat(parts[1]).Some?
  }

  /** `parse_tsc_data_line(line)`: the whitespace-separated tokens are h, k, l
      and then one `re,im` token per form factor.  The form factors are built
      before the indices are converted, so a bad value is reported first. */
  function ParseDataLine<F>(line: string, parseFloat: string -> Option<F>, complexOf: (F, F) -> Complex128): (r: Result<(Hkl, Row), DataLineError>)
    ensures var w := Words(line);
            r.Ok? <==> && |w| >= 3
                       && (forall i :: 0 <= i < |w[3..]| ==> ValueToken(w[3..][i], parseFloat))
                       && ParseInt(w[0]).Some? && ParseInt(w[1]).Some? && ParseInt(w[2]).Some?
    ensures var w := Words(line);
            r.Ok? ==> && r.value.0 == (ParseInt(w[0]).value, ParseInt(w[1]).value, ParseInt(w[2]).value)
                      && |r.value.1| == |w[3..]|
                      && forall i :: 0 <= i < |w[3..]| ==> r.value.1[i] == TokenValue(w[3..][i], parseFloat, complexOf)
    ensures |Words(line)| < 3 ==> r == Err(TooFewFields)
  {
    var w := Words(line);
    if |w| < 3 then Err(TooFewFields)
    else
      var values := ParseValues(w[3..], parseFloat, complexOf);
      if values.Err? then Err(values.error)
      else if ParseInt(w[0]).None? then Err(BadInteger(w[0]))
      else if ParseInt(w[1]).None? then Err(BadInteger(w[1]))
      else if ParseInt(w[2]).None? then Err(BadInteger(w[2]))
      else Ok(((ParseInt(w[0]).value, ParseInt(w[1]).value, ParseInt(w[2]).value), values.value))
  }

  /** The form factor a `re,im` token stands for. */
  function TokenValue<F>(token: string, parseFloat: string -> Option<F>, complexOf: (F, F) -> Complex128): Complex128
    requires ValueToken(token, parseFloat)
  {
    var parts := Split(token, ',');
    complexOf(parseFloat(parts[0]).value, parseFloat(parts[1]).value)
  }

  /** A line written as the integers h, k, l followed by `re,im` tokens reads
      back as those indices and the form factors of those tokens. */
  lemma {:induction false} DataLineParses<F>(h: int, k: int, l: int, tokens: seq<string>,
                                              parseFloat: string -> Option<F>, complexOf: (F, F) -> Complex128)
    requires forall i :: 0 <= i < |tokens| ==> tokens[i] != [] && !HasSpace(tokens[i]) && ValueToken(tokens[i], parseFloat)
    ensures var r := ParseDataLine(Join([IntToString(h), IntToString(k), IntToString(l)] + tokens, " "), parseFloat, complexOf);
            && r.Ok? && r.value.0 == (h, k, l) && |r.value.1| == |tokens|
            && forall i :: 0 <= i < |tokens| ==> r.value.1[i] == TokenValue(tokens[i], parseFloat, complexOf)
  {
    DataLineWords(h, k, l, tokens);
    IntToStringParses(h);
    IntToStringParses(k);
    IntToStringParses(l);
    var ws := [IntToString(h), IntToString(k), IntToString(l)] + tokens;
    ParseWords(Join(ws, " "), IntToString(h), IntToString(k), IntToString(l), tokens, (h, k, l), parseFloat, complexOf);
  }

  /** A line whose words are three integers and then value tokens. */
  lemma ParseWords<F>(line: string, a: string, b: string, c: string, tokens: seq<string>, hkl: Hkl,
                      parseFloat: string -> Option<F>, complexOf: (F, F) -> Complex128)
    requires Words(line) == [a, b, c] + tokens
    requires ParseInt(a) == Some(hkl.0) && ParseInt(b) == Some(hkl.1) && ParseInt(c) == Some(hkl.2)
    requires forall i :: 0 <= i < |tokens| ==> ValueToken(tokens[i], parseFloat)
    ensures var r := ParseDataLine(line, parseFloat, complexOf);
            && r.Ok? && r.value.0 == hkl && |r.value.1| == |tokens|
            && forall i :: 0 <= i < |tokens| ==> r.value.1[i] == TokenValue(tokens[i], parseFloat, complexOf)
  {
    Front3(Words(line), a, b, c, tokens);
  }

  lemma {:induction false} DataLineWords(h: int, k: int, l: int, tokens: seq<string>)
    requires forall i :: 0 <= i < |tokens| ==> tokens[i] != [] && !HasSpace(tokens[i])
    ensures var ws := [IntToString(h), IntToString(k), IntToString(l)] + tokens;
            Words(Join(ws, " ")) == ws
  {
    var ws := [IntToString(h), IntToString(k), IntToString(l)] + tokens;
    IntToStringPlain(h);
    IntToStringPlain(k);
    IntToStringPlain(l);
    forall i | 0 <= i < |ws| ensures ws[i] != [] && !HasSpace(ws[i]) {
      if i >= 3 {
        assert ws[i] == tokens[i - 3];
      }
    }
    WordsOfJoin(ws);
  }

  /** The decimal text of an integer is one non-empty word. */
  lemma IntToStringPlain(x: int)
    ensures IntToString(x) != [] && !HasSpace(IntToString(x))
  {
    var s := IntToString(x);
    var d := NatToString(if x < 0 then -x else x);
    assert s == if x < 0 then "-" + d else d;
    forall i | 0 <= i < |s| ensures !IsSpace(s[i]) {
      if x < 0 && i > 0 {
        assert s[i] == d[i - 1];
      }
    }
  }
}
