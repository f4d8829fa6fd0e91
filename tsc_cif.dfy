/** Importing a form-factor table from a CIF block written by the TSC-to-CIF
    export (`TSCBase.populate_from_cif_block`).  The block is already parsed:
    its data items by name, and its loops by category name, each a table of
    columns. */
module TscCif {
  import opened Common
  import opened Text
  import opened TscModel

  /** A data item: one value, or a looped column of values. */
  datatype CifValue = Single(text: string) | Looped(values: seq<string>)

  /** `items` answers `name in block` and `block[name]`; `loops` answers
      `block.get_loop(category)`. */
  datatype CifBlock = CifBlock(items: map<string, CifValue>, loops: map<string, map<string, seq<string>>>)

  const SourceItem := "_aspheric_ffs.source"
  const PartitionNameItem := "_aspheric_ffs_partitioning.name"
  const PartitionSoftwareItem := "_aspheric_ffs_partitioning.software"
  const LabelsItem := "_wfn_moiety.asu_atom_site_label"
  const AffLoop := "_aspheric_ff"
  const IndexH := "_aspheric_ff.index_h"
  const IndexK := "_aspheric_ff.index_k"
  const IndexL := "_aspheric_ff.index_l"
  const RealColumn := "_aspheric_ff.form_factor_real"
  const ImagColumn := "_aspheric_ff.form_factor_imag"

  datatype ImportError =
    | MissingEntries        // ValueError: one of the three required items is absent
    | MissingKey(name: string)  // KeyError from block[name] or loop[name]
    | MissingLoop           // ValueError: no _aspheric_ff loop
    | BadIndex(text: string)  // int() refused a Miller index
    | BadNumber(text: string)    // float() refused a form-factor component
    | ShapeMismatch         // numpy cannot broadcast the real and imaginary parts
    | NoScatterers          // ZeroDivisionError: no scatterer labels
    | NotMultiple           // ValueError: value count not a multiple of the scatterers
    | CountMismatch         // ValueError: Miller index count differs from the row count

  /** The labels the setter receives: a looped item gives its values, a
      single value is iterated character by character. */
  function LabelValues(v: CifValue): (labels: seq<string>)
    ensures v.Looped? ==> labels == v.values
    ensures v.Single? ==> |labels| == |v.text| && forall i :: 0 <= i < |labels| ==> labels[i] == [v.text[i]]
  {
    match v
    case Looped(values) => values
    case Single(text) => seq(|text|, i requires 0 <= i < |text| => [text[i]])
  }

  /** `zip(hs, ks, ls)`: the shortest column decides the count. */
  function Zip3(hs: seq<string>, ks: seq<string>, ls: seq<string>): (t: seq<(string, string, string)>)
    ensures |t| == Min3(|hs|, |ks|, |ls|)
    ensures forall i :: 0 <= i < |t| ==> t[i] == (hs[i], ks[i], ls[i])
  {
    if hs == [] || ks == [] || ls == [] then []
    else [(hs[0], ks[0], ls[0])] + Zip3(hs[1..], ks[1..], ls[1..])
  }

  /** `(int(h), int(k), int(l))`, the first refusal raising. */
  function ParseTriple(t: (string, string, string)): (r: Result<Hkl, ImportError>)
    ensures r.Ok? <==> ParseInt(t.0).Some? && ParseInt(t.1).Some? && ParseInt(t.2).Some?
    ensures r.Ok? ==> ParseInt(t.0) == Some(r.value.0) && ParseInt(t.1) == Some(r.value.1) &&
                      ParseInt(t.2) == Some(r.value.2)
  {
    var h := ParseInt(t.0);
    var k := ParseInt(t.1);
    var l := ParseInt(t.2);
    if h.None? then Err(BadIndex(t.0))
    else if k.None? then Err(BadIndex(t.1))
    else if l.None? then Err(BadIndex(t.2))
    else Ok((h.value, k.value, l.value))
  }

  /** The Miller indices of every triple, in order; the first refusal raises. */
  function ParseIndices(ts: seq<(string, string, string)>): (r: Result<seq<Hkl>, ImportError>)
    ensures r.Ok? <==> forall i :: 0 <= i < |ts| ==> ParseTriple(ts[i]).Ok?
    ensures r.Ok? ==> |r.value| == |ts| && forall i :: 0 <= i < |ts| ==> ParseTriple(ts[i]) == Ok(r.value[i])
  {
    MapAll(ts, ParseTriple)
  }

  /** `[f(x) for x in xs]` where f may raise: the first failure is raised. */
  function MapAll<A, B, E>(xs: seq<A>, f: A -> Result<B, E>): (r: Result<seq<B>, E>)
    ensures r.Ok? <==> forall i :: 0 <= i < |xs| ==> f(xs[i]).Ok?
    ensures r.Ok? ==> |r.value| == |xs| && forall i :: 0 <= i < |xs| ==> f(xs[i]) == Ok(r.value[i])
  {
    if xs == [] then Ok([])
    else
      var first := f(xs[0]);
      var rest := MapAll(xs[1..], f);
      assert forall i :: 1 <= i < |xs| ==> xs[i] == xs[1..][i - 1];
      if first.Err? then Err(first.error)
      else if rest.Err? then Err(rest.error)
      else Ok([first.value] + rest.value)
  }

  function Min3(a: nat, b: nat, c: nat): nat {
    if a <= b && a <= c then a else if b <= c then b else c
  }

  /** The numbers written in one line: the line with brackets stripped from
      both ends, split on whitespace. */
  function LineTokens(line: string): seq<string> {
    Words(StripChars(line, {'[', ']'}))
  }

  /** Every token of every line, in order. */
  function Tokens(lines: seq<string>): seq<string> {
    if lines == [] then [] else LineTokens(lines[0]) + Tokens(lines[1..])
  }

  /** `np.fromiter(float(val) for line in lines for val in ...)`. */
  function ParseFloats<F>(tokens: seq<string>, parseFloat: string -> Option<F>): (r: Result<seq<F>, ImportError>)
    ensures r.Ok? <==> forall i :: 0 <= i < |tokens| ==> parseFloat(tokens[i]).Some?
    ensures r.Ok? ==> |r.value| == |tokens| && forall i :: 0 <= i < |tokens| ==> r.value[i] == parseFloat(tokens[i]).value
  {
    if tokens == [] then Ok([])
    else if parseFloat(tokens[0]).None? then Err(BadNumber(tokens[0]))
    else match ParseFloats(tokens[1..], parseFloat)
      case Err(e) => Err(e)
      case Ok(rest) => Ok([parseFloat(tokens[0]).value] + rest)
  }

  /** `real_vals + 1j * imag_vals` under numpy broadcasting: equal lengths pair
      up, and a length-one side is repeated. */
  function Combine<F>(re: seq<F>, im: seq<F>, complexOf: (F, F) -> Complex128): (r: Result<seq<Complex128>, ImportError>)
    ensures r.Err? <==> |re| != |im| && |re| != 1 && |im| != 1
    ensures r.Ok? ==> |r.value| == (if |re| == |im| || |im| == 1 then |re| else |im|)
    ensures r.Ok? ==> forall i :: 0 <= i < |r.value| ==>
                        r.value[i] == complexOf(re[if |re| == 1 then 0 else i], im[if |im| == 1 then 0 else i])
  {
    if |re| == |im| || |re| == 1 || |im| == 1 then
      var len := if |re| == |im| || |im| == 1 then |re| else |im|;
      Ok(seq(len, i requires 0 <= i < len =>
                    complexOf(re[if |re| == 1 then 0 else i], im[if |im| == 1 then 0 else i])))
    else Err(ShapeMismatch)
  }

  /** `values.reshape((-1, n))`: `count` consecutive rows of n values. */
  function Rows(values: seq<Complex128>, n: nat, count: nat): (rows: seq<Row>)
    requires |values| == count * n
    ensures |rows| == count
    ensures forall i :: 0 <= i < |rows| ==> |rows[i]| == n
  {
    if count == 0 then []
    else
      MulPred(count, n);
      [values[..n]] + Rows(values[n..], n, count - 1)
  }

  lemma MulPred(count: nat, n: nat)
    requires count > 0
    ensures (count - 1) * n == count * n - n && n <= count * n
  {
  }

  /** Where row i starts among the values: i·n. */
  function RowStart(i: nat, n: nat): nat {
    i * n
  }

  /** Row i holds the values i·n up to i·n + n, in row-major order. */
  lemma {:induction false} RowsAt(values: seq<Complex128>, n: nat, count: nat, i: nat)
    requires |values| == count * n && i < count
    ensures RowStart(i, n) + n <= |values| && Rows(values, n, count)[i] == values[RowStart(i, n)..RowStart(i, n) + n]
    decreases i
  {
    MulPred(count, n);
    if i > 0 {
      RowsAt(values[n..], n, count - 1, i - 1);
      MulPred(i, n);
      assert Rows(values, n, count)[i] == Rows(values[n..], n, count - 1)[i - 1];
      assert values[n..][(i - 1) * n..(i - 1) * n + n] == values[i * n..i * n + n];
    } else {
      MulPred(count, n);
    }
  }

  /** With no remainder, the quotient times the divisor is the whole. */
  lemma DivExact(len: nat, n: nat)
    requires n > 0 && len % n == 0
    ensures len == (len / n) * n
  {
  }

  /** `{hkl: affs for hkl, affs in zip(hkls, rows)}`, both of the same length. */
  function Zip(hkls: seq<Hkl>, rows: seq<Row>): (d: Data)
    requires |hkls| == |rows|
    ensures |d| == |hkls| && forall i :: 0 <= i < |d| ==> d[i] == (hkls[i], rows[i])
  {
    if hkls == [] then [] else [(hkls[0], rows[0])] + Zip(hkls[1..], rows[1..])
  }

  /** What the import leaves behind: the header (the scatterers are set before
      anything after them is checked), and the new data or the error raised,
      in which case the data stays as it was. */
  datatype Imported = Imported(header: Header, result: Result<Data, ImportError>)

  /** Looking up a column of the `_aspheric_ff` loop. */
  function ColumnOf(aff: map<string, seq<string>>, name: string): Result<seq<string>, ImportError> {
    if name in aff then Ok(aff[name]) else Err(MissingKey(name))
  }

  /** `populate_from_cif_block`. */
  function Import<F>(header: Header, block: CifBlock, parseFloat: string -> Option<F>, complexOf: (F, F) -> Complex128): (r: Imported)
    ensures SourceItem !in block.items || PartitionNameItem !in block.items || PartitionSoftwareItem !in block.items ==>
              r == Imported(header, Err(MissingEntries))
    ensures r.header == header || (LabelsItem in block.items && r.header == WithScatterers(header, LabelValues(block.items[LabelsItem])))
    ensures LabelsItem !in block.items ==> r.header == header
    ensures (SourceItem in block.items && PartitionNameItem in block.items && PartitionSoftwareItem in block.items &&
             LabelsItem in block.items) ==> r.header == WithScatterers(header, LabelValues(block.items[LabelsItem]))
    ensures r.result.Ok? ==> LabelsItem in block.items && AffLoop in block.loops &&
                             r.header == WithScatterers(header, LabelValues(block.items[LabelsItem])) &&
                             DistinctKeys(r.result.value) &&
                             forall i :: 0 <= i < |r.result.value| ==> |r.result.value[i].1| == |Scatterers(r.header)|
  {
    if SourceItem !in block.items || PartitionNameItem !in block.items || PartitionSoftwareItem !in block.items then
      Imported(header, Err(MissingEntries))
    else if LabelsItem !in block.items then
      Imported(header, Err(MissingKey(LabelsItem)))
    else
      var header' := WithScatterers(header, LabelValues(block.items[LabelsItem]));
      if AffLoop !in block.loops then Imported(header', Err(MissingLoop))
      else Imported(header', ImportLoop(Scatterers(header'), block.loops[AffLoop], parseFloat, complexOf))
  }

  /** Everything `populate_from_cif_block` does after setting the scatterers. */
  function ImportLoop<F>(scatterers: seq<string>, aff: map<string, seq<string>>,
                         parseFloat: string -> Option<F>, complexOf: (F, F) -> Complex128): (r: Result<Data, ImportError>)
    ensures r.Ok? ==> |scatterers| > 0 && DistinctKeys(r.value) && forall i :: 0 <= i < |r.value| ==> |r.value[i].1| == |scatterers|
  {
    match ColumnOf(aff, IndexH)
    case Err(e) => Err(e)
    case Ok(hs) =>
      match ColumnOf(aff, IndexK)
      case Err(e) => Err(e)
      case Ok(ks) =>
        match ColumnOf(aff, IndexL)
        case Err(e) => Err(e)
        case Ok(ls) =>
          match ParseIndices(Zip3(hs, ks, ls))
          case Err(e) => Err(e)
          case Ok(hkls) =>
            match ColumnOf(aff, RealColumn)
            case Err(e) => Err(e)
            case Ok(realLines) =>
              match ColumnOf(aff, ImagColumn)
              case Err(e) => Err(e)
              case Ok(imagLines) =>
                match ParseFloats(Tokens(realLines), parseFloat)
                case Err(e) => Err(e)
                case Ok(re) =>
                  match ParseFloats(Tokens(imagLines), parseFloat)
                  case Err(e) => Err(e)
                  case Ok(im) =>
                    match Combine(re, im, complexOf)
                    case Err(e) => Err(e)
                    case Ok(values) => Reshape(hkls, values, |scatterers|)
  }

  /** The checks on the counts, then the table. */
  function Reshape(hkls: seq<Hkl>, values: seq<Complex128>, n: nat): (r: Result<Data, ImportError>)
    ensures n == 0 ==> r == Err(NoScatterers)
    ensures n > 0 && |values| % n != 0 ==> r == Err(NotMultiple)
    ensures n > 0 && |values| % n == 0 && |hkls| != |values| / n ==> r == Err(CountMismatch)
    ensures r.Ok? ==> n > 0 && |values| % n == 0 && |hkls| == |values| / n &&
                      |values| == |hkls| * n && r.value == PutAll([], Zip(hkls, Rows(values, n, |hkls|)))
    ensures r.Ok? ==> DistinctKeys(r.value) && forall i :: 0 <= i < |r.value| ==> |r.value[i].1| == n
  {
    if n == 0 then Err(NoScatterers)
    else if |values| % n != 0 then Err(NotMultiple)
    else if |hkls| != |values| / n then Err(CountMismatch)
    else
      DivExact(|values|, n);
      var d := Zip(hkls, Rows(values, n, |hkls|));
      PutAllPairs([], d);
      assert forall i :: 0 <= i < |PutAll([], d)| ==> PutAll([], d)[i] in d;
      Ok(PutAll([], d))
  }

  /** With distinct Miller indices, row i of the imported table is the i-th
      index with values i·n up to i·n + n. */
  lemma ReshapeRows(hkls: seq<Hkl>, values: seq<Complex128>, n: nat)
    requires Reshape(hkls, values, n).Ok?
    requires forall i, j :: 0 <= i < j < |hkls| ==> hkls[i] != hkls[j]
    ensures var d := Reshape(hkls, values, n).value;
            |d| == |hkls| &&
            forall i :: 0 <= i < |d| ==>
              RowStart(i, n) + n <= |values| && d[i] == (hkls[i], values[RowStart(i, n)..RowStart(i, n) + n])
  {
    var z := Zip(hkls, Rows(values, n, |hkls|));
    EmptyAppend(z);
    PutAllDistinct([], z);
    forall i | 0 <= i < |z|
      ensures RowStart(i, n) + n <= |values| && z[i] == (hkls[i], values[RowStart(i, n)..RowStart(i, n) + n])
    {
      RowsAt(values, n, |hkls|, i);
    }
  }

  /** A repeated Miller index keeps its first position and its last row. */
  lemma ReshapeLastWins(hkls: seq<Hkl>, values: seq<Complex128>, n: nat, k: Hkl)
    requires Reshape(hkls, values, n).Ok?
    ensures Get(Reshape(hkls, values, n).value, k) == LastValue(Zip(hkls, Rows(values, n, |hkls|)), k)
  {
    GetPutAll([], Zip(hkls, Rows(values, n, |hkls|)), k);
  }

  /** A successful import of plain labels leaves exactly those labels as the
      scatterers, and every row has one value per label. */
  lemma ImportLabels<F>(header: Header, block: CifBlock, parseFloat: string -> Option<F>, complexOf: (F, F) -> Complex128)
    requires Import(header, block, parseFloat, complexOf).result.Ok?
    requires LabelsItem in block.items && PlainLabels(LabelValues(block.items[LabelsItem]))
    ensures var r := Import(header, block, parseFloat, complexOf);
            var labels := LabelValues(block.items[LabelsItem]);
            Scatterers(r.header) == labels &&
            forall i :: 0 <= i < |r.result.value| ==> |r.result.value[i].1| == |labels|
  {
    ScatterersRoundTrip(header, LabelValues(block.items[LabelsItem]));
  }

  /** A successful read of the loop is the reshaping of its parsed columns:
      the Miller indices of the three index columns, and the form factors
      built from the real and imaginary columns. */
  lemma ImportLoopOk<F>(scatterers: seq<string>, aff: map<string, seq<string>>,
                        parseFloat: string -> Option<F>, complexOf: (F, F) -> Complex128)
    requires ImportLoop(scatterers, aff, parseFloat, complexOf).Ok?
    ensures IndexH in aff && IndexK in aff && IndexL in aff && RealColumn in aff && ImagColumn in aff
    ensures ParseIndices(Zip3(aff[IndexH], aff[IndexK], aff[IndexL])).Ok?
    ensures ParseFloats(Tokens(aff[RealColumn]), parseFloat).Ok? && ParseFloats(Tokens(aff[ImagColumn]), parseFloat).Ok?
    ensures Combine(ParseFloats(Tokens(aff[RealColumn]), parseFloat).value,
                    ParseFloats(Tokens(aff[ImagColumn]), parseFloat).value, complexOf).Ok?
    ensures ImportLoop(scatterers, aff, parseFloat, complexOf) ==
            Reshape(ParseIndices(Zip3(aff[IndexH], aff[IndexK], aff[IndexL])).value,
                    Combine(ParseFloats(Tokens(aff[RealColumn]), parseFloat).value,
                            ParseFloats(Tokens(aff[ImagColumn]), parseFloat).value, complexOf).value,
                    |scatterers|)
  {
  }

  /** Columns that all parse leave the outcome to the count checks of the
      reshaping. */
  lemma ImportLoopOfColumns<F>(scatterers: seq<string>, aff: map<string, seq<string>>,
                               parseFloat: string -> Option<F>, complexOf: (F, F) -> Complex128,
                               hkls: seq<Hkl>, re: seq<F>, im: seq<F>, values: seq<Complex128>)
    requires IndexH in aff && IndexK in aff && IndexL in aff && RealColumn in aff && ImagColumn in aff
    requires ParseIndices(Zip3(aff[IndexH], aff[IndexK], aff[IndexL])) == Ok(hkls)
    requires ParseFloats(Tokens(aff[RealColumn]), parseFloat) == Ok(re)
    requires ParseFloats(Tokens(aff[ImagColumn]), parseFloat) == Ok(im)
    requires Combine(re, im, complexOf) == Ok(values)
    ensures ImportLoop(scatterers, aff, parseFloat, complexOf) == Reshape(hkls, values, |scatterers|)
  {
  }

  /** Entry i of d is the i-th Miller index with form factors i·n up to i·n + n. */
  predicate RowMajor(d: Data, hkls: seq<Hkl>, values: seq<Complex128>, n: nat) {
    |d| == |hkls| &&
    forall i :: 0 <= i < |d| ==>
      RowStart(i, n) + n <= |values| && d[i] == (hkls[i], values[RowStart(i, n)..RowStart(i, n) + n])
  }

  /** A table Reshape has built from distinct indices is row-major. */
  lemma ReshapeRowMajor(d: Data, hkls: seq<Hkl>, values: seq<Complex128>, n: nat)
    requires Reshape(hkls, values, n) == Ok(d)
    requires forall i, j :: 0 <= i < j < |hkls| ==> hkls[i] != hkls[j]
    ensures RowMajor(d, hkls, values, n)
  {
    ReshapeRows(hkls, values, n);
  }

  /** A successful import is the read of the `_aspheric_ff` loop against the
      scatterers it has just set. */
  lemma ImportIsLoop<F>(header: Header, block: CifBlock, parseFloat: string -> Option<F>, complexOf: (F, F) -> Complex128)
    requires Import(header, block, parseFloat, complexOf).result.Ok?
    ensures AffLoop in block.loops
    ensures var r := Import(header, block, parseFloat, complexOf);
            r.result == ImportLoop(Scatterers(r.header), block.loops[AffLoop], parseFloat, complexOf)
  {
  }

  /** The imported table is row-major: with distinct Miller indices, entry i
      is the i-th index with form factors i·n up to i·n + n, where n is the
      number of scatterers the import has set. */
  lemma ImportRowMajor<F>(header: Header, block: CifBlock, parseFloat: string -> Option<F>, complexOf: (F, F) -> Complex128,
                          hkls: seq<Hkl>, re: seq<F>, im: seq<F>, values: seq<Complex128>)
    requires Import(header, block, parseFloat, complexOf).result.Ok?
    requires var aff := block.loops[AffLoop];
             && IndexH in aff && IndexK in aff && IndexL in aff && RealColumn in aff && ImagColumn in aff
             && ParseIndices(Zip3(aff[IndexH], aff[IndexK], aff[IndexL])) == Ok(hkls)
             && ParseFloats(Tokens(aff[RealColumn]), parseFloat) == Ok(re)
             && ParseFloats(Tokens(aff[ImagColumn]), parseFloat) == Ok(im)
             && Combine(re, im, complexOf) == Ok(values)
    requires forall i, j :: 0 <= i < j < |hkls| ==> hkls[i] != hkls[j]
    ensures var r := Import(header, block, parseFloat, complexOf);
            RowMajor(r.result.value, hkls, values, |Scatterers(r.header)|)
  {
    var r := Import(header, block, parseFloat, complexOf);
    var n := |Scatterers(r.header)|;
    ImportIsLoop(header, block, parseFloat, complexOf);
    ImportLoopOfColumns(Scatterers(r.header), block.loops[AffLoop], parseFloat, complexOf, hkls, re, im, values);
    assert r.result == Reshape(hkls, values, n);
    ReshapeRowMajor(r.result.value, hkls, values, n);
  }
}
