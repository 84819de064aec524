/**
 * Label generation: the label record assembled from a chemical row and its
 * newest SDS extraction (`generate_label`), and the ZPL II program printed
 * from it (`generate_zpl_label`), with a reader that takes the printed
 * program apart again.
 */
module Zpl {
  import opened Wrappers
  import opened Text

  /* ------------------------------------------------------------ label data */

  /** The chemical columns the label query selects. A SQL NULL reads as "",
      as Python's `or` treats the two alike. */
  datatype LabelSource = LabelSource(
    chemicalName: string, casNumber: string, signalWord: string, manufacturer: string)

  /** A key of the stored SDS extraction: missing, present with JSON `null`,
      or present with a value. */
  datatype JsonKey<+T> = Absent | Null | Present(value: T) {

    /** `dict.get(key, default)`: the default for a missing key, Python's
        `None` for a JSON `null`. */
    function Get(default: T): (r: Option<T>)
      ensures r.None? <==> Null?
      ensures Absent? ==> r == Some(default)
      ensures Present? ==> r == Some(value)
    {
      match this
      case Absent => Some(default)
      case Null => None
      case Present(v) => Some(v)
    }

    /** The value when there is one, else `default`. */
    function PresentOr(default: T): T {
      if Present? then value else default
    }
  }

  /** The keys of the stored SDS extraction the label reads. A missing
      extraction has every key missing. */
  datatype SdsExtract = SdsExtract(
    signalWord: JsonKey<string>, manufacturer: JsonKey<string>,
    pictogramCodes: JsonKey<seq<string>>, hazardStatements: JsonKey<seq<string>>,
    precautionaryStatements: JsonKey<seq<string>>)

  const NoExtract := SdsExtract(Absent, Absent, Absent, Absent, Absent)

  datatype LabelRequest = LabelRequest(labelType: string, labelSize: string, quantity: int)

  /** The `label_data` record. `None` (Python's, from a JSON `null`) is kept
      where the source keeps it. */
  datatype LabelData = LabelData(
    productName: string, casNumber: string, signalWord: Option<string>,
    manufacturer: Option<string>, pictogramCodes: Option<seq<string>>,
    hazardStatements: Option<seq<string>>, precautionaryStatements: seq<string>,
    labelType: string, labelSize: string, quantity: int, generatedAt: string)

  /** A step that either gives a value or stops the request with Python's
      `TypeError` (a `None` sliced or joined). */
  datatype Outcome<+T> = Done(value: T) | TypeError

  /** Upstream cap on the precautionary statements a label carries. */
  const MaxPrecautions := 6

  /** Python's `xs[:n]` on a list. */
  function Take<T>(xs: seq<T>, n: nat): seq<T> {
    if |xs| <= n then xs else xs[..n]
  }

  /** How an f-string prints a text that may be `None`. */
  function Shown(x: Option<string>): string {
    x.GetOr("None")
  }

  /** The text a label prints for a column the row may leave empty: the
      row's own text, else the extract's, where a missing key prints nothing
      and a JSON `null` prints `None`. */
  function PrintedText(row: string, key: JsonKey<string>): string {
    if row != "" then row
    else match key
      case Absent => ""
      case Null => "None"
      case Present(v) => v
  }

  /** The `label_data` record; `generatedAt` is the caller's clock reading.
      Slicing a `null` precautionary list stops the request. */
  function BuildLabelData(chem: LabelSource, sds: SdsExtract, req: LabelRequest, generatedAt: string)
    : (r: Outcome<LabelData>)
    ensures r.TypeError? <==> sds.precautionaryStatements.Null?
    ensures r.Done? ==> r.value.productName == chem.chemicalName && r.value.casNumber == chem.casNumber
    ensures r.Done? && chem.signalWord != "" ==> r.value.signalWord == Some(chem.signalWord)
    ensures r.Done? && chem.signalWord == "" ==> r.value.signalWord == sds.signalWord.Get("")
    ensures r.Done? && chem.manufacturer != "" ==> r.value.manufacturer == Some(chem.manufacturer)
    ensures r.Done? && chem.manufacturer == "" ==> r.value.manufacturer == sds.manufacturer.Get("")
    ensures r.Done? ==> Shown(r.value.signalWord) == PrintedText(chem.signalWord, sds.signalWord)
    ensures r.Done? ==> Shown(r.value.manufacturer) == PrintedText(chem.manufacturer, sds.manufacturer)
    ensures r.Done? ==> r.value.pictogramCodes == sds.pictogramCodes.Get([])
    ensures r.Done? ==> r.value.hazardStatements == sds.hazardStatements.Get([])
    ensures r.Done? ==> |r.value.precautionaryStatements|
                        == Min(|sds.precautionaryStatements.PresentOr([])|, MaxPrecautions)
    ensures r.Done? ==> r.value.precautionaryStatements
                        == sds.precautionaryStatements.PresentOr([])[..|r.value.precautionaryStatements|]
    ensures r.Done? ==> r.value.labelType == req.labelType && r.value.labelSize == req.labelSize
    ensures r.Done? ==> r.value.quantity == req.quantity && r.value.generatedAt == generatedAt
  {
    match sds.precautionaryStatements.Get([])
    case None => TypeError
    case Some(precautions) =>
      Done(LabelData(
        chem.chemicalName,
        chem.casNumber,
        if chem.signalWord != "" then Some(chem.signalWord) else sds.signalWord.Get(""),
        if chem.manufacturer != "" then Some(chem.manufacturer) else sds.manufacturer.Get(""),
        sds.pictogramCodes.Get([]),
        sds.hazardStatements.Get([]),
        Take(precautions, MaxPrecautions),
        req.labelType, req.labelSize, req.quantity, generatedAt))
  }

  function Min(a: int, b: int): int {
    if a <= b then a else b
  }

  /* --------------------------------------------------------- the encoder */

  const PrimaryType := "ghs_primary"
  const SecondaryType := "secondary"

  /** The label types that get ZPL. */
  predicate Printable(labelType: string) {
    labelType == PrimaryType || labelType == SecondaryType
  }

  const MaxName := 40
  const MaxHazards := 300
  const MaxSecondaryHazards := 100
  const MaxPrecautionText := 400

  const FieldStart := "^FD"
  const FieldEnd := "^FS"
  const CopiesCommand := "^PQ"

  /** One line of a ZPL II program: fixed commands, a field (positioning and
      font commands, then its data between `^FD` and `^FS`), or the copy
      count. */
  datatype ZplLine =
    | Command(text: string)
    | Field(format: string, data: string)
    | PrintQuantity(count: int)

  const Blank := Command("")

  function Render(l: ZplLine): string {
    match l
    case Command(t) => t
    case Field(f, x) => f + (FieldStart + (x + FieldEnd))
    case PrintQuantity(n) => CopiesCommand + IntToString(n)
  }

  function RenderAll(lines: seq<ZplLine>): (out: seq<string>)
    ensures |out| == |lines|
    ensures forall k :: 0 <= k < |lines| ==> out[k] == Render(lines[k])
  {
    seq(|lines|, k requires 0 <= k < |lines| => Render(lines[k]))
  }

  /** The program text: its lines separated by newlines. */
  function Program(lines: seq<ZplLine>): string {
    Join(RenderAll(lines), "\n")
  }

  /** The texts a label prints. The pictogram list is joined only for the
      full label, so `pictograms` is None when the codes are `None`. */
  datatype LabelText = LabelText(
    name: string, signal: string, pictograms: Option<string>, hazards: string,
    precautions: string, supplier: string, cas: string, date: string, quantity: int)

  /** The field values of `generate_zpl_label`, cut to the widths the
      templates allow; `date` is today's date. Joining a `None` hazard list
      stops the request. */
  function LabelTextOf(d: LabelData, date: string): (r: Outcome<LabelText>)
    ensures r.TypeError? <==> d.hazardStatements.None?
    ensures r.Done? ==> |r.value.name| == Min(|d.productName|, MaxName) && r.value.name <= d.productName
    ensures r.Done? && |d.productName| <= MaxName ==> r.value.name == d.productName
    ensures r.Done? ==> |r.value.hazards| == Min(|Join(d.hazardStatements.value, " ")|, MaxHazards)
    ensures r.Done? ==> r.value.hazards <= Join(d.hazardStatements.value, " ")
    ensures r.Done? ==> |r.value.precautions|
                        == Min(|Join(d.precautionaryStatements, " ")|, MaxPrecautionText)
    ensures r.Done? ==> r.value.precautions <= Join(d.precautionaryStatements, " ")
    ensures r.Done? ==> r.value.signal == Shown(d.signalWord) && r.value.supplier == Shown(d.manufacturer)
    ensures r.Done? ==> r.value.cas == d.casNumber
    ensures r.Done? ==> (r.value.pictograms.Some? <==> d.pictogramCodes.Some?)
    ensures r.Done? && d.pictogramCodes.Some?
            ==> r.value.pictograms == Some(Join(d.pictogramCodes.value, ", "))
    ensures r.Done? ==> r.value.date == date && r.value.quantity == d.quantity
  {
    match d.hazardStatements
    case None => TypeError
    case Some(hazards) =>
      Done(LabelText(
        Truncate(d.productName, MaxName),
        Shown(d.signalWord),
        match d.pictogramCodes
          case None => None
          case Some(codes) => Some(Join(codes, ", ")),
        Truncate(Join(hazards, " "), MaxHazards),
        Truncate(Join(d.precautionaryStatements, " "), MaxPrecautionText),
        Shown(d.manufacturer),
        d.casNumber,
        date,
        d.quantity))
  }

  /** The small 2x1 container label. */
  function SecondaryTemplate(t: LabelText): seq<ZplLine> {
    [ Command("^XA"),
      Command("^CI28"),
      Field("^FO10,10^A0N,28,28", t.name),
      Field("^FO10,45^A0N,22,22", t.signal),
      Field("^FO10,75^FB380,3,0,L^A0N,16,16", Truncate(t.hazards, MaxSecondaryHazards)),
      PrintQuantity(t.quantity),
      Command("^XZ") ]
  }

  /** The full 4x6 GHS label. */
  function PrimaryTemplate(t: LabelText): seq<ZplLine>
    requires t.pictograms.Some?
  {
    PrimaryHead(t) + PrimarySignal(t) + PrimaryStatements(t) + PrimaryFooter(t)
  }

  function PrimaryHead(t: LabelText): seq<ZplLine> {
    [ Command("^XA"),
      Command("^CI28"),
      Command("^CF0,30,30"),
      Blank,
      Command("~DGR:LABEL.GRF,0,0,"),
      Field("^FO40,40^A0N,50,50", t.name),
      Blank ]
  }

  function PrimarySignal(t: LabelText): seq<ZplLine>
    requires t.pictograms.Some?
  {
    [ Command("^FO40,110^GB730,55,55,B^FS"),
      Field("^FO50,115^FR^A0N,42,42", t.signal),
      Blank,
      Field("^FO40,185^A0N,20,20", "Pictograms: " + t.pictograms.value),
      Blank ]
  }

  function PrimaryStatements(t: LabelText): seq<ZplLine> {
    [ Field("^FO40,220^A0N,18,18", "Hazard Statements:"),
      Field("^FO40,245^FB730,6,0,L^A0N,18,18", t.hazards),
      Blank,
      Field("^FO40,400^A0N,18,18", "Precautionary Statements:"),
      Field("^FO40,425^FB730,8,0,L^A0N,16,16", t.precautions),
      Blank ]
  }

  function PrimaryFooter(t: LabelText): seq<ZplLine> {
    [ Field("^FO40,620^A0N,18,18", "Supplier: " + t.supplier),
      Field("^FO40,650^A0N,16,16", "CAS: " + t.cas),
      Field("^FO40,675^A0N,14,14", "Generated: " + t.date),
      Blank,
      PrintQuantity(t.quantity),
      Command("^XZ") ]
  }

  /** `generate_zpl_label`: the secondary template exactly when the label
      type is "secondary", the full label for every other type. It stops on
      a `None` hazard list, and on `None` pictogram codes for the full
      label only. */
  function EncodeZpl(d: LabelData, date: string): (r: Outcome<string>)
    ensures r.TypeError? <==> d.hazardStatements.None?
                              || (d.labelType != SecondaryType && d.pictogramCodes.None?)
  {
    match LabelTextOf(d, date)
    case TypeError => TypeError
    case Done(t) =>
      if d.labelType == SecondaryType then Done(Program(SecondaryTemplate(t)))
      else if t.pictograms.None? then TypeError
      else Done(Program(PrimaryTemplate(t)))
  }

  /** A generated label: the record and the ZPL stored with it, which only
      GHS primary and secondary labels get. */
  datatype GeneratedLabel = GeneratedLabel(data: LabelData, zpl: Option<string>)

  /** `generate_label` after its query. The request stops with a
      `TypeError` for a `null` precautionary list, for a `null` hazard list
      on a label that gets ZPL, and for `null` pictogram codes on a GHS
      primary label. */
  function GenerateLabel(chem: LabelSource, sds: SdsExtract, req: LabelRequest,
                         generatedAt: string, date: string): (r: Outcome<GeneratedLabel>)
    ensures r.TypeError? <==> sds.precautionaryStatements.Null?
                              || (Printable(req.labelType) && sds.hazardStatements.Null?)
                              || (req.labelType == PrimaryType && sds.pictogramCodes.Null?)
    ensures r.Done? ==> BuildLabelData(chem, sds, req, generatedAt) == Done(r.value.data)
    ensures r.Done? ==> (r.value.zpl.Some? <==> Printable(req.labelType))
    ensures r.Done? && r.value.zpl.Some? ==> EncodeZpl(r.value.data, date) == Done(r.value.zpl.value)
  {
    match BuildLabelData(chem, sds, req, generatedAt)
    case TypeError => TypeError
    case Done(d) =>
      if !Printable(req.labelType) then Done(GeneratedLabel(d, None))
      else match EncodeZpl(d, date)
        case TypeError => TypeError
        case Done(zpl) => Done(GeneratedLabel(d, Some(zpl)))
  }

  /* ---------------------------------------------------------- the reader */

  /** The data of the first `^FD` command of a line, up to the next `^FS`. */
  function FieldData(line: string): Option<string> {
    match FindFrom(line, FieldStart, 0)
    case None => None
    case Some(i) => FieldDataFrom(line, i + |FieldStart|)
  }

  function FieldDataFrom(line: string, start: nat): Option<string> {
    match FindFrom(line, FieldEnd, start)
    case None => None
    case Some(j) => Some(line[start..j])
  }

  function FieldList(f: Option<string>): seq<string> {
    match f
    case None => []
    case Some(x) => [x]
  }

  /** The field data of a program's lines, in order. */
  function Payloads(lines: seq<string>): seq<string> {
    if lines == [] then []
    else FieldList(FieldData(lines[0])) + Payloads(lines[1..])
  }

  predicate IsNumeral(s: string) {
    |s| >= 1 && forall k :: 0 <= k < |s| ==> IsDigit(s[k]) || (k == 0 && s[k] == '-')
  }

  /** The count of the first `^PQ` line carrying a numeral. */
  function CopyCount(lines: seq<string>): Option<int> {
    if lines == [] then None
    else if StartsWith(lines[0], CopiesCommand) && IsNumeral(lines[0][|CopiesCommand|..])
    then Some(ParseInt(lines[0][|CopiesCommand|..]))
    else CopyCount(lines[1..])
  }

  datatype Reading = Reading(fields: seq<string>, copies: Option<int>)

  /** What a reader of the program text recovers: the field data in order
      and the copy count. */
  function ReadLabel(zpl: string): Reading {
    var lines := Split(zpl, "\n");
    Reading(Payloads(lines), CopyCount(lines))
  }

  /* ----------------------------------------------- template-side reading */

  /** The data of a template's fields, in order. */
  function FieldsOf(lines: seq<ZplLine>): seq<string> {
    if lines == [] then []
    else (if lines[0].Field? then [lines[0].data] else []) + FieldsOf(lines[1..])
  }

  /** The count of a template's first copy-count line. */
  function CountOf(lines: seq<ZplLine>): Option<int> {
    if lines == [] then None
    else if lines[0].PrintQuantity? then Some(lines[0].count)
    else CountOf(lines[1..])
  }

  /** Text that prints verbatim inside a field: no line break and no caret
      (ZPL's command prefix). */
  predicate Plain(s: string) {
    forall k :: 0 <= k < |s| ==> s[k] != '\n' && s[k] != '^'
  }

  /** Field formats start with a two-letter command other than `^P?` and
      hold no `D`, so no `^FD` before the data's own. */
  predicate FormatOk(f: string) {
    |f| >= 2 && f[1] != 'P' && forall k :: 0 <= k < |f| ==> f[k] != 'D' && f[k] != '\n'
  }

  /** No caret two places before a `D`, so no `^FD` either. */
  predicate NoFieldStart(s: string) {
    forall k :: 0 <= k < |s| - 2 ==> s[k] != '^' || s[k + 2] != 'D'
  }

  /** Fixed commands hold no `^FD` and do not start like `^PQ`. */
  predicate CommandOk(t: string) {
    (|t| < 2 || t[1] != 'P') && NoFieldStart(t) && forall k :: 0 <= k < |t| ==> t[k] != '\n'
  }

  predicate WellFormed(l: ZplLine) {
    match l
    case Command(t) => CommandOk(t)
    case Field(f, x) => FormatOk(f) && Plain(x)
    case PrintQuantity(_) => true
  }

  predicate AllWellFormed(lines: seq<ZplLine>) {
    forall k :: 0 <= k < |lines| ==> WellFormed(lines[k])
  }

  /* ------------------------------------------------------ reader lemmas */

  lemma {:induction false} PayloadsAppend(a: seq<string>, b: seq<string>)
    ensures Payloads(a + b) == Payloads(a) + Payloads(b)
    decreases |a|
  {
    if a == [] {
      assert a + b == b;
    } else {
      assert (a + b)[1..] == a[1..] + b;
      PayloadsAppend(a[1..], b);
    }
  }

  lemma {:induction false} FieldsOfAppend(a: seq<ZplLine>, b: seq<ZplLine>)
    ensures FieldsOf(a + b) == FieldsOf(a) + FieldsOf(b)
    decreases |a|
  {
    if a == [] {
      assert a + b == b;
    } else {
      assert (a + b)[1..] == a[1..] + b;
      FieldsOfAppend(a[1..], b);
    }
  }

  lemma {:induction false} CountOfAppend(a: seq<ZplLine>, b: seq<ZplLine>)
    ensures CountOf(a + b) == if CountOf(a).Some? then CountOf(a) else CountOf(b)
    decreases |a|
  {
    if a == [] {
      assert a + b == b;
    } else {
      assert (a + b)[1..] == a[1..] + b;
      CountOfAppend(a[1..], b);
    }
  }

  /** A field line gives back its data, provided the format commands contain
      no `D` (so no `^FD` before the intended one) and the data no caret. */
  lemma {:induction false} FieldLineData(format: string, data: string)
    requires forall k :: 0 <= k < |format| ==> format[k] != 'D'
    requires Plain(data)
    ensures FieldData(Render(Field(format, data))) == Some(data)
  {
    var line := Render(Field(format, data));
    FieldStartFound(format, data);
    var s := |format| + 3;
    var rest := line[s..];
    assert rest == data + FieldEnd;
    assert rest[..|data|] == data;
    forall j | s <= j < s + |data| ensures line[j] != '^' {
      assert line[j] == data[j - s];
    }
    FirstEndAfter(line, s, |data|);
  }

  lemma {:induction false} FieldStartFound(format: string, data: string)
    requires forall k :: 0 <= k < |format| ==> format[k] != 'D'
    ensures FindFrom(Render(Field(format, data)), FieldStart, 0) == Some(|format|)
  {
    var line := Render(Field(format, data));
    var tail := FieldStart + (data + FieldEnd);
    var i := |format|;
    assert line[i..i + 3] == tail[..3] == FieldStart;
    forall j | 0 <= j < i ensures !OccursAt(line, FieldStart, j) {
      if j + 2 < i {
        assert line[j + 2] == format[j + 2];
      } else {
        assert line[j + 2] == tail[j + 2 - i];
      }
      Mismatch(line, FieldStart, j, 2);
    }
    FindFromAt(line, FieldStart, 0, i);
  }

  /** `^FS` is found right after a caret-free stretch. */
  lemma {:induction false} FirstEndAfter(line: string, s: nat, n: nat)
    requires s + n + 3 <= |line|
    requires line[s..] == line[s..][..n] + FieldEnd
    requires forall j :: s <= j < s + n ==> line[j] != '^'
    ensures FieldDataFrom(line, s) == Some(line[s..][..n])
  {
    var rest := line[s..];
    assert line[s + n..s + n + 3] == rest[n..n + 3] == FieldEnd;
    forall j | s <= j < s + n ensures !OccursAt(line, FieldEnd, j) {
      Mismatch(line, FieldEnd, j, 0);
    }
    FindFromAt(line, FieldEnd, s, s + n);
    assert line[s..s + n] == rest[..n];
  }

  /** A line without `^FD` carries no field. */
  lemma {:induction false} NoFieldData(line: string)
    requires NoFieldStart(line)
    ensures FieldData(line) == None
  {
    FindFromSpec(line, FieldStart, 0);
    if FindFrom(line, FieldStart, 0).Some? {
      var i := FindFrom(line, FieldStart, 0).value;
      if line[i] == '^' {
        Mismatch(line, FieldStart, i, 2);
      } else {
        Mismatch(line, FieldStart, i, 0);
      }
    }
  }

  lemma {:induction false} IntToStringShape(i: int)
    ensures IsNumeral(IntToString(i))
    ensures forall k :: 0 <= k < |IntToString(i)| ==> IntToString(i)[k] !in "\n^D"
  {
    var r := IntToString(i);
    if i < 0 {
      assert r == "-" + NatToString(-i);
      forall k | 0 < k < |r| ensures IsDigit(r[k]) {
        assert r[k] == NatToString(-i)[k - 1];
      }
    }
    forall k | 0 <= k < |r| ensures r[k] !in "\n^D" {
      assert IsDigit(r[k]) || r[k] == '-';
    }
  }

  /** A well-formed line renders as one line of text. */
  lemma {:induction false} RenderedSingle(l: ZplLine)
    requires WellFormed(l)
    ensures '\n' !in Render(l)
  {
    match l
    case Command(t) =>
    case Field(f, x) =>
      var r := Render(l);
      assert r == f + (FieldStart + (x + FieldEnd));
      forall k | 0 <= k < |r| ensures r[k] != '\n' {
        if k < |f| {
          assert r[k] == f[k];
        } else if |f| + 3 <= k < |f| + 3 + |x| {
          assert r[k] == x[k - |f| - 3];
        }
      }
    case PrintQuantity(n) =>
      IntToStringShape(n);
      var r := Render(l);
      forall k | 0 <= k < |r| ensures r[k] != '\n' {
        if k >= 3 {
          assert r[k] == IntToString(n)[k - 3];
        }
      }
  }

  /** A well-formed line yields exactly its own field data. */
  lemma {:induction false} RenderedField(l: ZplLine)
    requires WellFormed(l)
    ensures FieldData(Render(l)) == if l.Field? then Some(l.data) else None
  {
    match l
    case Command(t) =>
      NoFieldData(t);
    case Field(f, x) =>
      FieldLineData(f, x);
    case PrintQuantity(n) =>
      IntToStringShape(n);
      var r := Render(l);
      forall k | 0 <= k < |r| - 2 ensures r[k] != '^' || r[k + 2] != 'D' {
        if k >= 1 {
          assert r[k + 2] == IntToString(n)[k - 1];
        }
      }
      NoFieldData(r);
  }

  /** A well-formed line is a copy count exactly when it is the count line. */
  lemma {:induction false} RenderedCount(l: ZplLine, rest: seq<string>)
    requires WellFormed(l)
    ensures CopyCount([Render(l)] + rest)
            == if l.PrintQuantity? then Some(l.count) else CopyCount(rest)
  {
    var lines := [Render(l)] + rest;
    assert lines[0] == Render(l) && lines[1..] == rest;
    match l
    case Command(t) =>
      assert !StartsWith(t, CopiesCommand);
    case Field(f, x) =>
      assert Render(l)[1] == f[1];
    case PrintQuantity(n) =>
      IntToStringShape(n);
      assert Render(l)[|CopiesCommand|..] == IntToString(n);
      IntRoundTrip(n);
  }

  lemma {:induction false} PayloadsOfProgram(lines: seq<ZplLine>)
    requires AllWellFormed(lines)
    ensures Payloads(RenderAll(lines)) == FieldsOf(lines)
    decreases |lines|
  {
    if lines != [] {
      var out := RenderAll(lines);
      assert out[1..] == RenderAll(lines[1..]);
      PayloadsOfProgram(lines[1..]);
      RenderedField(lines[0]);
    }
  }

  lemma {:induction false} CountOfProgram(lines: seq<ZplLine>)
    requires AllWellFormed(lines)
    ensures CopyCount(RenderAll(lines)) == CountOf(lines)
    decreases |lines|
  {
    if lines != [] {
      var out := RenderAll(lines);
      assert out == [Render(lines[0])] + RenderAll(lines[1..]);
      CountOfProgram(lines[1..]);
      RenderedCount(lines[0], RenderAll(lines[1..]));
    }
  }

  /** Reading a well-formed program gives back the data of its fields, in
      template order, and the count of its first copy-count line. */
  lemma {:induction false} ReadProgram(lines: seq<ZplLine>)
    requires AllWellFormed(lines)
    ensures ReadLabel(Program(lines)) == Reading(FieldsOf(lines), CountOf(lines))
  {
    var out := RenderAll(lines);
    if lines == [] {
      assert Split(Program(lines), "\n") == [""];
      assert Payloads([""]) == FieldList(FieldData("")) + Payloads([]);
      NoFieldData("");
    } else {
      forall k | 0 <= k < |out| ensures '\n' !in out[k] {
        RenderedSingle(lines[k]);
      }
      JoinThenSplit(out, '\n');
    }
    PayloadsOfProgram(lines);
    CountOfProgram(lines);
  }

  /* ---------------------------------------------------- the two templates */

  predicate PlainText(t: LabelText) {
    Plain(t.name) && Plain(t.signal) && Plain(t.pictograms.GetOr("")) && Plain(t.hazards)
    && Plain(t.precautions) && Plain(t.supplier) && Plain(t.cas) && Plain(t.date)
  }

  lemma {:induction false} PlainTruncated(s: string, n: nat)
    requires Plain(s)
    ensures Plain(Truncate(s, n))
  {
    var r := Truncate(s, n);
    forall k | 0 <= k < |r| ensures r[k] != '\n' && r[k] != '^' {
      assert r[k] == s[k];
    }
  }

  lemma {:induction false} SecondaryCommands()
    ensures CommandOk("^XA") && CommandOk("^CI28") && CommandOk("^XZ")
  {
  }

  lemma {:induction false} SecondaryFormats()
    ensures FormatOk("^FO10,10^A0N,28,28") && FormatOk("^FO10,45^A0N,22,22")
    ensures FormatOk("^FO10,75^FB380,3,0,L^A0N,16,16")
  {
  }

  lemma {:induction false} SecondaryWellFormed(t: LabelText)
    requires PlainText(t)
    ensures AllWellFormed(SecondaryTemplate(t))
  {
    SecondaryCommands();
    SecondaryFormats();
    PlainTruncated(t.hazards, MaxSecondaryHazards);
  }

  /** One step of `FieldsOf` and `CountOf` at an index of a template. */
  lemma {:induction false} TemplateStep(lines: seq<ZplLine>, i: nat)
    requires i < |lines|
    ensures FieldsOf(lines[i..])
            == (if lines[i].Field? then [lines[i].data] else []) + FieldsOf(lines[i + 1..])
    ensures CountOf(lines[i..])
            == if lines[i].PrintQuantity? then Some(lines[i].count) else CountOf(lines[i + 1..])
  {
    assert lines[i..][1..] == lines[i + 1..];
  }

  lemma {:induction false} SecondaryFields(t: LabelText)
    ensures FieldsOf(SecondaryTemplate(t))
            == [t.name, t.signal, Truncate(t.hazards, MaxSecondaryHazards)]
    ensures CountOf(SecondaryTemplate(t)) == Some(t.quantity)
  {
    var lines := SecondaryTemplate(t);
    assert lines[0..] == lines;
    TemplateStep(lines, 0);
    TemplateStep(lines, 1);
    TemplateStep(lines, 2);
    TemplateStep(lines, 3);
    TemplateStep(lines, 4);
    TemplateStep(lines, 5);
    TemplateStep(lines, 6);
    assert lines[7..] == [];
  }

  /** Reading a secondary label gives back its name, its signal word and the
      first 100 characters of its hazard text, then the copy count. */
  lemma {:induction false} SecondaryReadBack(t: LabelText)
    requires PlainText(t)
    ensures ReadLabel(Program(SecondaryTemplate(t)))
            == Reading([t.name, t.signal, Truncate(t.hazards, MaxSecondaryHazards)], Some(t.quantity))
  {
    SecondaryWellFormed(t);
    ReadProgram(SecondaryTemplate(t));
    SecondaryFields(t);
  }

  lemma {:induction false} PrimaryStartCommands()
    ensures CommandOk("^XA") && CommandOk("^CI28") && CommandOk("^CF0,30,30")
  {
  }

  lemma {:induction false} PrimaryOtherCommands()
    ensures CommandOk("") && CommandOk("~DGR:LABEL.GRF,0,0,") && CommandOk("^XZ")
  {
  }

  lemma {:induction false} PrimaryBoxCommand()
    ensures CommandOk("^FO40,110^GB730,55,55,B^FS")
  {
  }

  lemma {:induction false} PrimaryNameFormat()
    ensures FormatOk("^FO40,40^A0N,50,50")
  {
  }

  lemma {:induction false} PrimarySignalFormat()
    ensures FormatOk("^FO50,115^FR^A0N,42,42")
  {
  }

  lemma {:induction false} PrimaryPictogramFormat()
    ensures FormatOk("^FO40,185^A0N,20,20") && Plain("Pictograms: ")
  {
  }

  lemma {:induction false} PrimaryHazardHeading()
    ensures FormatOk("^FO40,220^A0N,18,18") && Plain("Hazard Statements:")
  {
  }

  lemma {:induction false} PrimaryHazardFormat()
    ensures FormatOk("^FO40,245^FB730,6,0,L^A0N,18,18")
  {
  }

  lemma {:induction false} PrimaryPrecautionHeading()
    ensures FormatOk("^FO40,400^A0N,18,18") && Plain("Precautionary Statements:")
  {
  }

  lemma {:induction false} PrimaryPrecautionFormat()
    ensures FormatOk("^FO40,425^FB730,8,0,L^A0N,16,16")
  {
  }

  lemma {:induction false} PrimarySupplierFormat()
    ensures FormatOk("^FO40,620^A0N,18,18") && Plain("Supplier: ")
  {
  }

  lemma {:induction false} PrimaryCasFormat()
    ensures FormatOk("^FO40,650^A0N,16,16") && Plain("CAS: ")
  {
  }

  lemma {:induction false} PrimaryDateFormat()
    ensures FormatOk("^FO40,675^A0N,14,14") && Plain("Generated: ")
  {
  }

  lemma {:induction false} AllWellFormedAppend(a: seq<ZplLine>, b: seq<ZplLine>)
    requires AllWellFormed(a) && AllWellFormed(b)
    ensures AllWellFormed(a + b)
  {
    forall k | 0 <= k < |a + b| ensures WellFormed((a + b)[k]) {
      if k >= |a| {
        assert (a + b)[k] == b[k - |a|];
      }
    }
  }

  lemma {:induction false} PrimaryHeadWellFormed(t: LabelText)
    requires Plain(t.name)
    ensures AllWellFormed(PrimaryHead(t))
  {
    PrimaryStartCommands();
    PrimaryOtherCommands();
    PrimaryNameFormat();
  }

  lemma {:induction false} PrimarySignalWellFormed(t: LabelText)
    requires t.pictograms.Some? && Plain(t.signal) && Plain(t.pictograms.value)
    ensures AllWellFormed(PrimarySignal(t))
  {
    PrimaryOtherCommands();
    PrimaryBoxCommand();
    PrimarySignalFormat();
    PrimaryPictogramFormat();
  }

  lemma {:induction false} PrimaryStatementsWellFormed(t: LabelText)
    requires Plain(t.hazards) && Plain(t.precautions)
    ensures AllWellFormed(PrimaryStatements(t))
  {
    PrimaryOtherCommands();
    PrimaryHazardHeading();
    PrimaryHazardFormat();
    PrimaryPrecautionHeading();
    PrimaryPrecautionFormat();
  }

  lemma {:induction false} PrimaryFooterWellFormed(t: LabelText)
    requires Plain(t.supplier) && Plain(t.cas) && Plain(t.date)
    ensures AllWellFormed(PrimaryFooter(t))
  {
    PrimaryOtherCommands();
    PrimarySupplierFormat();
    PrimaryCasFormat();
    PrimaryDateFormat();
  }

  lemma {:induction false} PrimaryWellFormed(t: LabelText)
    requires t.pictograms.Some? && PlainText(t)
    ensures AllWellFormed(PrimaryTemplate(t))
  {
    var h, s, m, f := PrimaryHead(t), PrimarySignal(t), PrimaryStatements(t), PrimaryFooter(t);
    PrimaryHeadWellFormed(t);
    PrimarySignalWellFormed(t);
    PrimaryStatementsWellFormed(t);
    PrimaryFooterWellFormed(t);
    AllWellFormedAppend(h, s);
    AllWellFormedAppend(h + s, m);
    AllWellFormedAppend(h + s + m, f);
  }

  lemma {:induction false} PrimaryHeadFields(t: LabelText)
    ensures FieldsOf(PrimaryHead(t)) == [t.name] && CountOf(PrimaryHead(t)) == None
  {
    var lines := PrimaryHead(t);
    assert lines[0..] == lines;
    TemplateStep(lines, 0);
    TemplateStep(lines, 1);
    TemplateStep(lines, 2);
    TemplateStep(lines, 3);
    TemplateStep(lines, 4);
    TemplateStep(lines, 5);
    TemplateStep(lines, 6);
    assert lines[7..] == [];
  }

  lemma {:induction false} PrimarySignalFields(t: LabelText)
    requires t.pictograms.Some?
    ensures FieldsOf(PrimarySignal(t)) == [t.signal, "Pictograms: " + t.pictograms.value]
    ensures CountOf(PrimarySignal(t)) == None
  {
    var lines := PrimarySignal(t);
    assert lines[0..] == lines;
    TemplateStep(lines, 0);
    TemplateStep(lines, 1);
    TemplateStep(lines, 2);
    TemplateStep(lines, 3);
    TemplateStep(lines, 4);
    assert lines[5..] == [];
  }

  lemma {:induction false} PrimaryStatementFields(t: LabelText)
    ensures FieldsOf(PrimaryStatements(t))
            == ["Hazard Statements:", t.hazards, "Precautionary Statements:", t.precautions]
    ensures CountOf(PrimaryStatements(t)) == None
  {
    var lines := PrimaryStatements(t);
    assert lines[0..] == lines;
    TemplateStep(lines, 0);
    TemplateStep(lines, 1);
    TemplateStep(lines, 2);
    TemplateStep(lines, 3);
    TemplateStep(lines, 4);
    TemplateStep(lines, 5);
    assert lines[6..] == [];
  }

  lemma {:induction false} PrimaryFooterFields(t: LabelText)
    ensures FieldsOf(PrimaryFooter(t))
            == ["Supplier: " + t.supplier, "CAS: " + t.cas, "Generated: " + t.date]
    ensures CountOf(PrimaryFooter(t)) == Some(t.quantity)
  {
    var lines := PrimaryFooter(t);
    assert lines[0..] == lines;
    TemplateStep(lines, 0);
    TemplateStep(lines, 1);
    TemplateStep(lines, 2);
    TemplateStep(lines, 3);
    TemplateStep(lines, 4);
    TemplateStep(lines, 5);
    assert lines[6..] == [];
  }

  /** The fields of the full label, in print order. */
  function PrimaryFields(t: LabelText): seq<string>
    requires t.pictograms.Some?
  {
    [ t.name, t.signal, "Pictograms: " + t.pictograms.value,
      "Hazard Statements:", t.hazards, "Precautionary Statements:", t.precautions,
      "Supplier: " + t.supplier, "CAS: " + t.cas, "Generated: " + t.date ]
  }

  lemma {:induction false} PrimaryTemplateFields(t: LabelText)
    requires t.pictograms.Some?
    ensures FieldsOf(PrimaryTemplate(t)) == PrimaryFields(t)
    ensures CountOf(PrimaryTemplate(t)) == Some(t.quantity)
  {
    var h, s, m, f := PrimaryHead(t), PrimarySignal(t), PrimaryStatements(t), PrimaryFooter(t);
    PrimaryHeadFields(t);
    PrimarySignalFields(t);
    PrimaryStatementFields(t);
    PrimaryFooterFields(t);
    FieldsOfAppend(h, s);
    FieldsOfAppend(h + s, m);
    FieldsOfAppend(h + s + m, f);
    CountOfAppend(h, s);
    CountOfAppend(h + s, m);
    CountOfAppend(h + s + m, f);
  }

  /** Reading a full label gives back every field in print order, then the
      copy count. */
  lemma {:induction false} PrimaryReadBack(t: LabelText)
    requires t.pictograms.Some? && PlainText(t)
    ensures ReadLabel(Program(PrimaryTemplate(t))) == Reading(PrimaryFields(t), Some(t.quantity))
  {
    PrimaryWellFormed(t);
    ReadProgram(PrimaryTemplate(t));
    PrimaryTemplateFields(t);
  }

  /* ------------------------------------------------- from the label data */

  predicate AllPlain(xs: seq<string>) {
    forall k :: 0 <= k < |xs| ==> Plain(xs[k])
  }

  /** Label data whose texts all print verbatim. */
  predicate PlainData(d: LabelData, date: string) {
    Plain(d.productName) && Plain(Shown(d.signalWord)) && Plain(Shown(d.manufacturer))
    && Plain(d.casNumber) && Plain(date) && AllPlain(d.pictogramCodes.GetOr([]))
    && AllPlain(d.hazardStatements.GetOr([])) && AllPlain(d.precautionaryStatements)
  }

  lemma {:induction false} PlainJoin(parts: seq<string>, sep: string)
    requires AllPlain(parts) && Plain(sep)
    ensures Plain(Join(parts, sep))
  {
    JoinAvoids(parts, sep, '\n');
    JoinAvoids(parts, sep, '^');
  }

  lemma {:induction false} PlainLabelText(d: LabelData, date: string)
    requires d.hazardStatements.Some? && PlainData(d, date)
    ensures LabelTextOf(d, date).Done? && PlainText(LabelTextOf(d, date).value)
  {
    var hazards := d.hazardStatements.value;
    PlainJoin(d.pictogramCodes.GetOr([]), ", ");
    PlainJoin(hazards, " ");
    PlainJoin(d.precautionaryStatements, " ");
    PlainTruncated(d.productName, MaxName);
    PlainTruncated(Join(hazards, " "), MaxHazards);
    PlainTruncated(Join(d.precautionaryStatements, " "), MaxPrecautionText);
  }

  /** Reading back a secondary label: the name cut to 40 characters, the
      signal word (`None` printed as such), the joined hazard statements cut
      to 100 characters, and the quantity. */
  lemma {:induction false} SecondaryLabelReadBack(d: LabelData, date: string)
    requires d.labelType == SecondaryType && PlainData(d, date)
    ensures EncodeZpl(d, date).Done?
            ==> ReadLabel(EncodeZpl(d, date).value)
                == Reading([Truncate(d.productName, MaxName), Shown(d.signalWord),
                            Truncate(Join(d.hazardStatements.value, " "), MaxSecondaryHazards)],
                           Some(d.quantity))
  {
    if d.hazardStatements.Some? {
      PlainLabelText(d, date);
      SecondaryReadBack(LabelTextOf(d, date).value);
      TruncateTwice(Join(d.hazardStatements.value, " "), MaxHazards, MaxSecondaryHazards);
    }
  }

  /** Reading back any other label: every field of the full template in
      print order, with the name cut to 40, the hazards to 300 and the
      precautions to 400 characters, and the quantity. */
  lemma {:induction false} PrimaryLabelReadBack(d: LabelData, date: string)
    requires d.labelType != SecondaryType && PlainData(d, date)
    ensures EncodeZpl(d, date).Done?
            ==> ReadLabel(EncodeZpl(d, date).value)
                == Reading([ Truncate(d.productName, MaxName), Shown(d.signalWord),
                             "Pictograms: " + Join(d.pictogramCodes.value, ", "),
                             "Hazard Statements:",
                             Truncate(Join(d.hazardStatements.value, " "), MaxHazards),
                             "Precautionary Statements:",
                             Truncate(Join(d.precautionaryStatements, " "), MaxPrecautionText),
                             "Supplier: " + Shown(d.manufacturer), "CAS: " + d.casNumber,
                             "Generated: " + date ],
                           Some(d.quantity))
  {
    if d.hazardStatements.Some? && d.pictogramCodes.Some? {
      PlainLabelText(d, date);
      PrimaryReadBack(LabelTextOf(d, date).value);
    }
  }

  /* ----------------------------------------- from the row and the extract */

  /** A chemical row, extract and date whose texts all print verbatim. */
  predicate PlainSources(chem: LabelSource, sds: SdsExtract, date: string) {
    Plain(chem.chemicalName) && Plain(chem.casNumber) && Plain(chem.signalWord)
    && Plain(chem.manufacturer) && Plain(sds.signalWord.PresentOr(""))
    && Plain(sds.manufacturer.PresentOr("")) && AllPlain(sds.pictogramCodes.PresentOr([]))
    && AllPlain(sds.hazardStatements.PresentOr([]))
    && AllPlain(sds.precautionaryStatements.PresentOr([])) && Plain(date)
  }

  lemma {:induction false} PlainPrinted(row: string, key: JsonKey<string>)
    requires Plain(row) && Plain(key.PresentOr(""))
    ensures Plain(PrintedText(row, key))
  {
    if row == "" && key.Null? {
      assert "None" == ['N', 'o', 'n', 'e'];
    }
  }

  lemma {:induction false} PlainBuiltData(chem: LabelSource, sds: SdsExtract, req: LabelRequest,
                                          generatedAt: string, date: string)
    requires PlainSources(chem, sds, date)
    ensures BuildLabelData(chem, sds, req, generatedAt).Done?
            ==> PlainData(BuildLabelData(chem, sds, req, generatedAt).value, date)
  {
    var r := BuildLabelData(chem, sds, req, generatedAt);
    if r.Done? {
      var d := r.value;
      PlainPrinted(chem.signalWord, sds.signalWord);
      PlainPrinted(chem.manufacturer, sds.manufacturer);
      var precautions := sds.precautionaryStatements.PresentOr([]);
      forall k | 0 <= k < |d.precautionaryStatements| ensures Plain(d.precautionaryStatements[k]) {
        assert d.precautionaryStatements[k] == precautions[k];
      }
    }
  }

  /** `generate_label` end to end for a secondary label. It succeeds exactly
      when neither the precautionary nor the hazard list is `null`, and then
      the stored ZPL reads back as the chemical's name cut to 40 characters,
      the row's signal word or else the extract's (`None` for a `null`),
      the extract's hazard statements joined and cut to 100 characters, and
      the requested quantity. */
  lemma {:induction false} GeneratedSecondaryReadsBack(chem: LabelSource, sds: SdsExtract, req: LabelRequest,
                                                       generatedAt: string, date: string)
    requires req.labelType == SecondaryType && PlainSources(chem, sds, date)
    ensures GenerateLabel(chem, sds, req, generatedAt, date).Done?
            <==> !sds.precautionaryStatements.Null? && !sds.hazardStatements.Null?
    ensures var g := GenerateLabel(chem, sds, req, generatedAt, date);
            g.Done? ==> g.value.zpl.Some?
                        && ReadLabel(g.value.zpl.value)
                           == Reading([ Truncate(chem.chemicalName, MaxName),
                                        PrintedText(chem.signalWord, sds.signalWord),
                                        Truncate(Join(sds.hazardStatements.PresentOr([]), " "),
                                                 MaxSecondaryHazards) ],
                                      Some(req.quantity))
  {
    var g := GenerateLabel(chem, sds, req, generatedAt, date);
    if g.Done? {
      PlainBuiltData(chem, sds, req, generatedAt, date);
      SecondaryLabelReadBack(g.value.data, date);
    }
  }

  /** `generate_label` end to end for a GHS primary label. It succeeds
      exactly when none of the three lists is `null`, and then the stored ZPL
      reads back as every field of the full template, taken from the row
      where it has a value and from the extract otherwise (`None` for a
      `null`), with at most six precautionary statements, and the requested
      quantity. */
  lemma {:induction false} GeneratedPrimaryReadsBack(chem: LabelSource, sds: SdsExtract, req: LabelRequest,
                                                     generatedAt: string, date: string)
    requires req.labelType == PrimaryType && PlainSources(chem, sds, date)
    ensures GenerateLabel(chem, sds, req, generatedAt, date).Done?
            <==> !sds.precautionaryStatements.Null? && !sds.hazardStatements.Null?
                 && !sds.pictogramCodes.Null?
    ensures var g := GenerateLabel(chem, sds, req, generatedAt, date);
            g.Done? ==> g.value.zpl.Some?
                        && ReadLabel(g.value.zpl.value)
                           == Reading([ Truncate(chem.chemicalName, MaxName),
                                        PrintedText(chem.signalWord, sds.signalWord),
                                        "Pictograms: " + Join(sds.pictogramCodes.PresentOr([]), ", "),
                                        "Hazard Statements:",
                                        Truncate(Join(sds.hazardStatements.PresentOr([]), " "), MaxHazards),
                                        "Precautionary Statements:",
                                        Truncate(Join(Take(sds.precautionaryStatements.PresentOr([]),
                                                           MaxPrecautions), " "),
                                                 MaxPrecautionText),
                                        "Supplier: " + PrintedText(chem.manufacturer, sds.manufacturer),
                                        "CAS: " + chem.casNumber, "Generated: " + date ],
                                      Some(req.quantity))
  {
    var g := GenerateLabel(chem, sds, req, generatedAt, date);
    if g.Done? {
      PlainBuiltData(chem, sds, req, generatedAt, date);
      PrimaryLabelReadBack(g.value.data, date);
    }
  }

  /** The secondary label prints nothing but the name, signal word, hazard
      text and quantity: pictograms, precautions, supplier, CAS number and
      date leave it unchanged. */
  lemma {:induction false} SecondaryIgnoresOtherFields(d: LabelData, e: LabelData, date: string, date': string)
    requires d.labelType == SecondaryType && e.labelType == SecondaryType
    requires d.productName == e.productName && d.signalWord == e.signalWord
    requires d.hazardStatements == e.hazardStatements && d.quantity == e.quantity
    ensures EncodeZpl(d, date) == EncodeZpl(e, date')
  {
  }
}
