/** The analyzer screen's non-visual logic: the status message, the payback
    display, the cash-flow rows handed to the table and the PDF report, and
    the rows of the CSV export with their cells' text. */
module Analyzer {
  import opened Numbers
  import opened Financial
  import CashFlowTable
  import Csv

  // ---------------------------------------------------------------------------
  // Status and payback display

  /** `getStatusMessage`. */
  function StatusMessage(status: Status): (m: string)
    ensures m == "All criteria passed - Proceed with development" <==> status == Green
    ensures m == "2/3 criteria passed - Review marginal metrics" <==> status == Yellow
    ensures m == "Insufficient performance - Consider alternatives" <==> status == Red
  {
    match status
    case Green => "All criteria passed - Proceed with development"
    case Yellow => "2/3 criteria passed - Review marginal metrics"
    case Red => "Insufficient performance - Consider alternatives"
  }

  /** The three statuses get three different messages. */
  lemma StatusMessageInjective(a: Status, b: Status)
    requires StatusMessage(a) == StatusMessage(b)
    ensures a == b
  {
  }

  /** The status as the export writes it. */
  function StatusName(status: Status): string
  {
    match status
    case Green => "GREEN"
    case Yellow => "YELLOW"
    case Red => "RED"
  }

  /** The payback cell: "No payback" for an infinite payback, otherwise the
      number to two decimals and " years"; an undefined payback is NaN and
      reads "NaN years". */
  function PaybackCell(pbp: PaybackOutcome, fixed2: real -> string): (s: string)
    ensures s == "No payback" <==> pbp.NoPayback?
    ensures pbp.Undefined? ==> s == "NaN years"
    ensures pbp.Years? ==> s == fixed2(pbp.years) + " years"
  {
    var value := PaybackNumber(pbp);
    if value == PosInf then "No payback"
    else
      var s := (if value.Finite? then fixed2(value.value) else "NaN") + " years";
      assert s[|s| - 1] == 's';
      s
  }

  // ---------------------------------------------------------------------------
  // Cash-flow rows for the table and the report

  /** The notes of year i's row. */
  function YearNote(i: nat): string
    requires 1 <= i <= 5
  {
    "Y" + NatToString(i) + " = EstMargin \U{00D7} RR" + NatToString(i)
  }

  /** Rows for years 0..5 (the outlay, then the five margins), followed by a
      terminal-value row labelled "5 (TV)" when it is used. The screen and the
      PDF report differ only in the terminal-value row's note. */
  function CashFlowRows(res: Results, useTV: bool, tvNote: string): (rows: seq<CashFlowTable.Row>)
    requires |res.flows| == 6
    ensures |rows| == if useTV then 7 else 6
    ensures forall i :: 0 <= i <= 5 ==> rows[i].year == NatToString(i)
    ensures rows[0].cashFlow == -res.nre && rows[0].notes == "Initial NRE (outflow)"
    ensures forall i :: 1 <= i <= 5 ==> rows[i].cashFlow == res.flows[i] && rows[i].notes == YearNote(i)
    ensures useTV ==> rows[6] == CashFlowTable.Row("5 (TV)", res.tv, tvNote)
  {
    var base := [CashFlowTable.Row("0", -res.nre, "Initial NRE (outflow)")]
                + seq(5, k requires 0 <= k < 5 => CashFlowTable.Row(NatToString(k + 1), res.flows[k + 1], YearNote(k + 1)));
    base + (if useTV then [CashFlowTable.Row("5 (TV)", res.tv, tvNote)] else [])
  }

  /** The rows the screen's table shows. */
  function ScreenRows(res: Results, useTV: bool): seq<CashFlowTable.Row>
    requires |res.flows| == 6
  {
    CashFlowRows(res, useTV, "Terminal Value")
  }

  /** The rows the PDF report shows. */
  function ReportRows(res: Results, useTV: bool): seq<CashFlowTable.Row>
    requires |res.flows| == 6
  {
    CashFlowRows(res, useTV, "Terminal Value (Y5 \U{00D7} Multiple)")
  }

  /** The report shows the same years and cash flows as the screen, with the
      same notes except on the terminal-value row. */
  lemma ReportMatchesScreen(res: Results, useTV: bool)
    requires |res.flows| == 6
    ensures var report, screen := ReportRows(res, useTV), ScreenRows(res, useTV);
            && |report| == |screen|
            && (forall i :: 0 <= i < |report| ==> report[i].year == screen[i].year && report[i].cashFlow == screen[i].cashFlow)
            && (forall i :: 0 <= i <= 5 ==> report[i].notes == screen[i].notes)
            && (useTV ==> report[6].notes != screen[6].notes)
  {
    var report, screen := ReportRows(res, useTV), ScreenRows(res, useTV);
    if useTV {
      assert report[6].notes[14] == ' ' != screen[6].notes[|screen[6].notes| - 1];
    }
  }

  /** Exactly one row is a terminal-value row, the last, when the terminal
      value is used, and none otherwise. */
  lemma TerminalValueRowOnlyWhenUsed(res: Results, useTV: bool, tvNote: string)
    requires |res.flows| == 6
    ensures var rows := CashFlowRows(res, useTV, tvNote);
            && (forall i :: 0 <= i <= 5 ==> !CashFlowTable.IsTvRow(rows[i]))
            && (useTV ==> CashFlowTable.IsTvRow(rows[6]))
  {
    var rows := CashFlowRows(res, useTV, tvNote);
    forall i | 0 <= i <= 5
      ensures !CashFlowTable.IsTvRow(rows[i])
    {
      assert rows[i].year == [DigitChar(i)];
    }
    if useTV {
      assert "5 (TV)"[3..5] == "TV";
    }
  }

  // ---------------------------------------------------------------------------
  // CSV cells

  /** A value pushed into a CSV row: a string or a number. */
  datatype Cell = Text(text: string) | Number(value: real)

  /** The library formatting the export relies on: `toLocaleString()`, the
      currency formatting `formatCurrency` uses, `toFixed(2)`, the number to
      string conversion of `String(n)` and template literals, and the export
      date. */
  datatype Formatter = Formatter(
    locale: real -> string,
    currency: real -> string,
    fixed2: real -> string,
    numberText: real -> string,
    date: string)

  /** `String(n)` never gives the empty string. */
  ghost predicate NumberTextNonEmpty(fmt: Formatter)
  {
    forall x :: fmt.numberText(x) != ""
  }

  /** A cell JavaScript treats as false in `cell || ''`: the empty string or 0. */
  predicate Falsy(c: Cell)
  {
    c == Text("") || c == Number(0.0)
  }

  /** `String(cell || '')`. */
  function CellText(c: Cell, fmt: Formatter): (s: string)
    ensures Falsy(c) ==> s == ""
    ensures NumberTextNonEmpty(fmt) ==> (s == "" <==> Falsy(c))
    ensures c.Text? ==> s == c.text
  {
    match c
    case Text(t) => t
    case Number(x) => if x == 0.0 then "" else fmt.numberText(x)
  }

  function RowText(row: seq<Cell>, fmt: Formatter): (texts: seq<string>)
    ensures |texts| == |row|
    ensures forall i :: 0 <= i < |row| ==> texts[i] == CellText(row[i], fmt)
  {
    seq(|row|, i requires 0 <= i < |row| => CellText(row[i], fmt))
  }

  function RowsText(rows: seq<seq<Cell>>, fmt: Formatter): (texts: seq<seq<string>>)
    ensures |texts| == |rows|
    ensures forall i :: 0 <= i < |rows| ==> texts[i] == RowText(rows[i], fmt)
  {
    seq(|rows|, i requires 0 <= i < |rows| => RowText(rows[i], fmt))
  }

  // ---------------------------------------------------------------------------
  // CSV sections

  /** Every row has at least one cell. */
  ghost predicate AllNonEmpty(rows: seq<seq<Cell>>)
  {
    forall i :: 0 <= i < |rows| ==> |rows[i]| >= 1
  }

  /** `field || 'Not specified'`. */
  function OrNotSpecified(field: Option<string>): string
  {
    if field.Some? && field.value != "" then field.value else "Not specified"
  }

  /** A metadata field exports as "Not specified" when it is absent or empty,
      and as itself otherwise. */
  lemma NotSpecifiedFallback(field: Option<string>)
    ensures field.None? || field.value == "" ==> OrNotSpecified(field) == "Not specified"
    ensures field.Some? && field.value != "" ==> OrNotSpecified(field) == field.value
    ensures OrNotSpecified(field) != ""
  {
  }

  function Money(x: real, fmt: Formatter): string
  {
    FormatCurrency(Finite(x), fmt.currency)
  }

  function Dollars(x: real, fmt: Formatter): string
  {
    "$" + fmt.locale(x)
  }

  function PassFail(pass: bool): string
  {
    if pass then "PASS" else "FAIL"
  }

  function Blank(n: nat): (cells: seq<Cell>)
    ensures |cells| == n
    ensures forall i :: 0 <= i < n ==> cells[i] == Text("")
  {
    if n == 0 then [] else [Text("")] + Blank(n - 1)
  }

  function HeaderSection(fmt: Formatter): (rows: seq<seq<Cell>>)
    ensures |rows| == 3
    ensures AllNonEmpty(rows)
  {
    [ [Text("ACS New Product Development Financial Analyzer")],
      [Text("Export Date"), Text(fmt.date)],
      Blank(2) ]
  }

  function MetadataSection(inputs: Inputs): (rows: seq<seq<Cell>>)
    ensures |rows| == 6
    ensures AllNonEmpty(rows)
  {
    [ [Text("PROJECT METADATA"), Text(""), Text("")],
      [Text("Field"), Text("Value"), Text("")],
      [Text("OEM PN"), Text(OrNotSpecified(inputs.oemPN)), Text("")],
      [Text("Development Partner"), Text(OrNotSpecified(inputs.devPartner)), Text("")],
      [Text("Sales Director"), Text(OrNotSpecified(inputs.salesDirector)), Text("")],
      Blank(3) ]
  }

  function CostSection(inputs: Inputs, res: Results, fmt: Formatter): (rows: seq<seq<Cell>>)
    ensures |rows| == 13
    ensures AllNonEmpty(rows)
  {
    [ [Text("COST BREAKDOWN INPUTS (NRE)"), Text(""), Text("")],
      [Text("Parameter"), Text("Value"), Text("Calculated Result")],
      [Text("OEM Parts Cost (per unit)"), Text(Dollars(inputs.oemCost, fmt)), Text("")],
      [Text("OEM Parts Qty"), Number(inputs.oemQty), Text("")],
      [Text("OEM Parts Investment"), Text(""), Text(Money(res.oemInv, fmt))],
      [Text("Materials Inspection"), Text(Dollars(inputs.matInspect, fmt)), Text("")],
      [Text("In-house Labor Hours"), Number(inputs.laborHours), Text("")],
      [Text("Labor Rate ($/hr)"), Text(Dollars(inputs.laborRate, fmt)), Text("")],
      [Text("Labor Cost Total"), Text(""), Text(Money(res.laborCost, fmt))],
      [Text("PMA Application Fee"), Text(Dollars(inputs.pmaFee, fmt)), Text("")],
      [Text("DER Fee"), Text(Dollars(inputs.derFee, fmt)), Text("")],
      [Text("TOTAL NRE COST"), Text(""), Text(Money(res.nre, fmt))],
      Blank(3) ]
  }

  function RevenueSection(inputs: Inputs, res: Results, fmt: Formatter): (rows: seq<seq<Cell>>)
    ensures |rows| == 9
    ensures AllNonEmpty(rows)
  {
    [ [Text("REVENUE & MARGIN INPUTS"), Text(""), Text("")],
      [Text("Parameter"), Text("Value"), Text("Calculated Result")],
      [Text("PMA Part SP (sell price)"), Text(Dollars(inputs.sp, fmt)), Text("")],
      [Text("PMA Part CP (cost)"), Text(Dollars(inputs.cp, fmt)), Text("")],
      [Text("Unit Margin"), Text(""), Text(Money(res.unitMargin, fmt))],
      [Text("Est Sales Qty (annual)"), Number(inputs.qty), Text("")],
      [Text("Est Annual Sales"), Text(""), Text(Money(res.estAnnualSales, fmt))],
      [Text("Est Annual Margin Dollars"), Text(""), Text(Money(res.estAnnualMargin, fmt))],
      Blank(3) ]
  }

  function RampRow(inputs: Inputs, i: nat, fmt: Formatter): seq<Cell>
    requires 1 <= i <= Horizon
  {
    [ Text("RR Y" + NatToString(i) + " (%)"),
      Text(fmt.numberText(RampRate(inputs, i)) + "%"),
      Text("Ramp Rate Year " + NatToString(i)) ]
  }

  function RampSection(inputs: Inputs, res: Results, fmt: Formatter): (rows: seq<seq<Cell>>)
    ensures |rows| == 13
    ensures AllNonEmpty(rows)
  {
    [ [Text("RAMP & TERMINAL INPUTS"), Text(""), Text("")],
      [Text("Parameter"), Text("Value"), Text("Notes")],
      RampRow(inputs, 1, fmt), RampRow(inputs, 2, fmt), RampRow(inputs, 3, fmt),
      RampRow(inputs, 4, fmt), RampRow(inputs, 5, fmt),
      [Text("Y5 Cash Flow"), Text(""), Text(Money(res.y5, fmt))],
      [Text("Terminal Multiple \U{00D7} Y5 CF"), Number(inputs.terminalMultiple), Text("")],
      [Text("Terminal Value"), Text(""), Text(Money(res.tv, fmt))],
      [Text("Use Terminal Value in NPV"), Text(if inputs.useTV then "Yes" else "No"), Text("")],
      [Text("Discount Rate (%)"), Text(fmt.numberText(inputs.discount) + "%"), Text("WACC or required return")],
      Blank(3) ]
  }

  function ResultsSection(inputs: Inputs, res: Results, fmt: Formatter): (rows: seq<seq<Cell>>)
    ensures |rows| == 8
    ensures AllNonEmpty(rows)
  {
    [ [Text("ANALYSIS RESULTS"), Text(""), Text("")],
      [Text("Metric"), Text("Result"), Text("Threshold"), Text("Status")],
      [ Text("NPV (with TV if enabled)"), Text(Money(res.npv, fmt)),
        Text(Money(inputs.thrNPV, fmt)), Text(PassFail(res.passNPV)) ],
      [ Text("IRR (5y, no TV)"), Text(FormatPercentage(IrrNumber(res.irr), fmt.fixed2)),
        Text(fmt.numberText(inputs.thrIRR) + "%"), Text(PassFail(res.passIRR)) ],
      [ Text("Payback Period"), Text(PaybackCell(res.pbp, fmt.fixed2)),
        Text(fmt.numberText(inputs.thrPBP) + " years"), Text(PassFail(res.passPBP)) ],
      Blank(4),
      [ Text("Overall Status"), Text(StatusName(res.status)),
        Text(NatToString(res.passes) + "/3 criteria passed"), Text(StatusMessage(res.status)) ],
      Blank(4) ]
  }

  /** One line of the CSV cash-flow table before formatting. */
  datatype CashLine = CashLine(year: string, value: real, note: string, cumulative: real)

  /** The loop over years i..5 with the running `cumulative`, then the
      terminal-value line when it is used. */
  /** The line for year k: its label, its flow, its note and the given
      running total. */
  ghost predicate ShowsYear(line: CashLine, flows: seq<real>, k: nat, cumulative: real)
    requires |flows| == 6 && 1 <= k <= 5
  {
    && line.year == NatToString(k)
    && line.value == flows[k]
    && line.note == YearNote(k)
    && line.cumulative == cumulative
  }

  function YearLines(flows: seq<real>, tv: real, useTV: bool, i: nat, cumulative: real): (lines: seq<CashLine>)
    requires |flows| == 6 && 1 <= i <= 6
    ensures |lines| == 6 - i + (if useTV then 1 else 0)
    ensures forall k :: i <= k <= 5 ==>
              ShowsYear(lines[k - i], flows, k, cumulative + Recovered(flows, k) - Recovered(flows, i - 1))
    ensures useTV ==>
              lines[6 - i] == CashLine("5 (TV)", tv, "Terminal Value",
                                       cumulative + Recovered(flows, 5) - Recovered(flows, i - 1) + tv)
    decreases 6 - i
  {
    if i == 6 then
      if useTV then [CashLine("5 (TV)", tv, "Terminal Value", cumulative + tv)] else []
    else
      var cum := cumulative + flows[i];
      [CashLine(NatToString(i), flows[i], YearNote(i), cum)] + YearLines(flows, tv, useTV, i + 1, cum)
  }

  /** The lines of the CSV cash-flow table: year 0 shows the outlay, year i
      the outlay plus the flows of years 1..i, and the terminal-value line,
      present only when it is used, that five-year total plus the terminal
      value. */
  function CashLines(res: Results, useTV: bool): (lines: seq<CashLine>)
    requires |res.flows| == 6
    ensures |lines| == if useTV then 7 else 6
    ensures lines[0] == CashLine("0", -res.nre, "Initial NRE (outflow)", -res.nre)
    ensures forall i :: 1 <= i <= 5 ==> ShowsYear(lines[i], res.flows, i, -res.nre + Recovered(res.flows, i))
    ensures useTV ==> lines[6] == CashLine("5 (TV)", res.tv, "Terminal Value", -res.nre + Recovered(res.flows, 5) + res.tv)
  {
    var cumulative := 0.0;
    var first := CashLine("0", -res.nre, "Initial NRE (outflow)", cumulative - res.nre);
    var rest := YearLines(res.flows, res.tv, useTV, 1, cumulative + -res.nre);
    assert Recovered(res.flows, 0) == 0.0;
    [first] + rest
  }

  /** One exported line: year, flow, note and cumulative, the amounts as money. */
  function CashLineRow(line: CashLine, fmt: Formatter): seq<Cell>
  {
    [Text(line.year), Text(Money(line.value, fmt)), Text(line.note), Text(Money(line.cumulative, fmt))]
  }

  /** `forEach` over the lines, one exported row per line, in order. */
  function CashLineRows(lines: seq<CashLine>, fmt: Formatter): (rows: seq<seq<Cell>>)
    ensures |rows| == |lines|
    ensures forall k :: 0 <= k < |lines| ==> rows[k] == CashLineRow(lines[k], fmt)
    ensures AllNonEmpty(rows)
  {
    if |lines| == 0 then []
    else
      var rest := CashLineRows(lines[1..], fmt);
      ConcatNonEmpty([CashLineRow(lines[0], fmt)], rest);
      [CashLineRow(lines[0], fmt)] + rest
  }

  /** The cash-flow block around the given lines: title, column headings,
      one row per line, and a closing blank row. */
  function CashFlowBlock(lines: seq<CashLine>, fmt: Formatter): (rows: seq<seq<Cell>>)
    ensures |rows| == |lines| + 3
    ensures rows[0] == [Text("CASH FLOW ANALYSIS"), Text(""), Text(""), Text("")]
    ensures forall k :: 0 <= k < |lines| ==> rows[k + 2] == CashLineRow(lines[k], fmt)
    ensures AllNonEmpty(rows)
  {
    var head := [ [Text("CASH FLOW ANALYSIS"), Text(""), Text(""), Text("")],
                  [Text("Year"), Text("Cash Flow"), Text("Calculation Notes"), Text("Cumulative")] ];
    var body := CashLineRows(lines, fmt);
    Framed(head, body, [Blank(4)]);
    head + body + [Blank(4)]
  }

  function CashFlowSection(res: Results, useTV: bool, fmt: Formatter): (rows: seq<seq<Cell>>)
    requires |res.flows| == 6
    ensures |rows| == if useTV then 10 else 9
    ensures rows[0] == [Text("CASH FLOW ANALYSIS"), Text(""), Text(""), Text("")]
    ensures forall k :: 0 <= k < |rows| - 3 ==> rows[k + 2] == CashLineRow(CashLines(res, useTV)[k], fmt)
    ensures AllNonEmpty(rows)
  {
    CashFlowBlock(CashLines(res, useTV), fmt)
  }

  /** The whitespace `String.prototype.trim` removes. */
  predicate IsWhitespace(c: char)
  {
    c == ' ' || c == '\t' || c == '\n' || c == '\r' || c == '\U{000B}' || c == '\U{000C}'
    || c == '\U{00A0}' || c == '\U{1680}' || ('\U{2000}' <= c <= '\U{200A}')
    || c == '\U{2028}' || c == '\U{2029}' || c == '\U{202F}' || c == '\U{205F}'
    || c == '\U{3000}' || c == '\U{FEFF}'
  }

  /** The first position at or after `i` that is not whitespace, or the end. */
  function SkipLeading(s: string, i: nat): (b: nat)
    requires i <= |s|
    ensures i <= b <= |s|
    ensures forall j :: i <= j < b ==> IsWhitespace(s[j])
    ensures b < |s| ==> !IsWhitespace(s[b])
    decreases |s| - i
  {
    if i < |s| && IsWhitespace(s[i]) then SkipLeading(s, i + 1) else i
  }

  /** The end of `s[lo..hi]` once its trailing whitespace is dropped. */
  function SkipTrailing(s: string, lo: nat, hi: nat): (e: nat)
    requires lo <= hi <= |s|
    ensures lo <= e <= hi
    ensures forall j :: e <= j < hi ==> IsWhitespace(s[j])
    ensures e > lo ==> !IsWhitespace(s[e - 1])
  {
    if hi > lo && IsWhitespace(s[hi - 1]) then SkipTrailing(s, lo, hi - 1) else hi
  }

  /** Every character of the text is whitespace. */
  ghost predicate AllWhitespace(s: string)
  {
    forall i :: 0 <= i < |s| ==> IsWhitespace(s[i])
  }

  /** How many whitespace characters the text starts with. */
  ghost function LeadingWhitespace(s: string): (n: nat)
    ensures n <= |s|
  {
    if |s| > 0 && IsWhitespace(s[0]) then 1 + LeadingWhitespace(s[1..]) else 0
  }

  /** `t` sits at position `i` of `s` with only whitespace before and after it. */
  ghost predicate TrimmedAt(s: string, t: string, i: int)
  {
    && CashFlowTable.OccursAt(s, t, i)
    && (forall j :: 0 <= j < i ==> IsWhitespace(s[j]))
    && (forall j :: i + |t| <= j < |s| ==> IsWhitespace(s[j]))
  }

  /** `String.prototype.trim`. Nothing is left exactly when the text is all
      whitespace; otherwise what is left is the slice of the text between its
      leading and its trailing whitespace, and it starts and ends with a
      non-whitespace character. */
  function Trim(s: string): (t: string)
    ensures t == "" <==> AllWhitespace(s)
    ensures t != "" ==>
              && !IsWhitespace(t[0]) && !IsWhitespace(t[|t| - 1])
              && TrimmedAt(s, t, LeadingWhitespace(s))
  {
    var b := SkipLeading(s, 0);
    var e := SkipTrailing(s, b, |s|);
    SkipLeadingCounts(s, 0);
    TrimmedBetween(s, b, e);
    s[b..e]
  }

  /** Skipping from `i` passes exactly the leading whitespace of `s[i..]`. */
  lemma {:induction false} SkipLeadingCounts(s: string, i: nat)
    requires i <= |s|
    ensures SkipLeading(s, i) == i + LeadingWhitespace(s[i..])
    decreases |s| - i
  {
    if i < |s| && IsWhitespace(s[i]) {
      SkipLeadingCounts(s, i + 1);
      assert s[i..][1..] == s[i + 1..];
    }
  }

  /** The characters between the leading and the trailing whitespace are
      empty exactly when `s` is all whitespace, and otherwise sit trimmed in
      `s` at the first non-whitespace position. */
  lemma TrimmedBetween(s: string, b: nat, e: nat)
    requires b <= e <= |s|
    requires forall j :: 0 <= j < b ==> IsWhitespace(s[j])
    requires b < |s| ==> !IsWhitespace(s[b])
    requires forall j :: e <= j < |s| ==> IsWhitespace(s[j])
    requires e > b ==> !IsWhitespace(s[e - 1])
    ensures s[b..e] == "" <==> AllWhitespace(s)
    ensures s[b..e] != "" ==>
              && !IsWhitespace(s[b..e][0]) && !IsWhitespace(s[b..e][e - b - 1])
              && TrimmedAt(s, s[b..e], b)
  {
  }

  /** `inputs.notes && inputs.notes.trim()`: the notes hold a non-whitespace
      character. */
  function HasNotes(notes: Option<string>): (b: bool)
    ensures b <==> notes.Some? && !AllWhitespace(notes.value)
  {
    notes.Some? && notes.value != "" && Trim(notes.value) != ""
  }

  /** The notes heading and the notes text, written only when there are notes. */
  function NotesSection(notes: Option<string>): (rows: seq<seq<Cell>>)
    ensures HasNotes(notes) ==> rows == [[Text("ANALYSIS NOTES"), Text(""), Text(""), Text("")],
                                         [Text(notes.value), Text(""), Text(""), Text("")]]
    ensures !HasNotes(notes) ==> rows == []
    ensures |rows| == if HasNotes(notes) then 2 else 0
    ensures AllNonEmpty(rows)
  {
    if HasNotes(notes) then
      [[Text("ANALYSIS NOTES"), Text(""), Text(""), Text("")], [Text(notes.value), Text(""), Text(""), Text("")]]
    else []
  }

  /** The title and project metadata rows. */
  function IntroRows(inputs: Inputs, fmt: Formatter): (rows: seq<seq<Cell>>)
    ensures |rows| == 9
    ensures AllNonEmpty(rows)
  {
    ConcatNonEmpty(HeaderSection(fmt), MetadataSection(inputs));
    HeaderSection(fmt) + MetadataSection(inputs)
  }

  /** The rows echoing the inputs: costs, revenue, ramp and terminal value. */
  function InputRows(inputs: Inputs, res: Results, fmt: Formatter): (rows: seq<seq<Cell>>)
    ensures |rows| == 35
    ensures AllNonEmpty(rows)
  {
    var costs := CostSection(inputs, res, fmt);
    var revenue := RevenueSection(inputs, res, fmt);
    ConcatNonEmpty(costs, revenue);
    ConcatNonEmpty(costs + revenue, RampSection(inputs, res, fmt));
    costs + revenue + RampSection(inputs, res, fmt)
  }

  /** The rows reporting the outcome: metrics, status and the cash-flow table. */
  function OutcomeRows(inputs: Inputs, res: Results, fmt: Formatter): (rows: seq<seq<Cell>>)
    requires |res.flows| == 6
    ensures |rows| == if inputs.useTV then 18 else 17
    ensures AllNonEmpty(rows)
  {
    ConcatNonEmpty(ResultsSection(inputs, res, fmt), CashFlowSection(res, inputs.useTV, fmt));
    ResultsSection(inputs, res, fmt) + CashFlowSection(res, inputs.useTV, fmt)
  }

  /** Every row `handleExportCSV` pushes, in order: 61 rows, one more with
      the terminal-value line and two more with notes, none of them empty. */
  function CsvRows(inputs: Inputs, res: Results, fmt: Formatter): (rows: seq<seq<Cell>>)
    requires |res.flows| == 6
    ensures |rows| == 61 + (if inputs.useTV then 1 else 0) + (if HasNotes(inputs.notes) then 2 else 0)
    ensures AllNonEmpty(rows)
  {
    var report := ExportBody(inputs, res, fmt);
    ConcatNonEmpty(report, NotesSection(inputs.notes));
    report + NotesSection(inputs.notes)
  }

  /** The rows before the notes section. */
  function ExportBody(inputs: Inputs, res: Results, fmt: Formatter): (rows: seq<seq<Cell>>)
    requires |res.flows| == 6
    ensures |rows| == 61 + (if inputs.useTV then 1 else 0)
    ensures AllNonEmpty(rows)
  {
    var intro := IntroRows(inputs, fmt);
    var given := InputRows(inputs, res, fmt);
    var outcome := OutcomeRows(inputs, res, fmt);
    ConcatNonEmpty(intro, given);
    ConcatNonEmpty(intro + given, outcome);
    intro + given + outcome
  }

  /** The exported CSV text. Reading it back gives exactly the text of every
      cell pushed, row by row, whatever commas, quotes or line feeds they hold. */
  function ExportCsv(inputs: Inputs, res: Results, fmt: Formatter): (text: string)
    requires |res.flows| == 6
    ensures Csv.Parse(text) == Some(RowsText(CsvRows(inputs, res, fmt), fmt))
  {
    RowsRoundTrip(CsvRows(inputs, res, fmt), fmt);
    Csv.EncodeDocument(RowsText(CsvRows(inputs, res, fmt), fmt))
  }

  // ---------------------------------------------------------------------------
  // Properties of the export

  /** The metadata rows carry each field or "Not specified" in their second cell. */
  lemma MetadataRows(inputs: Inputs)
    ensures var rows := MetadataSection(inputs);
            && rows[2][1] == Text(OrNotSpecified(inputs.oemPN))
            && rows[3][1] == Text(OrNotSpecified(inputs.devPartner))
            && rows[4][1] == Text(OrNotSpecified(inputs.salesDirector))
            && (inputs.oemPN.None? ==> rows[2][1] == Text("Not specified"))
  {
  }

  /** The export ends with the notes section: with notes, its last two rows
      are the notes heading and the notes text. */
  lemma NotesLast(inputs: Inputs, res: Results, fmt: Formatter)
    requires |res.flows| == 6
    ensures var rows, notes := CsvRows(inputs, res, fmt), NotesSection(inputs.notes);
            rows[|rows| - |notes|..] == notes
  {
    SuffixOfAppend(ExportBody(inputs, res, fmt), NotesSection(inputs.notes));
  }

  /** Where each section sits in the export: the title and metadata rows
      first, then the 35 input rows, the 8 result rows from row 44, the
      cash-flow table from row 52, and the notes after everything else. */
  lemma ExportLayout(inputs: Inputs, res: Results, fmt: Formatter)
    requires |res.flows| == 6
    ensures var rows, cash := CsvRows(inputs, res, fmt), CashFlowSection(res, inputs.useTV, fmt);
            && rows[..9] == IntroRows(inputs, fmt)
            && rows[9..44] == InputRows(inputs, res, fmt)
            && rows[44..52] == ResultsSection(inputs, res, fmt)
            && rows[52..52 + |cash|] == cash
            && rows[..|rows| - |NotesSection(inputs.notes)|] == ExportBody(inputs, res, fmt)
  {
    Sections(IntroRows(inputs, fmt), InputRows(inputs, res, fmt), ResultsSection(inputs, res, fmt),
             CashFlowSection(res, inputs.useTV, fmt), NotesSection(inputs.notes));
  }

  /** Each part of `a + b + (c + d) + e` is found back at its offset. */
  lemma Sections<T>(a: seq<T>, b: seq<T>, c: seq<T>, d: seq<T>, e: seq<T>)
    ensures var all := a + b + (c + d) + e;
            && all[..|a|] == a
            && all[|a|..|a| + |b|] == b
            && all[|a| + |b|..|a| + |b| + |c|] == c
            && all[|a| + |b| + |c|..|a| + |b| + |c| + |d|] == d
            && all[..|all| - |e|] == a + b + (c + d)
  {
    var all := a + b + (c + d) + e;
    assert all == (a + b + c + d) + e;
  }

  /** The result rows carry the metrics, their verdicts, the payback text,
      the status name, the criteria count and the status message. */
  lemma ResultsCells(inputs: Inputs, res: Results, fmt: Formatter)
    ensures var rows := ResultsSection(inputs, res, fmt);
            && rows[2][1] == Text(Money(res.npv, fmt)) && rows[2][3] == Text(PassFail(res.passNPV))
            && rows[3][1] == Text(FormatPercentage(IrrNumber(res.irr), fmt.fixed2))
            && rows[3][3] == Text(PassFail(res.passIRR))
            && rows[4][1] == Text(PaybackCell(res.pbp, fmt.fixed2)) && rows[4][3] == Text(PassFail(res.passPBP))
            && rows[6][1] == Text(StatusName(res.status))
            && rows[6][2] == Text(NatToString(res.passes) + "/3 criteria passed")
            && rows[6][3] == Text(StatusMessage(res.status))
  {
  }

  /** b is the suffix of a + b. */
  lemma SuffixOfAppend<T>(a: seq<T>, b: seq<T>)
    ensures (a + b)[|a + b| - |b|..] == b
  {
  }

  /** Concatenating two row lists of non-empty rows gives one. */
  lemma ConcatNonEmpty(a: seq<seq<Cell>>, b: seq<seq<Cell>>)
    requires AllNonEmpty(a) && AllNonEmpty(b)
    ensures AllNonEmpty(a + b)
  {
    assert forall i :: |a| <= i < |a + b| ==> (a + b)[i] == b[i - |a|];
  }

  /** Rows framed by a head and a tail keep the body's rows at the head's
      length, and stay non-empty when all three parts are. */
  lemma Framed(head: seq<seq<Cell>>, body: seq<seq<Cell>>, tail: seq<seq<Cell>>)
    requires AllNonEmpty(head) && AllNonEmpty(body) && AllNonEmpty(tail)
    ensures |head + body + tail| == |head| + |body| + |tail|
    ensures (head + body + tail)[..|head|] == head
    ensures forall k :: 0 <= k < |body| ==> (head + body + tail)[|head| + k] == body[k]
    ensures AllNonEmpty(head + body + tail)
  {
    ConcatNonEmpty(head, body);
    ConcatNonEmpty(head + body, tail);
  }

  /** The text of non-empty rows has no empty record. */
  lemma RowsTextNonEmpty(rows: seq<seq<Cell>>, fmt: Formatter)
    requires AllNonEmpty(rows)
    ensures Csv.NoEmptyRecord(RowsText(rows, fmt))
  {
  }

  /** Any non-empty list of rows with cells, written as CSV text, reads back
      as the text of its cells. */
  lemma RowsRoundTrip(rows: seq<seq<Cell>>, fmt: Formatter)
    requires |rows| >= 1 && AllNonEmpty(rows)
    ensures Csv.Parse(Csv.EncodeDocument(RowsText(rows, fmt))) == Some(RowsText(rows, fmt))
  {
    RowsTextNonEmpty(rows, fmt);
    Csv.DocumentRoundTrip(RowsText(rows, fmt));
  }
}
