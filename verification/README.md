# ButtonAligner financial analyzer — a Dafny model

ButtonAligner's analyzer decides whether a new aviation part (a PMA part) is
worth developing. It takes cost, price, volume, ramp-rate and threshold
inputs, projects six yearly cash flows, and computes three metrics:

- the NPV, with the terminal value if enabled;
- the IRR, found by bisection;
- the payback period.

It then reduces the three pass/fail flags to a green, yellow or red status.
It shows the flows in a cash-flow table that flags the breakeven year. It
exports everything as a CSV file, and as a PDF whose rendered sections are
grouped greedily onto pages.

This project models that logic in Dafny and proves properties of it.

| file | module | what it holds |
|---|---|---|
| `numbers.dfy` | `Numbers` | `Option`, the JavaScript number kinds (finite, NaN, ±Infinity), powers, decimal digits |
| `financial.dfy` | `Financial` | `calculateFinancials`, NPV, the IRR search (function and loop), payback, pass/fail, `formatCurrency` / `formatPercentage`, the default inputs |
| `financial_proofs.dfy` | `FinancialProofs` | NPV identities and monotonicity, where the IRR lands, payback bounds and monotonicity, what the metrics depend on |
| `default_scenario.dfy` | `DefaultScenario` | the default inputs worked through to a green status |
| `cashflow_table.dfy` | `CashFlowTable` | the table's cumulative and breakeven marking pass |
| `breakeven.dfy` | `Breakeven` | the table's breakeven row agrees with the payback metric |
| `analyzer.dfy` | `Analyzer` | status message, payback cell, the screen and PDF row lists, every CSV row, cell text, the notes test |
| `csv.dfy` | `Csv` | the CSV writer (quote, double quotes, join) and a reader for the round trip |
| `pages.dfy` | `Pages` | the PDF page-grouping loop |

Numbers are exact `real`s. The source's NaN and Infinity results become
datatypes:

- `IrrOutcome` is `NoSolution` or `Rate(r)`;
- `PaybackOutcome` is `Undefined` (NaN), `NoPayback` (Infinity) or `Years(y)`.

Where the source prints such a value, `Numbers.Num` carries the JavaScript
number kind. Library behaviour is passed in as parameters of a `Formatter`:

- locale rendering and `toFixed(2)`;
- `String(n)`;
- the export date.

The IRR bisection is written twice:

- `Financial.Bisect` and `Financial.Search`, as functions over any curve;
- `Financial.CalculateIrr` and `Financial.BisectLoop`, as loops that keep the
  source's `flo * fhi > 0` and `flo * fm <= 0` tests.

The functions test the sign condition as the linear predicate `Straddles`,
which is proved equal to the product test (`Financial.StraddlesIff`). The
loops are proved to return the functions' result.

The CSV reader in `csv.dfy` (`Csv.Parse`) is not part of the source. It is an
independent reference for the export format: quoted or bare fields, commas,
line feeds. It is what makes the round trip in `Analyzer.ExportCsv` a
statement about the exported text.

The default inputs add up to an NRE of 3,715 × 3 + 1,400 + 24 × 100 + 8,000
= 22,945.

## Model

| member | source | states |
|---|---|---|
| `Financial.ProjectFlows` | ButtonAligner/client/src/lib/financial.ts:69-83 | six flows: year 0 is minus the NRE (parts, inspection, labour, PMA and DER fees); year i is the unit margin times the annual quantity times ramp rate i / 100 |
| `Financial.Npv` | ButtonAligner/client/src/lib/financial.ts:128-140 | a single flow is its own NPV, plus the undiscounted terminal value when given; a terminal value adds itself divided by (1 + rate)^(n - 1) to the NPV of the flows (see `FinancialProofs.NpvSixYears` for the whole sum) |
| `Financial.Evaluate` | ButtonAligner/client/src/lib/financial.ts:67-126 | the parts investment is cost × quantity and the labour cost hours × rate; the NRE is their sum with inspection and the PMA and DER fees, and is the negated year-0 flow; annual sales are price × quantity, the unit margin price minus cost, the annual margin unit margin × quantity; the flows are the projection; Y5 is flow 5 and TV is Y5 times the multiple; NPV uses the discount rate / 100, with the TV only when it is enabled; IRR and payback come from the flows alone; the flags and status are the assessment of those three metrics |
| `Financial.Assess` | ButtonAligner/client/src/lib/financial.ts:98-105 | pass NPV iff NPV >= threshold; pass IRR iff the IRR exists and is >= threshold / 100; pass payback iff it is finite and within the threshold; passes is the number of flags that pass; status is green iff 3, yellow iff 2, red iff at most 1 |
| `Financial.PassIrr` | ButtonAligner/client/src/lib/financial.ts:100 | IRR passes exactly when it is finite and at least the percentage threshold |
| `Financial.PassPayback` | ButtonAligner/client/src/lib/financial.ts:101 | payback passes exactly when it is finite and within the threshold |
| `Financial.Classify` | ButtonAligner/client/src/lib/financial.ts:103-105 | green iff 3 passes, yellow iff 2, red otherwise |
| `Financial.StraddlesIff` | ButtonAligner/client/src/lib/financial.ts:171 | the product test `x * y <= 0` holds exactly when x and y do not share a strict sign |
| `Financial.Bisect` | ButtonAligner/client/src/lib/financial.ts:164-180 | on a bracket lo < hi with a sign change, bisection returns a rate strictly inside the bracket |
| `Financial.BisectStep` | ButtonAligner/client/src/lib/financial.ts:166-177 | one step: return the midpoint if the NPV there is within 1e-6 of zero; otherwise continue on the half whose ends still change sign |
| `Financial.BisectCertifies` | ButtonAligner/client/src/lib/financial.ts:164-180 | the result has NPV within the tolerance, or is the midpoint of a sign-change bracket inside [lo, hi] whose width is (hi - lo) / 2^steps |
| `Financial.CertifiedInHalf` | ButtonAligner/client/src/lib/financial.ts:171-177 | a certificate for a half bracket is one for the whole bracket with one more step |
| `Financial.Search` | ButtonAligner/client/src/lib/financial.ts:151-181 | a found rate lies strictly between -0.99 and 100 |
| `Financial.SearchCertifies` | ButtonAligner/client/src/lib/financial.ts:151-181 | no solution iff neither [-0.99, 10] nor [-0.99, 100] brackets a sign change; a found rate lies inside the bracket used and is certified in it after 200 halvings |
| `Financial.Irr` | ButtonAligner/client/src/lib/financial.ts:142-181 | a found IRR lies strictly between -0.99 and 100 |
| `Financial.IrrBracketing` | ButtonAligner/client/src/lib/financial.ts:151-162 | NaN exactly when NPV(-0.99) shares a strict sign with both NPV(10) and NPV(100); the search widens to 100 only when [-0.99, 10] has no sign change; a found IRR is certified within that bracket |
| `Financial.CalculateIrr` | ButtonAligner/client/src/lib/financial.ts:142-181 | the loop with the source's product tests returns exactly the IRR function's outcome |
| `Financial.BisectLoop` | ButtonAligner/client/src/lib/financial.ts:165-180 | the 200-iteration loop, with its early return, returns what the recursive bisection does |
| `Financial.PaybackWalk` | ButtonAligner/client/src/lib/financial.ts:187-200 | from year i on, Infinity iff no later year's recovered total reaches the investment; otherwise the first such year k gives (k - 1) + (investment - recovered before k) / flow k |
| `Financial.Payback` | ButtonAligner/client/src/lib/financial.ts:183-201 | NaN iff year 0 is not an outlay; Infinity iff the outlay is never recovered in years 1..5; otherwise the payback is interpolated within the first recovery year |
| `Financial.FormatCurrency` | ButtonAligner/client/src/lib/financial.ts:203-207 | a non-finite value shows as an em dash; a finite one uses the locale currency rendering |
| `Financial.FormatPercentage` | ButtonAligner/client/src/lib/financial.ts:209-211 | em dash iff the value is not finite; otherwise value × 100 to two decimals followed by `%` |
| `FinancialProofs.NpvAtZeroRate` | ButtonAligner/client/src/lib/financial.ts:128-140 | at a zero rate the NPV is the plain sum of the flows plus the undiscounted terminal value |
| `FinancialProofs.NpvSixYears` | ButtonAligner/client/src/lib/financial.ts:128-140 | the six-year NPV: year i divided by (1 + rate)^i; the terminal value divided by (1 + rate)^5 |
| `FinancialProofs.NpvAntitone` | ButtonAligner/client/src/lib/financial.ts:143-149 | with non-negative flows after year 0, the NPV does not increase as the rate rises |
| `FinancialProofs.IrrAbove` | ButtonAligner/client/src/lib/financial.ts:142-181 | with non-negative later flows, NPV(10) <= 0 and NPV(c) above the tolerance, the search finds a rate above c - 0.03 |
| `FinancialProofs.FinalBracketNarrow` | ButtonAligner/client/src/lib/financial.ts:165 | after 200 halvings of [-0.99, 10] the bracket is at most 0.06 wide |
| `FinancialProofs.PaybackWithinBreakevenYear` | ButtonAligner/client/src/lib/financial.ts:183-201 | a finite payback lies in (k - 1, k] for the first recovery year k, and so in (0, 5] |
| `FinancialProofs.RecoveryYearBounds` | ButtonAligner/client/src/lib/financial.ts:193-196 | the interpolated payback of the first recovery year k lies in (k - 1, k] |
| `FinancialProofs.PaybackMonotone` | ButtonAligner/client/src/lib/financial.ts:183-201 | raising later flows with year 0 unchanged keeps NaN as NaN, never delays a finite payback, and never loses one |
| `FinancialProofs.FirstRecoveryUnique` | ButtonAligner/client/src/lib/financial.ts:188-197 | the first recovery year is unique |
| `FinancialProofs.MetricsIgnoreTerminalValue` | ButtonAligner/client/src/lib/financial.ts:85-96 | the flows, IRR and payback do not depend on the terminal multiple, the TV switch or the discount rate |
| `FinancialProofs.StatusFromFlags` | ButtonAligner/client/src/lib/financial.ts:99-105 | passes is the sum of the three flags; the status follows the count; a NaN IRR or a non-finite payback never passes |
| `Financial.DefaultInputs` | ButtonAligner/client/src/lib/financial.ts:214-245 | the opening inputs: empty metadata and notes; OEM cost 3,715 × 3, inspection 1,400, 24 h at 100, PMA fee 8,000, no DER fee; price 1,875, cost 1,125, 30 a year; ramp 23, 35, 53, 55, 55 %; multiple 7 with the TV on; discount 10 %; thresholds 0, 20 % and 4.3 years |
| `DefaultScenario.DefaultProjectFlows` | ButtonAligner/client/src/lib/financial.ts:214-245 | the default inputs give an NRE of 22,945 and the flows -22,945, 5,175, 7,875, 11,925, 12,375, 12,375 |
| `DefaultScenario.DefaultPayback` | ButtonAligner/client/src/lib/financial.ts:183-201 | the default payback is 2 + 9,895 / 11,925 years |
| `DefaultScenario.DefaultNpv` | ButtonAligner/client/src/lib/financial.ts:128-140 | the default NPV at 10% with a terminal value of 86,625 is positive |
| `DefaultScenario.DefaultIrr` | ButtonAligner/client/src/lib/financial.ts:142-181 | the default IRR is found and exceeds 22% |
| `DefaultScenario.DefaultScenarioIsGreen` | ButtonAligner/client/src/lib/financial.ts:214-245 | the default inputs pass all three criteria and are green |
| `CashFlowTable.Contains` | ButtonAligner/client/src/components/CashFlowTable.tsx:27 | `includes` holds exactly when the substring occurs at some position |
| `CashFlowTable.IsTvRow` | ButtonAligner/client/src/components/CashFlowTable.tsx:27 | a row is a terminal-value row exactly when "TV" occurs in its year label |
| `CashFlowTable.MarkFrom` | ButtonAligner/client/src/components/CashFlowTable.tsx:25-39 | each marked row keeps its fields, carries the cumulative of the non-TV rows up to it, and is flagged iff it is the first qualifying row |
| `CashFlowTable.MarkRows` | ButtonAligner/client/src/components/CashFlowTable.tsx:22-39 | the same for the whole table, starting from cumulative 0 and no breakeven |
| `CashFlowTable.BreakevenFlag` | ButtonAligner/client/src/components/CashFlowTable.tsx:22-39 | at most one row is flagged; row 0 and TV rows never are; no row is flagged iff no row qualifies |
| `CashFlowTable.LeastQualifying` | ButtonAligner/client/src/components/CashFlowTable.tsx:33-35 | if some row qualifies, a first qualifying row exists |
| `CashFlowTable.TvRowRepeatsCumulative` | ButtonAligner/client/src/components/CashFlowTable.tsx:29-38 | a TV row shows the same cumulative as the row before it |
| `Breakeven.CumulativeIsRecovered` | ButtonAligner/client/src/components/CashFlowTable.tsx:22-31 | through year k the table's cumulative is minus the NRE plus what years 1..k recovered |
| `Breakeven.QualifiesIff` | ButtonAligner/client/src/components/CashFlowTable.tsx:29-35 | a row qualifies iff it is year 1..5 and its recovered total reaches the NRE |
| `Breakeven.FirstQualifyingIff` | ButtonAligner/client/src/components/CashFlowTable.tsx:33-35 | the first qualifying row is the payback's first recovery year |
| `Breakeven.PaybackInYearIff` | ButtonAligner/client/src/lib/financial.ts:183-201 | year k is the first recovery year iff the payback is finite and lies in (k - 1, k] |
| `Breakeven.BreakevenMatchesPayback` | ButtonAligner/client/src/components/FinancialAnalyzer.tsx:349-360 | with a positive NRE, the table flags row i iff the payback lies in (i - 1, i]; it flags no row iff the payback is Infinity |
| `Analyzer.StatusMessage` | ButtonAligner/client/src/components/FinancialAnalyzer.tsx:42-50 | each status has its own message, each in both directions |
| `Analyzer.StatusMessageInjective` | ButtonAligner/client/src/components/FinancialAnalyzer.tsx:43-49 | different statuses get different messages |
| `Analyzer.PaybackCell` | ButtonAligner/client/src/components/FinancialAnalyzer.tsx:116 | "No payback" iff the payback is Infinity; NaN reads "NaN years"; a finite payback is printed to two decimals followed by " years" |
| `Analyzer.CashFlowRows` | ButtonAligner/client/src/components/FinancialAnalyzer.tsx:349-360 | rows "0".."5" carry minus the NRE, then flows 1..5, with their notes; a "5 (TV)" row carrying the terminal value follows only when it is used |
| `Analyzer.ReportMatchesScreen` | ButtonAligner/client/src/components/FinancialAnalyzer.tsx:178-187 | the PDF rows have the screen's years and flows and the same notes, except on the TV row |
| `Analyzer.TerminalValueRowOnlyWhenUsed` | ButtonAligner/client/src/components/FinancialAnalyzer.tsx:186 | years 0..5 are never TV rows; the added row is one |
| `Analyzer.CellText` | ButtonAligner/client/src/components/FinancialAnalyzer.tsx:147 | a cell's text as the export writes it: the empty string and 0 give ""; text gives itself; when `String(n)` is never empty, a cell gives "" exactly when it is falsy |
| `Analyzer.RowText` | ButtonAligner/client/src/components/FinancialAnalyzer.tsx:147 | one text per cell, in order |
| `Analyzer.RowsText` | ButtonAligner/client/src/components/FinancialAnalyzer.tsx:146-147 | one text row per row, in order |
| `Analyzer.NotSpecifiedFallback` | ButtonAligner/client/src/components/FinancialAnalyzer.tsx:65-67 | an absent or empty field exports as "Not specified"; any other exports as itself; the cell is never empty |
| `Analyzer.MetadataRows` | ButtonAligner/client/src/components/FinancialAnalyzer.tsx:62-68 | the three metadata rows carry OEM PN, development partner and sales director, each with the fallback |
| `Analyzer.HeaderSection` | ButtonAligner/client/src/components/FinancialAnalyzer.tsx:57-60 | three rows, none empty |
| `Analyzer.MetadataSection` | ButtonAligner/client/src/components/FinancialAnalyzer.tsx:62-68 | six rows, none empty |
| `Analyzer.CostSection` | ButtonAligner/client/src/components/FinancialAnalyzer.tsx:70-83 | thirteen rows, none empty |
| `Analyzer.RevenueSection` | ButtonAligner/client/src/components/FinancialAnalyzer.tsx:85-94 | nine rows, none empty |
| `Analyzer.RampSection` | ButtonAligner/client/src/components/FinancialAnalyzer.tsx:96-109 | thirteen rows, none empty |
| `Analyzer.ResultsSection` | ButtonAligner/client/src/components/FinancialAnalyzer.tsx:111-119 | eight rows, none empty |
| `Analyzer.ResultsCells` | ButtonAligner/client/src/components/FinancialAnalyzer.tsx:114-118 | the NPV, IRR and payback rows carry the formatted metric and PASS or FAIL for its flag; the payback cell is "No payback" or the years; the status row carries the status name, "n/3 criteria passed" and the status message |
| `Analyzer.YearLines` | ButtonAligner/client/src/components/FinancialAnalyzer.tsx:128-135 | years i..5 show year k's label, flow k, the note "Y{k} = EstMargin × RR{k}" and a cumulative that grows by flows i..k; a TV line then adds the terminal value, only when it is used |
| `Analyzer.CashLines` | ButtonAligner/client/src/components/FinancialAnalyzer.tsx:124-135 | year 0 shows minus the NRE as both flow and cumulative with the outflow note; year i shows flow i, its "Y{i}" note and minus the NRE plus flows 1..i; the TV line, only when used, shows the five-year total plus the terminal value |
| `Analyzer.CashLineRows` | ButtonAligner/client/src/components/FinancialAnalyzer.tsx:125-134 | row k is line k's year, flow, note and cumulative, the amounts as currency; one non-empty row per line |
| `Analyzer.CashFlowBlock` | ButtonAligner/client/src/components/FinancialAnalyzer.tsx:121-137 | any list of cash lines is framed by the title row and the column headings before it and a blank row after it: three rows more than lines, none empty, line k at row k + 2 |
| `Analyzer.CashFlowSection` | ButtonAligner/client/src/components/FinancialAnalyzer.tsx:121-137 | ten rows with the TV line, nine without, none empty; the section title comes first, and after the column headings row k + 2 is cash line k |
| `Analyzer.Trim` | ButtonAligner/client/src/components/FinancialAnalyzer.tsx:140 | `trim()` is empty iff the text is all whitespace; otherwise it is the slice of the text that starts right after its leading whitespace and has only whitespace after it, and it begins and ends with non-whitespace |
| `Analyzer.HasNotes` | ButtonAligner/client/src/components/FinancialAnalyzer.tsx:140 | the notes section is written iff the notes contain a non-whitespace character |
| `Analyzer.NotesSection` | ButtonAligner/client/src/components/FinancialAnalyzer.tsx:139-143 | with notes: the "ANALYSIS NOTES" row, then the notes row; without notes: nothing |
| `Analyzer.IntroRows` | ButtonAligner/client/src/components/FinancialAnalyzer.tsx:57-68 | nine rows, none empty |
| `Analyzer.InputRows` | ButtonAligner/client/src/components/FinancialAnalyzer.tsx:70-109 | thirty-five rows, none empty |
| `Analyzer.OutcomeRows` | ButtonAligner/client/src/components/FinancialAnalyzer.tsx:111-137 | seventeen rows, or eighteen with the TV line, none empty |
| `Analyzer.ExportBody` | ButtonAligner/client/src/components/FinancialAnalyzer.tsx:55-137 | the rows before the notes: 61, or 62 with the TV line, none empty |
| `Analyzer.CsvRows` | ButtonAligner/client/src/components/FinancialAnalyzer.tsx:53-143 | the export has 61 rows, one more with the TV line and two more with notes; no row is empty |
| `Analyzer.ExportLayout` | ButtonAligner/client/src/components/FinancialAnalyzer.tsx:53-143 | the export holds the title and metadata rows at 0-8, the input rows at 9-43, the result rows at 44-51, the cash-flow table from row 52, and everything before the notes is the body |
| `Analyzer.NotesLast` | ButtonAligner/client/src/components/FinancialAnalyzer.tsx:139-143 | the export ends with the notes section, so with notes its last two rows are the notes heading and the notes text |
| `Analyzer.RowsRoundTrip` | ButtonAligner/client/src/components/FinancialAnalyzer.tsx:146-148 | any non-empty list of rows with cells, written as CSV, reads back as the text of its cells |
| `Analyzer.ExportCsv` | ButtonAligner/client/src/components/FinancialAnalyzer.tsx:146-148 | reading the exported text back gives every pushed row's cell texts exactly |
| `Csv.Escape` | ButtonAligner/client/src/components/FinancialAnalyzer.tsx:147 | the escaped text is never shorter, and text without a double quote is unchanged (`Csv.ReadQuotedEscape` undoes it) |
| `Csv.EncodeCell` | ButtonAligner/client/src/components/FinancialAnalyzer.tsx:147 | a cell is written between double quotes |
| `Csv.EncodeRecord` | ButtonAligner/client/src/components/FinancialAnalyzer.tsx:147 | a record of no cells is empty and a record of one cell is that cell |
| `Csv.EncodeRecordCons` | ButtonAligner/client/src/components/FinancialAnalyzer.tsx:147 | a record of two or more cells is its first cell, a comma, and the rest of the record |
| `Csv.EncodeDocument` | ButtonAligner/client/src/components/FinancialAnalyzer.tsx:146-148 | a document of no records is empty and a document of one record is that record |
| `Csv.EncodeDocumentCons` | ButtonAligner/client/src/components/FinancialAnalyzer.tsx:146-148 | a document of two or more records is its first record, a line feed, and the rest of the document |
| `Csv.ReadQuotedEscape` | ButtonAligner/client/src/components/FinancialAnalyzer.tsx:147 | escaped text before a closing quote reads back as itself |
| `Csv.CellRoundTrip` | ButtonAligner/client/src/components/FinancialAnalyzer.tsx:147 | a quoted, escaped cell reads back as its text |
| `Csv.RecordRoundTrip` | ButtonAligner/client/src/components/FinancialAnalyzer.tsx:147 | a comma-joined record reads back as its cells |
| `Csv.DocumentRoundTrip` | ButtonAligner/client/src/components/FinancialAnalyzer.tsx:146-148 | a document of non-empty records reads back as exactly those records |
| `Csv.EncodeDocumentInjective` | ButtonAligner/client/src/components/FinancialAnalyzer.tsx:146-148 | different documents of non-empty records encode to different texts |
| `Numbers.NatToStringRoundTrip` | ButtonAligner/client/src/components/FinancialAnalyzer.tsx:130 | the decimal text of `i.toString()` has the value i |
| `Pages.GroupPages` | ButtonAligner/client/src/components/FinancialAnalyzer.tsx:228-259 | the pages hold the elements in order and none is empty; each page after the first opens with a non-header that would have overflowed the previous page; every other non-header fitted under 277 mm × 3.78 px |
| `Pages.PaginateCorrect` | ButtonAligner/client/src/components/FinancialAnalyzer.tsx:228-259 | the grouping's reference definition has those same three properties |
| `Pages.PagesWithinLimit` | ButtonAligner/client/src/components/FinancialAnalyzer.tsx:239-250 | with no headers and no element taller than a page, no page is taller than a page |

## Left out

- React state, rendering and DOM: Blob, download link, `html2canvas`, `jsPDF`. Page images are not modelled. The grouping works on each element's header flag and `scrollHeight` as a natural number.
- The PDF's per-page rendering and the `ReportView` component.
- Floating point: arithmetic is exact over the reals. Rounding, overflow and NaN inputs are not modelled. So `rampRates[i] || 0` is modelled as the rate itself, and the `isNaN(flo) || isNaN(fhi)` exit of the IRR search cannot arise.
- `toLocaleString`, the currency style, `toFixed(2)`, `String(n)` and `new Date().toLocaleDateString()`. They are parameters of `Analyzer.Formatter` and of the formatting functions, not implementations.
- `formatMoney` in `CashFlowTable.tsx` (lines 16-19) has the same definition as `formatCurrency`, so `Financial.FormatCurrency` stands for both.
- Financial.Evaluate requires a discount rate other than exactly -100%, an input the source does evaluate: it divides each later flow by zero and gets an infinite or NaN NPV, which the real-valued NPV cannot hold. At every other rate, including those below -100%, the model computes the NPV as the source does.
- Financial.Search tests signs with the linear `Straddles` rather than the product. `Financial.StraddlesIff` proves the two equal, and `Financial.CalculateIrr` keeps the product.
- Csv.DocumentRoundTrip requires every record to have at least one cell, because the reader reads an empty line as one empty field. Every row of the export has cells (`Analyzer.CsvRows`).
- Analyzer.HeaderSection: its contract states only the row count and that no row is empty. The cell contents are given by the function body.
- Analyzer.MetadataSection: only the row count and non-empty rows. The field cells are stated by `Analyzer.MetadataRows`.
- Analyzer.CostSection: only the row count and non-empty rows.
- Analyzer.RevenueSection: only the row count and non-empty rows.
- Analyzer.RampSection: only the row count and non-empty rows.
- Analyzer.ResultsSection: only the row count and non-empty rows. The metric, payback and status cells are stated by `Analyzer.ResultsCells`; the headings and the threshold cells are not stated.
- Analyzer.CashFlowSection: the column-heading row and the closing blank row are not stated; the cash-line rows are.
- Analyzer.IntroRows: only the row count and non-empty rows. Its place in the export is stated by `Analyzer.ExportLayout`.
- Analyzer.InputRows: only the row count and non-empty rows. Its place in the export is stated by `Analyzer.ExportLayout`.
- Analyzer.OutcomeRows: only the row count and non-empty rows. Where its sections sit in the export is stated by `Analyzer.ExportLayout`.
- Analyzer.ExportBody: its contract states the row count and non-empty rows. The order of its sections is stated by `Analyzer.ExportLayout`.
- Analyzer.CsvRows: its contract states the row count and non-empty rows. The order of the sections is stated by `Analyzer.ExportLayout` and `Analyzer.NotesLast`.
- Analyzer.CellText: the number-to-text conversion is a parameter, so a number's text is stated only as non-empty when `String(n)` is.
- The console logging, the reset handler, the criteria summary strings and the input form are not modelled.
