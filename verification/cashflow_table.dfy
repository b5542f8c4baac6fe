/** The cash-flow table's marking pass: a running cumulative over the display
    rows that skips terminal-value rows, and a single "breakeven" flag on the
    first row after row 0 whose cumulative reaches zero. */
module CashFlowTable {

  /** One display row as the table receives it. */
  datatype Row = Row(year: string, cashFlow: real, notes: string)

  /** A row after the marking pass: the input fields plus the running
      cumulative and the breakeven flag. */
  datatype MarkedRow = MarkedRow(year: string, cashFlow: real, notes: string, cumulative: real, isBreakeven: bool)

  /** `sub` occurs at position i of `s`. */
  ghost predicate OccursAt(s: string, sub: string, i: int)
  {
    0 <= i && i + |sub| <= |s| && s[i..i + |sub|] == sub
  }

  /** When `sub` is not a prefix of `s`, it occurs in `s` exactly when it
      occurs in `s` without its first character. */
  lemma OccursInTail(s: string, sub: string)
    requires 1 <= |s| && |sub| <= |s| && s[..|sub|] != sub
    ensures (exists i :: OccursAt(s, sub, i)) <==> (exists i :: OccursAt(s[1..], sub, i))
  {
    forall i | OccursAt(s[1..], sub, i)
      ensures OccursAt(s, sub, i + 1)
    {
      assert s[1..][i..i + |sub|] == s[i + 1..i + 1 + |sub|];
    }
    forall i | OccursAt(s, sub, i)
      ensures OccursAt(s[1..], sub, i - 1)
    {
      assert i != 0;
      assert s[1..][i - 1..i - 1 + |sub|] == s[i..i + |sub|];
    }
  }

  /** `String.prototype.includes`: `sub` occurs somewhere in `s`. */
  function Contains(s: string, sub: string): (b: bool)
    ensures b <==> exists i :: OccursAt(s, sub, i)
    decreases |s|
  {
    if |sub| > |s| then false
    else if s[..|sub|] == sub then
      assert OccursAt(s, sub, 0);
      true
    else
      OccursInTail(s, sub);
      Contains(s[1..], sub)
  }

  /** A terminal-value row: "TV" occurs in its year label. */
  function IsTvRow(row: Row): (b: bool)
    ensures b <==> exists i :: OccursAt(row.year, "TV", i)
  {
    Contains(row.year, "TV")
  }

  /** Sum of the cash flows of the non-TV rows among the first n rows. */
  function PrefixTotal(rows: seq<Row>, n: nat): real
    requires n <= |rows|
  {
    if n == 0 then 0.0
    else PrefixTotal(rows, n - 1) + (if IsTvRow(rows[n - 1]) then 0.0 else rows[n - 1].cashFlow)
  }

  /** Row k could be the breakeven row: not row 0, not a TV row, and the
      cumulative through it is non-negative. */
  predicate Qualifies(rows: seq<Row>, k: nat)
    requires k < |rows|
  {
    k > 0 && !IsTvRow(rows[k]) && PrefixTotal(rows, k + 1) >= 0.0
  }

  ghost predicate NoneQualify(rows: seq<Row>, hi: nat)
    requires hi <= |rows|
  {
    forall j :: 0 <= j < hi ==> !Qualifies(rows, j)
  }

  /** Row k is the first row that qualifies. */
  ghost predicate FirstQualifying(rows: seq<Row>, k: int)
  {
    0 <= k < |rows| && Qualifies(rows, k) && NoneQualify(rows, k)
  }

  /** Marked row m is row k of the input with its running cumulative, flagged
      exactly when k is the first qualifying row. */
  ghost predicate Describes(m: MarkedRow, rows: seq<Row>, k: nat)
    requires k < |rows|
  {
    && m.year == rows[k].year
    && m.cashFlow == rows[k].cashFlow
    && m.notes == rows[k].notes
    && m.cumulative == PrefixTotal(rows, k + 1)
    && (m.isBreakeven <==> FirstQualifying(rows, k))
  }

  /** The `map` callback from row `index` on, carrying the two variables it
      closes over: `cumulative` and `breakevenIndex` (-1 until set). */
  function MarkFrom(rows: seq<Row>, index: nat, cumulative: real, breakevenIndex: int): (marked: seq<MarkedRow>)
    requires index <= |rows|
    requires cumulative == PrefixTotal(rows, index)
    requires breakevenIndex == -1 ==> NoneQualify(rows, index)
    requires breakevenIndex != -1 ==> breakevenIndex < index && FirstQualifying(rows, breakevenIndex)
    ensures |marked| == |rows| - index
    ensures forall k :: 0 <= k < |marked| ==> Describes(marked[k], rows, index + k)
    decreases |rows| - index
  {
    if index == |rows| then []
    else
      var row := rows[index];
      var isTvRow := IsTvRow(row);
      var cum := if isTvRow then cumulative else cumulative + row.cashFlow;
      var be := if !isTvRow && breakevenIndex == -1 && cum >= 0.0 && index > 0 then index else breakevenIndex;
      assert cum == PrefixTotal(rows, index + 1);
      var m := MarkedRow(row.year, row.cashFlow, row.notes, cum, index == be && !isTvRow);
      var tail := MarkFrom(rows, index + 1, cum, be);
      assert Describes(m, rows, index);
      [m] + tail
  }

  /** The marking pass over the whole table. */
  function MarkRows(rows: seq<Row>): (marked: seq<MarkedRow>)
    ensures |marked| == |rows|
    ensures forall k :: 0 <= k < |rows| ==> Describes(marked[k], rows, k)
  {
    MarkFrom(rows, 0, 0.0, -1)
  }

  /** At most one row is flagged, row 0 and TV rows never are, and no row is
      flagged exactly when no row qualifies. */
  lemma BreakevenFlag(rows: seq<Row>)
    ensures var marked := MarkRows(rows);
            && (forall i, j :: 0 <= i < j < |marked| ==> !(marked[i].isBreakeven && marked[j].isBreakeven))
            && (|marked| > 0 ==> !marked[0].isBreakeven)
            && (forall k :: 0 <= k < |marked| && IsTvRow(rows[k]) ==> !marked[k].isBreakeven)
            && ((forall k :: 0 <= k < |marked| ==> !marked[k].isBreakeven) <==> NoneQualify(rows, |rows|))
  {
    var marked := MarkRows(rows);
    forall i, j | 0 <= i < j < |marked|
      ensures !(marked[i].isBreakeven && marked[j].isBreakeven)
    {
      assert Describes(marked[i], rows, i) && Describes(marked[j], rows, j);
    }
    if !NoneQualify(rows, |rows|) {
      var k := LeastQualifying(rows, |rows|);
      assert Describes(marked[k], rows, k);
    }
  }

  /** If some row below hi qualifies, a first qualifying row exists. */
  lemma {:induction false} LeastQualifying(rows: seq<Row>, hi: nat) returns (k: nat)
    requires hi <= |rows|
    requires !NoneQualify(rows, hi)
    ensures k < hi && FirstQualifying(rows, k)
  {
    if NoneQualify(rows, hi - 1) {
      k := hi - 1;
    } else {
      k := LeastQualifying(rows, hi - 1);
    }
  }

  /** A TV row carries the previous row's cumulative forward unchanged. */
  lemma TvRowRepeatsCumulative(rows: seq<Row>, k: nat)
    requires 0 < k < |rows| && IsTvRow(rows[k])
    ensures MarkRows(rows)[k].cumulative == MarkRows(rows)[k - 1].cumulative
  {
    assert Describes(MarkRows(rows)[k], rows, k) && Describes(MarkRows(rows)[k - 1], rows, k - 1);
  }
}
