/** The CSV text the export writes: every cell wrapped in double quotes with
    embedded quotes doubled (rule 7 of section 2 of RFC 4180), cells joined by
    commas and records by line feeds. A reader for that format, accepting
    quoted and bare fields, recovers exactly the records written. */
module Csv {
  import opened Numbers

  // ---------------------------------------------------------------------------
  // Writing

  /** `.replace(/"/g, '""')`: every double quote doubled. */
  function Escape(s: string): (e: string)
    ensures |e| >= |s|
    ensures '"' !in s ==> e == s
  {
    if |s| == 0 then ""
    else (if s[0] == '"' then "\"\"" else [s[0]]) + Escape(s[1..])
  }

  /** One cell: the escaped text between double quotes. */
  function EncodeCell(s: string): (e: string)
    ensures |e| >= 2 && e[0] == '"' && e[|e| - 1] == '"'
  {
    "\"" + Escape(s) + "\""
  }

  /** `Array.prototype.join`. */
  function Join(parts: seq<string>, sep: string): string
  {
    if |parts| == 0 then ""
    else if |parts| == 1 then parts[0]
    else parts[0] + sep + Join(parts[1..], sep)
  }

  function EncodeCells(cells: seq<string>): (encoded: seq<string>)
    ensures |encoded| == |cells|
    ensures forall i :: 0 <= i < |cells| ==> encoded[i] == EncodeCell(cells[i])
  {
    if |cells| == 0 then [] else [EncodeCell(cells[0])] + EncodeCells(cells[1..])
  }

  /** A record: its encoded cells joined by commas. */
  function EncodeRecord(cells: seq<string>): (e: string)
    ensures |cells| == 0 ==> e == ""
    ensures |cells| == 1 ==> e == EncodeCell(cells[0])
  {
    Join(EncodeCells(cells), ",")
  }

  function EncodeRecords(rows: seq<seq<string>>): (encoded: seq<string>)
    ensures |encoded| == |rows|
    ensures forall i :: 0 <= i < |rows| ==> encoded[i] == EncodeRecord(rows[i])
  {
    if |rows| == 0 then [] else [EncodeRecord(rows[0])] + EncodeRecords(rows[1..])
  }

  /** The document: its records joined by line feeds. */
  function EncodeDocument(rows: seq<seq<string>>): (e: string)
    ensures |rows| == 0 ==> e == ""
    ensures |rows| == 1 ==> e == EncodeRecord(rows[0])
  {
    Join(EncodeRecords(rows), "\n")
  }

  // ---------------------------------------------------------------------------
  // Reading

  /** The text of a quoted field after its opening quote, up to the closing
      quote, with each doubled quote read as one; and the text after the
      closing quote. None when no closing quote comes. */
  function ReadQuoted(s: string): (r: Option<(string, string)>)
    ensures r.Some? ==> |r.value.1| < |s|
  {
    if |s| == 0 then None
    else if s[0] == '"' then
      if |s| >= 2 && s[1] == '"' then
        var more := ReadQuoted(s[2..]);
        if more.None? then None else Some((['"'] + more.value.0, more.value.1))
      else Some(("", s[1..]))
    else
      var more := ReadQuoted(s[1..]);
      if more.None? then None else Some(([s[0]] + more.value.0, more.value.1))
  }

  /** An unquoted field: everything up to the next comma or line feed. A
      double quote inside it is malformed. */
  function ReadBare(s: string): (r: Option<(string, string)>)
    ensures r.Some? ==> |r.value.1| <= |s|
  {
    if |s| == 0 || s[0] == ',' || s[0] == '\n' then Some(("", s))
    else if s[0] == '"' then None
    else
      var more := ReadBare(s[1..]);
      if more.None? then None else Some(([s[0]] + more.value.0, more.value.1))
  }

  function ReadField(s: string): (r: Option<(string, string)>)
    ensures r.Some? ==> |r.value.1| <= |s|
  {
    if |s| > 0 && s[0] == '"' then ReadQuoted(s[1..]) else ReadBare(s)
  }

  /** The fields of one record, the text after it, and whether a line feed
      ended it (so that another record follows). */
  datatype RecordRead = RecordRead(fields: seq<string>, rest: string, more: bool)

  function ReadRecord(s: string): (r: Option<RecordRead>)
    ensures r.Some? ==> |r.value.fields| >= 1 && |r.value.rest| <= |s|
    ensures r.Some? && r.value.more ==> |r.value.rest| < |s|
    decreases |s|
  {
    var field := ReadField(s);
    if field.None? then None
    else
      var (cell, rest) := field.value;
      if |rest| == 0 then Some(RecordRead([cell], "", false))
      else if rest[0] == ',' then
        var tail := ReadRecord(rest[1..]);
        if tail.None? then None
        else Some(RecordRead([cell] + tail.value.fields, tail.value.rest, tail.value.more))
      else if rest[0] == '\n' then Some(RecordRead([cell], rest[1..], true))
      else None
  }

  /** The records of a document; None when it is malformed. */
  function Parse(s: string): (r: Option<seq<seq<string>>>)
    ensures r.Some? ==> |r.value| >= 1
    decreases |s|
  {
    var record := ReadRecord(s);
    if record.None? then None
    else if record.value.more then
      var others := Parse(record.value.rest);
      if others.None? then None else Some([record.value.fields] + others.value)
    else if |record.value.rest| == 0 then Some([record.value.fields])
    else None
  }

  // ---------------------------------------------------------------------------
  // Round trip

  /** Reading back an escaped text followed by the closing quote gives the text
      and whatever follows, as long as that does not start with a quote. */
  lemma {:induction false} ReadQuotedEscape(x: string, tail: string)
    requires |tail| == 0 || tail[0] != '"'
    ensures ReadQuoted(Escape(x) + "\"" + tail) == Some((x, tail))
  {
    if |x| == 0 {
      assert Escape(x) + "\"" + tail == "\"" + tail;
    } else {
      ReadQuotedEscape(x[1..], tail);
      ReadQuotedEscapeStep(x, tail);
    }
  }

  /** One more character of escaped text reads back as itself: a quote from
      its doubled form, any other character from itself. */
  lemma ReadQuotedEscapeStep(x: string, tail: string)
    requires |x| > 0
    requires ReadQuoted(Escape(x[1..]) + "\"" + tail) == Some((x[1..], tail))
    ensures ReadQuoted(Escape(x) + "\"" + tail) == Some((x, tail))
  {
    var t := Escape(x[1..]) + "\"" + tail;
    var head := if x[0] == '"' then "\"\"" else [x[0]];
    assert Escape(x) + "\"" + tail == head + t;
    assert (head + t)[|head|..] == t;
    assert [x[0]] + x[1..] == x;
  }

  /** A cell reads back as its text. */
  lemma CellRoundTrip(x: string, tail: string)
    requires |tail| == 0 || tail[0] != '"'
    ensures ReadField(EncodeCell(x) + tail) == Some((x, tail))
  {
    var s := EncodeCell(x) + tail;
    assert s[1..] == Escape(x) + "\"" + tail;
    ReadQuotedEscape(x, tail);
  }

  /** A record followed by the end of the text or a line feed reads back as its cells. */
  lemma {:induction false} RecordRoundTrip(cells: seq<string>, tail: string)
    requires |cells| >= 1
    requires |tail| == 0 || tail[0] == '\n'
    ensures |tail| == 0 ==> ReadRecord(EncodeRecord(cells) + tail) == Some(RecordRead(cells, "", false))
    ensures |tail| > 0 ==> ReadRecord(EncodeRecord(cells) + tail) == Some(RecordRead(cells, tail[1..], true))
  {
    if |cells| == 1 {
      assert EncodeRecord(cells) == EncodeCell(cells[0]);
      CellRoundTrip(cells[0], tail);
      assert [cells[0]] == cells;
    } else {
      RecordRoundTrip(cells[1..], tail);
      RecordConsRoundTrip(cells, tail);
    }
  }

  /** The step of RecordRoundTrip: if the cells after the first read back,
      so do all of them. */
  lemma RecordConsRoundTrip(cells: seq<string>, tail: string)
    requires |cells| >= 2
    requires |tail| == 0 || tail[0] == '\n'
    requires |tail| == 0 ==> ReadRecord(EncodeRecord(cells[1..]) + tail) == Some(RecordRead(cells[1..], "", false))
    requires |tail| > 0 ==> ReadRecord(EncodeRecord(cells[1..]) + tail) == Some(RecordRead(cells[1..], tail[1..], true))
    ensures |tail| == 0 ==> ReadRecord(EncodeRecord(cells) + tail) == Some(RecordRead(cells, "", false))
    ensures |tail| > 0 ==> ReadRecord(EncodeRecord(cells) + tail) == Some(RecordRead(cells, tail[1..], true))
  {
    var e, r := EncodeCell(cells[0]), EncodeRecord(cells[1..]);
    var rest := "," + (r + tail);
    EncodeRecordCons(cells);
    AppendAssoc(e + ",", r, tail);
    AppendAssoc(e, ",", r + tail);
    CellRoundTrip(cells[0], rest);
    DropFirst(",", r + tail);
    ReadRecordComma(EncodeRecord(cells) + tail, cells[0], rest);
    HeadTail(cells);
  }

  lemma AppendAssoc(a: string, b: string, c: string)
    ensures (a + b) + c == a + (b + c)
  {
  }

  lemma DropFirst(c: string, x: string)
    requires |c| == 1
    ensures (c + x)[1..] == x
  {
  }

  /** A field followed by a comma continues the record with the fields after it. */
  lemma ReadRecordComma(s: string, cell: string, rest: string)
    requires ReadField(s) == Some((cell, rest))
    requires |rest| > 0 && rest[0] == ','
    requires ReadRecord(rest[1..]).Some?
    ensures var tail := ReadRecord(rest[1..]).value;
            ReadRecord(s) == Some(RecordRead([cell] + tail.fields, tail.rest, tail.more))
  {
  }


  /** A record of two or more cells is its first cell, a comma, and the rest. */
  lemma EncodeRecordCons(cells: seq<string>)
    requires |cells| >= 2
    ensures EncodeRecord(cells) == EncodeCell(cells[0]) + "," + EncodeRecord(cells[1..])
  {
    assert EncodeCells(cells)[1..] == EncodeCells(cells[1..]);
  }

  /** Every record of the document has at least one cell. */
  ghost predicate NoEmptyRecord(rows: seq<seq<string>>)
  {
    forall i :: 0 <= i < |rows| ==> |rows[i]| >= 1
  }

  /** Reading the encoded document gives back exactly the records written,
      whatever commas, quotes or line feeds the cells hold. */
  lemma {:induction false} DocumentRoundTrip(rows: seq<seq<string>>)
    requires |rows| >= 1 && NoEmptyRecord(rows)
    ensures Parse(EncodeDocument(rows)) == Some(rows)
  {
    if |rows| == 1 {
      assert EncodeDocument(rows) == EncodeRecord(rows[0]) + "";
      RecordRoundTrip(rows[0], "");
      assert [rows[0]] == rows;
    } else {
      DocumentRoundTrip(rows[1..]);
      DocumentConsRoundTrip(rows);
    }
  }

  /** The step of DocumentRoundTrip: if the records after the first read
      back, so do all of them. */
  lemma DocumentConsRoundTrip(rows: seq<seq<string>>)
    requires |rows| >= 2 && |rows[0]| >= 1
    requires Parse(EncodeDocument(rows[1..])) == Some(rows[1..])
    ensures Parse(EncodeDocument(rows)) == Some(rows)
  {
    var e, d := EncodeRecord(rows[0]), EncodeDocument(rows[1..]);
    var tail := "\n" + d;
    EncodeDocumentCons(rows);
    AppendAssoc(e, "\n", d);
    RecordRoundTrip(rows[0], tail);
    ParseRecordLine(EncodeDocument(rows), RecordRead(rows[0], tail[1..], true));
    DropFirst("\n", d);
    HeadTail(rows);
  }

  /** A document of two or more records is its first record, a line feed,
      and the rest. */
  lemma EncodeDocumentCons(rows: seq<seq<string>>)
    requires |rows| >= 2
    ensures EncodeDocument(rows) == EncodeRecord(rows[0]) + "\n" + EncodeDocument(rows[1..])
  {
    assert EncodeRecords(rows)[1..] == EncodeRecords(rows[1..]);
  }

  lemma HeadTail<T>(s: seq<T>)
    requires |s| >= 1
    ensures [s[0]] + s[1..] == s
  {
  }

  /** A record ended by a line feed is followed by the records after it. */
  lemma ParseRecordLine(s: string, record: RecordRead)
    requires ReadRecord(s) == Some(record) && record.more
    requires Parse(record.rest).Some?
    ensures Parse(s) == Some([record.fields] + Parse(record.rest).value)
  {
  }


  /** Distinct documents of non-empty records encode to distinct texts. */
  lemma EncodeDocumentInjective(a: seq<seq<string>>, b: seq<seq<string>>)
    requires |a| >= 1 && NoEmptyRecord(a)
    requires |b| >= 1 && NoEmptyRecord(b)
    requires EncodeDocument(a) == EncodeDocument(b)
    ensures a == b
  {
    DocumentRoundTrip(a);
    DocumentRoundTrip(b);
  }
}
