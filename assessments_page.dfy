/** The assessment list page `app/assessments/page.tsx`: the choice of the
    filter argument passed to the assessment query, and the CSV export of
    the listed assessments. The export is paired with a parser for the CSV
    the export writes: every field enclosed in double quotes, a double
    quote inside a field written twice (section 2.7 of RFC 4180), fields
    separated by `,` and records by LF (RFC 4180 uses CRLF). */
module AssessmentsPage {
  import opened Wrappers
  import opened Text

  /** The page's filter state. */
  datatype Filters = Filters(markingSheetId: string, startDate: string, endDate: string)

  /** The argument of `getAssessments`: the filters when any of them is set
      (a non-empty string is truthy), otherwise none at all. */
  function FilterArgument(f: Filters): (r: Option<Filters>)
    ensures r.Some? <==> f.markingSheetId != "" || f.startDate != "" || f.endDate != ""
    ensures r.Some? ==> r.value == f
  {
    if f.markingSheetId != "" || f.startDate != "" || f.endDate != "" then Some(f) else None
  }

  /** An assessment row as the page receives it, with the joined marking
      sheet's name. `percentageScore` holds hundredths of a percent. */
  datatype AssessmentRow = AssessmentRow(
    studentName: string,
    assessorName: string,
    sheetName: Option<string>,
    createdAt: string,
    totalScore: Option<int>,
    maxPossibleScore: Option<int>,
    percentageScore: Option<int>,
    status: Option<string>,
    remarks: Option<string>,
    acknowledgedAt: Option<string>)

  const Header: seq<string> := ["Student Name", "Assessor", "Marking Sheet", "Date", "Score", "Max Score",
                                "Percentage", "Status", "Remarks", "Acknowledged"]

  /** The cells of one row of the export; `dateText` stands for
      `new Date(created_at).toLocaleDateString()`. */
  function Cells(a: AssessmentRow, dateText: string -> string): (r: seq<string>)
    ensures |r| == |Header|
    ensures r[0] == a.studentName && r[1] == a.assessorName
    ensures r[2] == "Unknown" <==> a.sheetName.None? || a.sheetName.value == "" || a.sheetName.value == "Unknown"
    ensures r[2] != "Unknown" ==> r[2] == a.sheetName.value
    ensures r[3] == dateText(a.createdAt)
    ensures r[4] == IntToString(IntOr(a.totalScore, 0)) && r[5] == IntToString(IntOr(a.maxPossibleScore, 0))
    ensures r[6] == HundredthsToString(IntOr(a.percentageScore, 0)) + "%"
    ensures r[7] == StringOr(a.status, "pending") && r[8] == StringOr(a.remarks, "")
    ensures r[9] == "Yes" <==> a.acknowledgedAt.Some? && a.acknowledgedAt.value != ""
    ensures r[9] == "Yes" || r[9] == "No"
  {
    var people := [a.studentName, a.assessorName, StringOr(a.sheetName, "Unknown"), dateText(a.createdAt)];
    var scores := [IntToString(IntOr(a.totalScore, 0)), IntToString(IntOr(a.maxPossibleScore, 0)),
                   HundredthsToString(IntOr(a.percentageScore, 0)) + "%"];
    var outcome := [StringOr(a.status, "pending"), StringOr(a.remarks, ""),
                    if a.acknowledgedAt.Some? && a.acknowledgedAt.value != "" then "Yes" else "No"];
    people + scores + outcome
  }

  /** `csvData`: one row of cells per assessment. */
  function Rows(assessments: seq<AssessmentRow>, dateText: string -> string): (rows: seq<seq<string>>)
    ensures |rows| == |assessments|
    ensures forall k :: 0 <= k < |assessments| ==> rows[k] == Cells(assessments[k], dateText)
  {
    seq(|assessments|, k requires 0 <= k < |assessments| => Cells(assessments[k], dateText))
  }

  /** `[headers, ...csvData]`. */
  function Table(assessments: seq<AssessmentRow>, dateText: string -> string): (t: seq<seq<string>>)
    ensures |t| == |assessments| + 1 && t[0] == Header
    ensures forall k :: 0 <= k < |assessments| ==> t[k + 1] == Cells(assessments[k], dateText)
  {
    var rows := Rows(assessments, dateText);
    assert forall k :: 0 <= k < |rows| ==> ([Header] + rows)[k + 1] == rows[k];
    [Header] + rows
  }

  // ----- serialisation -----

  /** `"${cell}"`: the cell between double quotes, as the page writes it. */
  function QuoteAsWritten(cell: string): string {
    "\"" + cell + "\""
  }

  /** Every double quote of `cell` written twice. */
  function Escape(cell: string): (r: string)
    ensures '"' !in cell ==> r == cell
  {
    if cell == [] then []
    else (if cell[0] == '"' then "\"\"" else [cell[0]]) + Escape(cell[1..])
  }

  /** The cell as an RFC 4180 quoted field. */
  function QuoteEscaped(cell: string): string {
    "\"" + Escape(cell) + "\""
  }

  /** `row.map(quote)`. */
  function Fields(cells: seq<string>, quote: string -> string): (r: seq<string>)
    ensures |r| == |cells|
    ensures forall k :: 0 <= k < |cells| ==> r[k] == quote(cells[k])
  {
    if cells == [] then [] else [quote(cells[0])] + Fields(cells[1..], quote)
  }

  /** `row.map(quote).join(",")`. */
  function Line(cells: seq<string>, quote: string -> string): string {
    Join(Fields(cells, quote), ",")
  }

  /** `rows.map((row) => Line(row))`. */
  function Lines(rows: seq<seq<string>>, quote: string -> string): (r: seq<string>)
    ensures |r| == |rows|
  {
    if rows == [] then [] else [Line(rows[0], quote)] + Lines(rows[1..], quote)
  }

  /** The whole file: the lines joined by newlines. */
  function Csv(rows: seq<seq<string>>, quote: string -> string): string {
    Join(Lines(rows, quote), "\n")
  }

  // ----- the parser: quoted fields, LF between records -----

  /** The content of a quoted field whose opening quote has been read: the
      characters up to the closing quote, a doubled quote standing for one,
      and what follows the closing quote. `None` when the field does not
      end. */
  function ReadQuoted(s: string): (r: Option<(string, string)>)
    ensures r.Some? ==> |r.value.1| < |s|
  {
    if s == [] then None
    else if s[0] == '"' then
      if |s| >= 2 && s[1] == '"' then
        var t := ReadQuoted(s[2..]);
        if t.None? then None else Some(("\"" + t.value.0, t.value.1))
      else
        Some(([], s[1..]))
    else
      var t := ReadQuoted(s[1..]);
      if t.None? then None else Some(([s[0]] + t.value.0, t.value.1))
  }

  /** The quoted fields of one record, separated by commas, and the text
      after the record's last field. */
  function ParseFields(s: string): (r: Option<(seq<string>, string)>)
    ensures r.Some? ==> |r.value.1| < |s|
    decreases |s|
  {
    if s == [] || s[0] != '"' then None
    else
      var t := ReadQuoted(s[1..]);
      if t.None? then None
      else if t.value.1 != [] && t.value.1[0] == ',' then
        var more := ParseFields(t.value.1[1..]);
        if more.None? then None else Some(([t.value.0] + more.value.0, more.value.1))
      else
        Some(([t.value.0], t.value.1))
  }

  /** The records of a CSV text, separated by newlines; `None` when the
      text is malformed. */
  function ParseRecords(s: string): Option<seq<seq<string>>>
    decreases |s|
  {
    var t := ParseFields(s);
    if t.None? then None
    else if t.value.1 == [] then Some([t.value.0])
    else if t.value.1[0] == '\n' then
      var more := ParseRecords(t.value.1[1..]);
      if more.None? then None else Some([t.value.0] + more.value)
    else None
  }

  // ----- round trip -----

  /** A quote not followed by another one closes the field. */
  lemma ReadQuotedClose(rest: string)
    requires rest == [] || rest[0] != '"'
    ensures ReadQuoted("\"" + rest) == Some(([], rest))
  {
    assert ("\"" + rest)[1..] == rest;
  }

  /** A doubled quote stands for one quote of the content. */
  lemma ReadQuotedDoubled(t: string)
    ensures ReadQuoted("\"\"" + t) ==
      var r := ReadQuoted(t);
      if r.None? then None else Some(("\"" + r.value.0, r.value.1))
  {
    assert ("\"\"" + t)[2..] == t;
  }

  /** Any other character is content. */
  lemma ReadQuotedPlain(c: char, t: string)
    requires c != '"'
    ensures ReadQuoted([c] + t) ==
      var r := ReadQuoted(t);
      if r.None? then None else Some(([c] + r.value.0, r.value.1))
  {
    assert ([c] + t)[1..] == t;
  }

  /** The step of `ReadQuotedEscape` for a cell starting with a quote. */
  lemma ReadQuotedEscapeQuote(cell: string, rest: string)
    requires cell != [] && cell[0] == '"'
    requires ReadQuoted(Escape(cell[1..]) + "\"" + rest) == Some((cell[1..], rest))
    ensures ReadQuoted(Escape(cell) + "\"" + rest) == Some((cell, rest))
  {
    var tail := Escape(cell[1..]) + "\"" + rest;
    assert Escape(cell) + "\"" + rest == "\"\"" + tail;
    ReadQuotedDoubled(tail);
    assert "\"" + cell[1..] == cell;
  }

  /** The step of `ReadQuotedEscape` for a cell starting with any other
      character. */
  lemma ReadQuotedEscapePlain(cell: string, rest: string)
    requires cell != [] && cell[0] != '"'
    requires ReadQuoted(Escape(cell[1..]) + "\"" + rest) == Some((cell[1..], rest))
    ensures ReadQuoted(Escape(cell) + "\"" + rest) == Some((cell, rest))
  {
    var tail := Escape(cell[1..]) + "\"" + rest;
    assert Escape(cell) + "\"" + rest == [cell[0]] + tail;
    ReadQuotedPlain(cell[0], tail);
    assert [cell[0]] + cell[1..] == cell;
  }

  /** An escaped field body followed by the closing quote is read back as
      the cell, whatever comes after unless it is another quote. */
  lemma {:induction false} ReadQuotedEscape(cell: string, rest: string)
    requires rest == [] || rest[0] != '"'
    ensures ReadQuoted(Escape(cell) + "\"" + rest) == Some((cell, rest))
  {
    if cell == [] {
      assert Escape(cell) + "\"" + rest == "\"" + rest;
      ReadQuotedClose(rest);
    } else {
      ReadQuotedEscape(cell[1..], rest);
      if cell[0] == '"' {
        ReadQuotedEscapeQuote(cell, rest);
      } else {
        ReadQuotedEscapePlain(cell, rest);
      }
    }
  }

  lemma LineUnfold(cells: seq<string>, quote: string -> string)
    requires cells != []
    ensures |cells| == 1 ==> Line(cells, quote) == quote(cells[0])
    ensures |cells| > 1 ==> Line(cells, quote) == quote(cells[0]) + "," + Line(cells[1..], quote)
  {
    var f := Fields(cells, quote);
    assert f[0] == quote(cells[0]);
    assert f[1..] == Fields(cells[1..], quote);
  }

  /** A quoted body followed by more text starts with the opening quote,
      and after it come the body, the closing quote and the text. */
  lemma QuotedTail(body: string, after: string)
    ensures var s := "\"" + body + "\"" + after;
      s[0] == '"' && s[1..] == body + "\"" + after
  {
    var s := "\"" + body + "\"" + after;
    assert s == "\"" + (body + "\"" + after);
  }

  /** The last field of a record is read back as its cell. */
  lemma ParseFieldsLast(cell: string, after: string)
    requires after == [] || after[0] == '\n'
    ensures ParseFields(QuoteEscaped(cell) + after) == Some(([cell], after))
  {
    QuotedTail(Escape(cell), after);
    ReadQuotedEscape(cell, after);
  }

  /** A field followed by a comma is read back as its cell, and the fields
      after the comma follow it. */
  lemma ParseFieldsNext(cell: string, more: string)
    ensures ParseFields(QuoteEscaped(cell) + ("," + more)) ==
      var m := ParseFields(more);
      if m.None? then None else Some(([cell] + m.value.0, m.value.1))
  {
    var after := "," + more;
    QuotedTail(Escape(cell), after);
    ReadQuotedEscape(cell, after);
    assert after[1..] == more;
  }

  /** Concatenation regrouped to the right. */
  lemma ConcatRight(a: string, b: string, c: string, d: string)
    ensures a + b + c + d == a + (b + (c + d))
  {
  }

  /** A line of several fields is its first field, a comma and the rest. */
  lemma LineCons(cells: seq<string>, rest: string)
    requires |cells| > 1
    ensures Line(cells, QuoteEscaped) + rest ==
      QuoteEscaped(cells[0]) + ("," + (Line(cells[1..], QuoteEscaped) + rest))
  {
    LineUnfold(cells, QuoteEscaped);
    ConcatRight(QuoteEscaped(cells[0]), ",", Line(cells[1..], QuoteEscaped), rest);
  }

  /** One more field in front of a record that is read back. */
  lemma ParseFieldsCons(cells: seq<string>, rest: string)
    requires |cells| > 1
    requires ParseFields(Line(cells[1..], QuoteEscaped) + rest) == Some((cells[1..], rest))
    ensures ParseFields(Line(cells, QuoteEscaped) + rest) == Some((cells, rest))
  {
    LineCons(cells, rest);
    ParseFieldsNext(cells[0], Line(cells[1..], QuoteEscaped) + rest);
    assert [cells[0]] + cells[1..] == cells;
  }

  /** A record written with escaped fields is parsed back to its cells,
      when it is followed by the end of the text or a newline. */
  lemma {:induction false} ParseFieldsLine(cells: seq<string>, rest: string)
    requires cells != []
    requires rest == [] || rest[0] == '\n'
    ensures ParseFields(Line(cells, QuoteEscaped) + rest) == Some((cells, rest))
  {
    if |cells| == 1 {
      LineUnfold(cells, QuoteEscaped);
      ParseFieldsLast(cells[0], rest);
      assert [cells[0]] == cells;
    } else {
      ParseFieldsLine(cells[1..], rest);
      ParseFieldsCons(cells, rest);
    }
  }

  lemma CsvUnfold(rows: seq<seq<string>>, quote: string -> string)
    requires rows != []
    ensures |rows| == 1 ==> Csv(rows, quote) == Line(rows[0], quote)
    ensures |rows| > 1 ==> Csv(rows, quote) == Line(rows[0], quote) + "\n" + Csv(rows[1..], quote)
  {
    var lines := Lines(rows, quote);
    assert lines[0] == Line(rows[0], quote);
    assert lines[1..] == Lines(rows[1..], quote);
  }

  /** A table written with escaped fields is parsed back to the table, for
      every content of the cells, newlines and quotes included. */
  lemma {:induction false} ParseCsvRoundTrip(rows: seq<seq<string>>)
    requires rows != []
    requires forall k :: 0 <= k < |rows| ==> rows[k] != []
    ensures ParseRecords(Csv(rows, QuoteEscaped)) == Some(rows)
  {
    CsvUnfold(rows, QuoteEscaped);
    if |rows| == 1 {
      assert Csv(rows, QuoteEscaped) == Line(rows[0], QuoteEscaped) + [];
      ParseFieldsLine(rows[0], []);
      assert [rows[0]] == rows;
    } else {
      var tail := "\n" + Csv(rows[1..], QuoteEscaped);
      assert Csv(rows, QuoteEscaped) == Line(rows[0], QuoteEscaped) + tail;
      ParseFieldsLine(rows[0], tail);
      assert tail[1..] == Csv(rows[1..], QuoteEscaped);
      ParseCsvRoundTrip(rows[1..]);
      assert [rows[0]] + rows[1..] == rows;
    }
  }

  // ----- the export -----

  /** The exported file with RFC 4180 quoting: it parses back to the header
      and one record of cells per assessment. */
  function ExportToCsv(assessments: seq<AssessmentRow>, dateText: string -> string): (csv: string)
    ensures ParseRecords(csv) == Some(Table(assessments, dateText))
  {
    var t := Table(assessments, dateText);
    assert forall k :: 0 <= k < |t| ==> |t[k]| == |Header|;
    ParseCsvRoundTrip(t);
    Csv(t, QuoteEscaped)
  }

  /** `exportToCSV` as the page writes it: every cell between quotes,
      inner quotes left as they are. */
  function ExportToCsvAsWritten(assessments: seq<AssessmentRow>, dateText: string -> string): (csv: string)
    ensures NoQuotes(Table(assessments, dateText)) ==>
      csv == ExportToCsv(assessments, dateText) &&
      ParseRecords(csv) == Some(Table(assessments, dateText))
  {
    var t := Table(assessments, dateText);
    SameCsvWithoutQuotes(t);
    Csv(t, QuoteAsWritten)
  }

  /** No cell of the table holds a double quote. */
  predicate NoQuotes(rows: seq<seq<string>>) {
    forall k, j :: 0 <= k < |rows| && 0 <= j < |rows[k]| ==> '"' !in rows[k][j]
  }

  /** Without a double quote in any cell, the page's quoting and RFC 4180
      quoting write the same text. */
  lemma {:induction false} SameFieldsWithoutQuotes(cells: seq<string>)
    requires forall k :: 0 <= k < |cells| ==> '"' !in cells[k]
    ensures Fields(cells, QuoteAsWritten) == Fields(cells, QuoteEscaped)
  {
    if cells != [] {
      SameFieldsWithoutQuotes(cells[1..]);
    }
  }

  lemma {:induction false} SameLinesWithoutQuotes(rows: seq<seq<string>>)
    requires NoQuotes(rows)
    ensures Lines(rows, QuoteAsWritten) == Lines(rows, QuoteEscaped)
  {
    if rows != [] {
      SameFieldsWithoutQuotes(rows[0]);
      SameLinesWithoutQuotes(rows[1..]);
    }
  }

  lemma SameCsvWithoutQuotes(rows: seq<seq<string>>)
    ensures NoQuotes(rows) ==> Csv(rows, QuoteAsWritten) == Csv(rows, QuoteEscaped)
  {
    if NoQuotes(rows) {
      SameLinesWithoutQuotes(rows);
    }
  }

  /** A remark such as `a"b` makes the page's file unreadable: its field
      `"a"b"` closes after `a` and is followed by neither a comma nor a
      newline. */
  lemma QuoteInCellBreaksAsWritten()
    ensures ParseRecords(Csv([["a\"b"]], QuoteAsWritten)) == None
    ensures ParseRecords(Csv([["a\"b"]], QuoteEscaped)) == Some([["a\"b"]])
  {
    var s := Csv([["a\"b"]], QuoteAsWritten);
    CsvUnfold([["a\"b"]], QuoteAsWritten);
    LineUnfold(["a\"b"], QuoteAsWritten);
    assert s == "\"a\"b\"";
    assert s[1..] == "a\"b\"";
    var r := "\"b\"";
    assert r[1..] == "b\"";
    assert ReadQuoted(r) == Some(([], "b\""));
    assert s[1..][0] == 'a' && s[1..][1..] == r;
    assert ReadQuoted(s[1..]) == Some((['a'] + [], "b\""));
    assert s != [] && s[0] == '"';
    assert ['a'] + [] == "a";
    assert ParseFields(s) == Some((["a"], "b\""));
    ParseCsvRoundTrip([["a\"b"]]);
  }
}
