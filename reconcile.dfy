/** The reconciliation step of the `/process-csv` endpoint: the column
    check, the HTML-to-text step, and the loop that joins each row of the
    first file with the first row of the second file that has the same
    product number. */
module Reconcile {
  import opened Wrappers
  import opened Cells
  import opened Diff

  /** A table as pandas reads it: the header labels and the data rows. */
  datatype Table = Table(columns: seq<string>, rows: seq<seq<Cell>>)

  /** Every data row has one cell per column, as in a DataFrame. */
  predicate Rectangular(t: Table) {
    forall r :: 0 <= r < |t.rows| ==> |t.rows[r]| == |t.columns|
  }

  /** The HTTP error the endpoint raises. */
  datatype HttpError = HttpError(status: nat, detail: string)

  // ---------------------------------------------------------------------
  // html_to_text

  /** BeautifulSoup's `get_text(separator=' ', strip=True)` applied to a
      cell; `None` when the parser raises. */
  type Soup = Cell -> Option<string>

  /** `html_to_text(html_content)`: the parser's text, or `str(html_content)`
      when the parser raises. */
  function HtmlToText(soup: Soup, html: Cell): (text: string)
    ensures soup(html).None? ==> text == Show(html)
    ensures soup(html).Some? ==> text == soup(html).value
  {
    match soup(html)
    case Some(t) => t
    case None => Show(html)
  }

  // ---------------------------------------------------------------------
  // validate_csv_structure

  const FirstFileMessage: string := "First file must have at least 2 columns (product number and HTML content)"
  const SecondFileMessage: string := "Second file must have at least 4 columns (product number and description in 4th column)"

  /** The labels of the product number and HTML columns of the first file
      and of the product number and description columns of the second. */
  datatype Columns = Columns(product1: string, html: string, product2: string, desc: string)

  /** `validate_csv_structure(df1, df2)`, with the `ValueError` as a failure. */
  function ValidateCsvStructure(cols1: seq<string>, cols2: seq<string>): (r: Result<Columns, string>)
    ensures r.Success? <==> |cols1| >= 2 && |cols2| >= 4
    ensures |cols1| < 2 ==> r == Failure(FirstFileMessage)
    ensures |cols1| >= 2 && |cols2| < 4 ==> r == Failure(SecondFileMessage)
    ensures r.Success? ==> r.value == Columns(cols1[0], cols1[1], cols2[1], cols2[3])
  {
    if |cols1| < 2 then Failure(FirstFileMessage)
    else if |cols2| < 4 then Failure(SecondFileMessage)
    else Success(Columns(cols1[0], cols1[1], cols2[1], cols2[3]))
  }

  /** The position of the column labelled `name`. After `read_csv` or
      `read_excel` labels are unique, so it is the one column `row[name]` reads. */
  function ColumnIndex(cols: seq<string>, name: string): (k: nat)
    requires name in cols
    ensures k < |cols| && cols[k] == name
    ensures forall j :: 0 <= j < k ==> cols[j] != name
  {
    if cols[0] == name then 0 else 1 + ColumnIndex(cols[1..], name)
  }

  /** `pandas.read_csv` makes header labels unique. */
  predicate Distinct(cols: seq<string>) {
    forall j, k :: 0 <= j < k < |cols| ==> cols[j] != cols[k]
  }

  /** With unique labels, the validated columns are the first file's
      columns 0 and 1 and the second file's columns 1 and 3. */
  lemma ValidatedPositions(cols1: seq<string>, cols2: seq<string>)
    requires Distinct(cols1) && Distinct(cols2)
    requires ValidateCsvStructure(cols1, cols2).Success?
    ensures var c := ValidateCsvStructure(cols1, cols2).value;
      c.product1 in cols1 && c.html in cols1 && c.product2 in cols2 && c.desc in cols2 &&
      ColumnIndex(cols1, c.product1) == 0 && ColumnIndex(cols1, c.html) == 1 &&
      ColumnIndex(cols2, c.product2) == 1 && ColumnIndex(cols2, c.desc) == 3
  {
    var c := ValidateCsvStructure(cols1, cols2).value;
    assert cols1[0] == c.product1 && cols1[1] == c.html && cols2[1] == c.product2 && cols2[3] == c.desc;
  }

  // ---------------------------------------------------------------------
  // One row of the join

  /** The six fields of an output row, in the order of the result columns
      `Product Number`, `Natural Language Output`, `Product Description`,
      `Differences`, `LAZADA PRICES`, `SHOPEE PRICES`. */
  datatype Record = Record(
    productNumber: Cell,
    naturalLanguage: string,
    description: Cell,
    differences: string,
    lazadaPrices: string,
    shopeePrices: string)

  /** The validated labels exist in the tables they index. */
  predicate Fits(cols1: seq<string>, t2: Table, c: Columns) {
    c.product1 in cols1 && c.html in cols1 && c.product2 in t2.columns && c.desc in t2.columns &&
    Rectangular(t2)
  }

  /** The first row, from `i` on, whose cell in column `col` equals `id`:
      `df2[df2[col] == id].iloc[0]`. */
  function FirstMatch(rows: seq<seq<Cell>>, col: nat, id: Cell, i: nat): (r: Option<nat>)
    requires forall k :: 0 <= k < |rows| ==> col < |rows[k]|
    ensures r.Some? ==> i <= r.value < |rows| && rows[r.value][col] == id
    ensures r.Some? ==> forall k :: i <= k < r.value ==> rows[k][col] != id
    ensures r.None? ==> forall k :: i <= k < |rows| ==> rows[k][col] != id
    decreases |rows| - i
  {
    if i >= |rows| then None
    else if rows[i][col] == id then Some(i)
    else FirstMatch(rows, col, id, i + 1)
  }

  /** The record one row of the first file contributes, if any. */
  function RowResult(cols1: seq<string>, t2: Table, c: Columns, soup: Soup, matcher: Matcher, row: seq<Cell>): Option<Record>
    requires Fits(cols1, t2, c) && |row| == |cols1|
  {
    var productNumber := row[ColumnIndex(cols1, c.product1)];
    var text := HtmlToText(soup, row[ColumnIndex(cols1, c.html)]);
    match FirstMatch(t2.rows, ColumnIndex(t2.columns, c.product2), productNumber, 0)
    case None => None
    case Some(k) =>
      var description := t2.rows[k][ColumnIndex(t2.columns, c.desc)];
      var result := GetDifferences(text, description, matcher);
      Some(Record(productNumber, text, description, result.0, result.1, result.2))
  }

  /** A row whose product number is nowhere in the second file gives no record. */
  lemma UnmatchedRowGivesNothing(cols1: seq<string>, t2: Table, c: Columns, soup: Soup, matcher: Matcher, row: seq<Cell>)
    requires Fits(cols1, t2, c) && |row| == |cols1|
    requires forall k :: 0 <= k < |t2.rows| ==>
      t2.rows[k][ColumnIndex(t2.columns, c.product2)] != row[ColumnIndex(cols1, c.product1)]
    ensures RowResult(cols1, t2, c, soup, matcher, row) == None
  {
  }

  /** A row whose product number first occurs in row `k` of the second file
      gives the record built from row `k`'s description: the product number,
      the text of the HTML cell, that description, and the three results of
      `get_differences`. */
  lemma MatchedRowRecord(cols1: seq<string>, t2: Table, c: Columns, soup: Soup, matcher: Matcher, row: seq<Cell>, k: nat)
    requires Fits(cols1, t2, c) && |row| == |cols1|
    requires k < |t2.rows|
    requires t2.rows[k][ColumnIndex(t2.columns, c.product2)] == row[ColumnIndex(cols1, c.product1)]
    requires forall j :: 0 <= j < k ==>
      t2.rows[j][ColumnIndex(t2.columns, c.product2)] != row[ColumnIndex(cols1, c.product1)]
    ensures var r := RowResult(cols1, t2, c, soup, matcher, row);
      var text := HtmlToText(soup, row[ColumnIndex(cols1, c.html)]);
      var description := t2.rows[k][ColumnIndex(t2.columns, c.desc)];
      r.Some? &&
      r.value.productNumber == row[ColumnIndex(cols1, c.product1)] &&
      r.value.naturalLanguage == text &&
      r.value.description == description &&
      (r.value.differences, r.value.lazadaPrices, r.value.shopeePrices) == GetDifferences(text, description, matcher)
  {
    var m := FirstMatch(t2.rows, ColumnIndex(t2.columns, c.product2), row[ColumnIndex(cols1, c.product1)], 0);
    assert m.Some? && m.value <= k;
    assert m.value == k;
  }

  /** A matched row whose description is not a string still yields a record,
      holding the error triple of `get_differences`. */
  lemma ErrorRowStillRecorded(cols1: seq<string>, t2: Table, c: Columns, soup: Soup, matcher: Matcher, row: seq<Cell>, k: nat)
    requires Fits(cols1, t2, c) && |row| == |cols1|
    requires k < |t2.rows|
    requires t2.rows[k][ColumnIndex(t2.columns, c.product2)] == row[ColumnIndex(cols1, c.product1)]
    requires forall j :: 0 <= j < k ==>
      t2.rows[j][ColumnIndex(t2.columns, c.product2)] != row[ColumnIndex(cols1, c.product1)]
    requires t2.rows[k][ColumnIndex(t2.columns, c.desc)].Other?
    ensures var r := RowResult(cols1, t2, c, soup, matcher, row);
      r.Some? && r.value.differences == "Error comparing texts" &&
      r.value.lazadaPrices == "" && r.value.shopeePrices == ""
  {
    MatchedRowRecord(cols1, t2, c, soup, matcher, row, k);
  }

  /** A row yields a record exactly when its product number occurs in the
      product column of the second file. */
  lemma RowMatchedIff(cols1: seq<string>, t2: Table, c: Columns, soup: Soup, matcher: Matcher, row: seq<Cell>)
    requires Fits(cols1, t2, c) && |row| == |cols1|
    ensures RowResult(cols1, t2, c, soup, matcher, row).Some? <==>
      exists k :: 0 <= k < |t2.rows| && t2.rows[k][ColumnIndex(t2.columns, c.product2)] == row[ColumnIndex(cols1, c.product1)]
  {
    var m := FirstMatch(t2.rows, ColumnIndex(t2.columns, c.product2), row[ColumnIndex(cols1, c.product1)], 0);
    if m.Some? {
      assert t2.rows[m.value][ColumnIndex(t2.columns, c.product2)] == row[ColumnIndex(cols1, c.product1)];
    }
  }

  // ---------------------------------------------------------------------
  // The row loop of process_csv

  /** Every row has one cell per column of the first file. */
  predicate RowsFit(cols1: seq<string>, rows: seq<seq<Cell>>) {
    forall r :: 0 <= r < |rows| ==> |rows[r]| == |cols1|
  }

  /** `processed_data` after the loop has seen `rows`. */
  function Records(cols1: seq<string>, t2: Table, c: Columns, soup: Soup, matcher: Matcher, rows: seq<seq<Cell>>): (recs: seq<Record>)
    requires Fits(cols1, t2, c) && RowsFit(cols1, rows)
    ensures |recs| <= |rows|
  {
    if rows == [] then []
    else
      var prev := Records(cols1, t2, c, soup, matcher, rows[..|rows| - 1]);
      match RowResult(cols1, t2, c, soup, matcher, rows[|rows| - 1])
      case None => prev
      case Some(rec) => prev + [rec]
  }

  /** `error_count` after the loop has seen `rows`: the rows with no match. */
  function Unmatched(cols1: seq<string>, t2: Table, c: Columns, soup: Soup, matcher: Matcher, rows: seq<seq<Cell>>): nat
    requires Fits(cols1, t2, c) && RowsFit(cols1, rows)
  {
    if rows == [] then 0
    else
      Unmatched(cols1, t2, c, soup, matcher, rows[..|rows| - 1]) +
      (if RowResult(cols1, t2, c, soup, matcher, rows[|rows| - 1]).None? then 1 else 0)
  }

  /** The positions of the rows that yield a record, in increasing order. */
  function MatchedRows(cols1: seq<string>, t2: Table, c: Columns, soup: Soup, matcher: Matcher, rows: seq<seq<Cell>>): seq<nat>
    requires Fits(cols1, t2, c) && RowsFit(cols1, rows)
  {
    if rows == [] then []
    else
      var prev := MatchedRows(cols1, t2, c, soup, matcher, rows[..|rows| - 1]);
      if RowResult(cols1, t2, c, soup, matcher, rows[|rows| - 1]).Some? then prev + [|rows| - 1] else prev
  }

  /** One more row extends the data by its record, or the error count by one. */
  lemma RecordsStep(cols1: seq<string>, t2: Table, c: Columns, soup: Soup, matcher: Matcher, rows: seq<seq<Cell>>, i: nat)
    requires Fits(cols1, t2, c) && RowsFit(cols1, rows) && i < |rows|
    ensures var res := RowResult(cols1, t2, c, soup, matcher, rows[i]);
      Records(cols1, t2, c, soup, matcher, rows[..i + 1]) ==
        Records(cols1, t2, c, soup, matcher, rows[..i]) + (if res.Some? then [res.value] else []) &&
      Unmatched(cols1, t2, c, soup, matcher, rows[..i + 1]) ==
        Unmatched(cols1, t2, c, soup, matcher, rows[..i]) + (if res.None? then 1 else 0)
  {
    assert rows[..i + 1][..i] == rows[..i];
    assert rows[..i + 1][i] == rows[i];
  }

  /** Every row is counted once: as a record or as an error. */
  lemma {:induction false} RowsCounted(cols1: seq<string>, t2: Table, c: Columns, soup: Soup, matcher: Matcher, rows: seq<seq<Cell>>)
    requires Fits(cols1, t2, c) && RowsFit(cols1, rows)
    ensures |Records(cols1, t2, c, soup, matcher, rows)| + Unmatched(cols1, t2, c, soup, matcher, rows) == |rows|
  {
    if rows != [] {
      RowsCounted(cols1, t2, c, soup, matcher, rows[..|rows| - 1]);
    }
  }

  /** The matched positions are increasing positions of `rows`, one per record. */
  lemma {:induction false} MatchedRowsIncrease(cols1: seq<string>, t2: Table, c: Columns, soup: Soup, matcher: Matcher, rows: seq<seq<Cell>>)
    requires Fits(cols1, t2, c) && RowsFit(cols1, rows)
    ensures var idx := MatchedRows(cols1, t2, c, soup, matcher, rows);
      |idx| == |Records(cols1, t2, c, soup, matcher, rows)| &&
      (forall k :: 0 <= k < |idx| ==> idx[k] < |rows|) &&
      (forall j, k :: 0 <= j < k < |idx| ==> idx[j] < idx[k])
  {
    if rows != [] {
      MatchedRowsIncrease(cols1, t2, c, soup, matcher, rows[..|rows| - 1]);
    }
  }

  /** The matched positions are exactly the rows that yield a record. */
  lemma {:induction false} MatchedRowsExact(cols1: seq<string>, t2: Table, c: Columns, soup: Soup, matcher: Matcher, rows: seq<seq<Cell>>)
    requires Fits(cols1, t2, c) && RowsFit(cols1, rows)
    ensures var idx := MatchedRows(cols1, t2, c, soup, matcher, rows);
      forall r :: 0 <= r < |rows| ==> (r in idx <==> RowResult(cols1, t2, c, soup, matcher, rows[r]).Some?)
  {
    if rows != [] {
      var init := rows[..|rows| - 1];
      MatchedRowsExact(cols1, t2, c, soup, matcher, init);
      MatchedRowsIncrease(cols1, t2, c, soup, matcher, init);
      MatchedRowsExactStep(cols1, t2, c, soup, matcher, rows);
    }
  }

  lemma MatchedRowsExactStep(cols1: seq<string>, t2: Table, c: Columns, soup: Soup, matcher: Matcher, rows: seq<seq<Cell>>)
    requires Fits(cols1, t2, c) && RowsFit(cols1, rows) && rows != []
    requires var init := rows[..|rows| - 1];
      var prev := MatchedRows(cols1, t2, c, soup, matcher, init);
      (forall r :: 0 <= r < |init| ==> (r in prev <==> RowResult(cols1, t2, c, soup, matcher, init[r]).Some?)) &&
      (forall k :: 0 <= k < |prev| ==> prev[k] < |init|)
    ensures var idx := MatchedRows(cols1, t2, c, soup, matcher, rows);
      forall r :: 0 <= r < |rows| ==> (r in idx <==> RowResult(cols1, t2, c, soup, matcher, rows[r]).Some?)
  {
    var n := |rows| - 1;
    var init := rows[..n];
    var prev := MatchedRows(cols1, t2, c, soup, matcher, init);
    var idx := MatchedRows(cols1, t2, c, soup, matcher, rows);
    var last := RowResult(cols1, t2, c, soup, matcher, rows[n]);
    assert idx == if last.Some? then prev + [n] else prev;
    assert n !in prev;
    assert n in idx <==> last.Some?;
    forall r | 0 <= r < n
      ensures r in idx <==> RowResult(cols1, t2, c, soup, matcher, rows[r]).Some?
    {
      assert r in idx <==> r in prev;
      assert init[r] == rows[r];
    }
  }

  /** The records are, in order, the records of the matched rows. */
  lemma {:induction false} RecordsInRowOrder(cols1: seq<string>, t2: Table, c: Columns, soup: Soup, matcher: Matcher, rows: seq<seq<Cell>>)
    requires Fits(cols1, t2, c) && RowsFit(cols1, rows)
    ensures var recs := Records(cols1, t2, c, soup, matcher, rows);
      var idx := MatchedRows(cols1, t2, c, soup, matcher, rows);
      |idx| == |recs| &&
      forall k :: 0 <= k < |idx| ==> idx[k] < |rows| && RowResult(cols1, t2, c, soup, matcher, rows[idx[k]]) == Some(recs[k])
  {
    if rows != [] {
      var init := rows[..|rows| - 1];
      RecordsInRowOrder(cols1, t2, c, soup, matcher, init);
      MatchedRowsIncrease(cols1, t2, c, soup, matcher, init);
      RecordsInRowOrderStep(cols1, t2, c, soup, matcher, rows);
    }
  }

  lemma RecordsInRowOrderStep(cols1: seq<string>, t2: Table, c: Columns, soup: Soup, matcher: Matcher, rows: seq<seq<Cell>>)
    requires Fits(cols1, t2, c) && RowsFit(cols1, rows) && rows != []
    requires var init := rows[..|rows| - 1];
      var prevRecs := Records(cols1, t2, c, soup, matcher, init);
      var prevIdx := MatchedRows(cols1, t2, c, soup, matcher, init);
      |prevIdx| == |prevRecs| &&
      forall k :: 0 <= k < |prevIdx| ==> prevIdx[k] < |init| && RowResult(cols1, t2, c, soup, matcher, init[prevIdx[k]]) == Some(prevRecs[k])
    ensures var recs := Records(cols1, t2, c, soup, matcher, rows);
      var idx := MatchedRows(cols1, t2, c, soup, matcher, rows);
      |idx| == |recs| &&
      forall k :: 0 <= k < |idx| ==> idx[k] < |rows| && RowResult(cols1, t2, c, soup, matcher, rows[idx[k]]) == Some(recs[k])
  {
    var n := |rows| - 1;
    var init := rows[..n];
    var prevRecs := Records(cols1, t2, c, soup, matcher, init);
    var prevIdx := MatchedRows(cols1, t2, c, soup, matcher, init);
    var recs := Records(cols1, t2, c, soup, matcher, rows);
    var idx := MatchedRows(cols1, t2, c, soup, matcher, rows);
    var last := RowResult(cols1, t2, c, soup, matcher, rows[n]);
    assert recs == if last.Some? then prevRecs + [last.value] else prevRecs;
    assert idx == if last.Some? then prevIdx + [n] else prevIdx;
    forall k | 0 <= k < |prevIdx|
      ensures idx[k] < |rows| && RowResult(cols1, t2, c, soup, matcher, rows[idx[k]]) == Some(recs[k])
    {
      assert idx[k] == prevIdx[k] && recs[k] == prevRecs[k];
      assert init[prevIdx[k]] == rows[prevIdx[k]];
    }
  }

  /** The counters and the data the loop has accumulated. */
  datatype Report = Report(records: seq<Record>, successCount: nat, errorCount: nat)

  const NoDataMessage: string := "No data was processed successfully"

  /** What `process_csv` computes from the two tables: the validation
      error, the no-data error, or the records with their counters. */
  function Reconciliation(t1: Table, t2: Table, soup: Soup, matcher: Matcher): (r: Result<Report, HttpError>)
    requires Rectangular(t1) && Rectangular(t2)
    ensures r.Failure? ==> r.error.status == 400
    ensures ValidateCsvStructure(t1.columns, t2.columns).Failure? ==>
      r == Failure(HttpError(400, ValidateCsvStructure(t1.columns, t2.columns).error))
    ensures r.Success? ==>
      |r.value.records| > 0 && |r.value.records| == r.value.successCount &&
      r.value.successCount + r.value.errorCount == |t1.rows|
  {
    match ValidateCsvStructure(t1.columns, t2.columns)
    case Failure(msg) => Failure(HttpError(400, msg))
    case Success(c) =>
      var recs := Records(t1.columns, t2, c, soup, matcher, t1.rows);
      RowsCounted(t1.columns, t2, c, soup, matcher, t1.rows);
      if recs == [] then Failure(HttpError(400, NoDataMessage))
      else Success(Report(recs, |recs|, Unmatched(t1.columns, t2, c, soup, matcher, t1.rows)))
  }

  /** The data is empty exactly when no row yields a record. */
  lemma RecordsEmptyIff(cols1: seq<string>, t2: Table, c: Columns, soup: Soup, matcher: Matcher, rows: seq<seq<Cell>>)
    requires Fits(cols1, t2, c) && RowsFit(cols1, rows)
    ensures Records(cols1, t2, c, soup, matcher, rows) == [] <==>
      forall r :: 0 <= r < |rows| ==> RowResult(cols1, t2, c, soup, matcher, rows[r]).None?
  {
    RecordsInRowOrder(cols1, t2, c, soup, matcher, rows);
    MatchedRowsExact(cols1, t2, c, soup, matcher, rows);
    var idx := MatchedRows(cols1, t2, c, soup, matcher, rows);
    if Records(cols1, t2, c, soup, matcher, rows) != [] {
      assert idx[0] in idx;
    }
  }

  /** After validation, the endpoint fails with "No data was processed
      successfully" exactly when no product number of the first file occurs
      in the product column of the second. */
  lemma NoDataIff(t1: Table, t2: Table, soup: Soup, matcher: Matcher)
    requires Rectangular(t1) && Rectangular(t2)
    requires ValidateCsvStructure(t1.columns, t2.columns).Success?
    ensures var c := ValidateCsvStructure(t1.columns, t2.columns).value;
      Reconciliation(t1, t2, soup, matcher) == Failure(HttpError(400, NoDataMessage)) <==>
      forall r, k :: 0 <= r < |t1.rows| && 0 <= k < |t2.rows| ==>
        t2.rows[k][ColumnIndex(t2.columns, c.product2)] != t1.rows[r][ColumnIndex(t1.columns, c.product1)]
  {
    var c := ValidateCsvStructure(t1.columns, t2.columns).value;
    RecordsEmptyIff(t1.columns, t2, c, soup, matcher, t1.rows);
    forall r | 0 <= r < |t1.rows|
      ensures RowResult(t1.columns, t2, c, soup, matcher, t1.rows[r]).Some? <==>
        exists k :: 0 <= k < |t2.rows| && t2.rows[k][ColumnIndex(t2.columns, c.product2)] == t1.rows[r][ColumnIndex(t1.columns, c.product1)]
    {
      RowMatchedIff(t1.columns, t2, c, soup, matcher, t1.rows[r]);
    }
  }

  /** A successful report lists, in the order of the first file, one record
      for each row whose product number occurs in the second file, and that
      record is the one the row yields. */
  lemma ReportFollowsRows(t1: Table, t2: Table, soup: Soup, matcher: Matcher)
    requires Rectangular(t1) && Rectangular(t2)
    requires Reconciliation(t1, t2, soup, matcher).Success?
    ensures var c := ValidateCsvStructure(t1.columns, t2.columns).value;
      var recs := Reconciliation(t1, t2, soup, matcher).value.records;
      var idx := MatchedRows(t1.columns, t2, c, soup, matcher, t1.rows);
      |idx| == |recs| &&
      (forall j, k :: 0 <= j < k < |idx| ==> idx[j] < idx[k]) &&
      (forall r :: 0 <= r < |t1.rows| ==> (r in idx <==>
        exists k :: 0 <= k < |t2.rows| && t2.rows[k][ColumnIndex(t2.columns, c.product2)] == t1.rows[r][ColumnIndex(t1.columns, c.product1)])) &&
      (forall k :: 0 <= k < |idx| ==> idx[k] < |t1.rows| && RowResult(t1.columns, t2, c, soup, matcher, t1.rows[idx[k]]) == Some(recs[k]))
  {
    var c := ValidateCsvStructure(t1.columns, t2.columns).value;
    MatchedRowsIncrease(t1.columns, t2, c, soup, matcher, t1.rows);
    MatchedRowsExact(t1.columns, t2, c, soup, matcher, t1.rows);
    RecordsInRowOrder(t1.columns, t2, c, soup, matcher, t1.rows);
    forall r | 0 <= r < |t1.rows|
      ensures RowResult(t1.columns, t2, c, soup, matcher, t1.rows[r]).Some? <==>
        exists k :: 0 <= k < |t2.rows| && t2.rows[k][ColumnIndex(t2.columns, c.product2)] == t1.rows[r][ColumnIndex(t1.columns, c.product1)]
    {
      RowMatchedIff(t1.columns, t2, c, soup, matcher, t1.rows[r]);
    }
  }

  /** The loop of `process_csv`: walks the rows of the first file, appends a
      record for each row with a match in the second file and counts the
      rest as errors. */
  method ProcessCsv(t1: Table, t2: Table, soup: Soup, matcher: Matcher) returns (r: Result<Report, HttpError>)
    requires Rectangular(t1) && Rectangular(t2)
    ensures r == Reconciliation(t1, t2, soup, matcher)
    ensures r.Success? ==>
      |r.value.records| == r.value.successCount && r.value.successCount + r.value.errorCount == |t1.rows|
  {
    var validated := ValidateCsvStructure(t1.columns, t2.columns);
    if validated.Failure? {
      return Failure(HttpError(400, validated.error));
    }
    var c := validated.value;
    var productCol1 := ColumnIndex(t1.columns, c.product1);
    var htmlCol := ColumnIndex(t1.columns, c.html);
    var productCol2 := ColumnIndex(t2.columns, c.product2);
    var descCol := ColumnIndex(t2.columns, c.desc);
    var data: seq<Record> := [];
    var successCount: nat := 0;
    var errorCount: nat := 0;
    var i := 0;
    while i < |t1.rows|
      invariant i <= |t1.rows|
      invariant data == Records(t1.columns, t2, c, soup, matcher, t1.rows[..i])
      invariant successCount == |data|
      invariant errorCount == Unmatched(t1.columns, t2, c, soup, matcher, t1.rows[..i])
      invariant successCount + errorCount == i
    {
      var row := t1.rows[i];
      var productNumber := row[productCol1];
      var text := HtmlToText(soup, row[htmlCol]);
      var matching := FirstMatch(t2.rows, productCol2, productNumber, 0);
      RecordsStep(t1.columns, t2, c, soup, matcher, t1.rows, i);
      if matching.Some? {
        var description := t2.rows[matching.value][descCol];
        var (differences, prices1, prices2) := GetDifferences(text, description, matcher);
        var record := Record(productNumber, text, description, differences, prices1, prices2);
        assert RowResult(t1.columns, t2, c, soup, matcher, row) == Some(record);
        data := data + [record];
        successCount := successCount + 1;
      } else {
        assert RowResult(t1.columns, t2, c, soup, matcher, row) == None;
        errorCount := errorCount + 1;
      }
      i := i + 1;
    }
    assert t1.rows[..i] == t1.rows;
    if data == [] {
      return Failure(HttpError(400, NoDataMessage));
    }
    return Success(Report(data, successCount, errorCount));
  }
}
