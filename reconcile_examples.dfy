/** A worked example of the `/process-csv` reconciliation on two small tables. */
module ReconcileExamples {
  import opened Wrappers
  import opened Cells
  import opened Diff
  import opened PriceExamples
  import opened Reconcile

  /** The first file: two products with HTML descriptions. */
  const Listing: Table := Table(["Product ID", "HTML"], [
    [Str("P1"), Str("<p>Red Shirt $10</p>")],
    [Str("P2"), Str("<p>Blue Cap</p>")]])

  /** The second file: product P1 twice (the first row wins), P2 absent. */
  const Catalogue: Table := Table(["SKU", "Product ID", "Name", "Product Description"], [
    [Str("A1"), Str("P1"), Str("Shirt"), Str("Red shirt, priced at 10 USD")],
    [Str("A2"), Str("P1"), Str("Shirt"), Other("nan")],
    [Str("A3"), Str("P3"), Str("Cap"), Str("Blue cap")]])

  const ListingColumns: Columns := Columns("Product ID", "HTML", "Product ID", "Product Description")

  lemma ListingShape(t1: Table, t2: Table)
    requires t1 == Listing && t2 == Catalogue
    ensures Rectangular(t1) && Rectangular(t2) && RowsFit(t1.columns, t1.rows)
  {
    assert |t1.columns| == 2 && |t1.rows| == 2 && |t1.rows[0]| == 2 && |t1.rows[1]| == 2;
    assert |t2.columns| == 4 && |t2.rows| == 3 && |t2.rows[0]| == 4 && |t2.rows[1]| == 4 && |t2.rows[2]| == 4;
  }

  lemma ListingValidates(t1: Table, t2: Table)
    requires t1 == Listing && t2 == Catalogue
    ensures ValidateCsvStructure(t1.columns, t2.columns) == Success(ListingColumns)
    ensures ColumnIndex(t1.columns, "Product ID") == 0 && ColumnIndex(t1.columns, "HTML") == 1
    ensures ColumnIndex(t2.columns, "Product ID") == 1 && ColumnIndex(t2.columns, "Product Description") == 3
    ensures Rectangular(t1) && Rectangular(t2) && RowsFit(t1.columns, t1.rows)
    ensures Fits(t1.columns, t2, ListingColumns)
  {
    ListingShape(t1, t2);
  }

  /** P1's row is joined with the first P1 row of the catalogue. */
  lemma ListingFirstRow(t1: Table, t2: Table, soup: Soup, matcher: Matcher)
    requires t1 == Listing && t2 == Catalogue
    requires soup(Str("<p>Red Shirt $10</p>")) == Some("Red Shirt $10")
    ensures Rectangular(t1) && Rectangular(t2)
    ensures Fits(t1.columns, t2, ListingColumns) && RowsFit(t1.columns, t1.rows)
    ensures RowResult(t1.columns, t2, ListingColumns, soup, matcher, t1.rows[0]) ==
      Some(Record(Str("P1"), "Red Shirt $10", Str("Red shirt, priced at 10 USD"),
        GetDifferences("Red Shirt $10", Str("Red shirt, priced at 10 USD"), matcher).0, "$10", "10 USD"))
  {
    ListingValidates(t1, t2);
    var description := Str("Red shirt, priced at 10 USD");
    assert t2.rows[0][1] == t1.rows[0][0];
    MatchedRowRecord(t1.columns, t2, ListingColumns, soup, matcher, t1.rows[0], 0);
    ExampleMarkupPrice("Red Shirt $10");
    ExampleDescriptionPrice(description.s);
  }

  /** P2 does not occur in the catalogue. */
  lemma ListingSecondRow(t1: Table, t2: Table, soup: Soup, matcher: Matcher)
    requires t1 == Listing && t2 == Catalogue
    ensures Fits(t1.columns, t2, ListingColumns) && RowsFit(t1.columns, t1.rows)
    ensures RowResult(t1.columns, t2, ListingColumns, soup, matcher, t1.rows[1]) == None
  {
    ListingValidates(t1, t2);
    UnmatchedRowGivesNothing(t1.columns, t2, ListingColumns, soup, matcher, t1.rows[1]);
  }

  /** Two rows, the first matched and the second not. */
  lemma TwoRows(cols1: seq<string>, t2: Table, c: Columns, soup: Soup, matcher: Matcher, rows: seq<seq<Cell>>, rec: Record)
    requires Fits(cols1, t2, c) && RowsFit(cols1, rows) && |rows| == 2
    requires RowResult(cols1, t2, c, soup, matcher, rows[0]) == Some(rec)
    requires RowResult(cols1, t2, c, soup, matcher, rows[1]) == None
    ensures Records(cols1, t2, c, soup, matcher, rows) == [rec]
    ensures Unmatched(cols1, t2, c, soup, matcher, rows) == 1
  {
    RecordsStep(cols1, t2, c, soup, matcher, rows, 0);
    RecordsStep(cols1, t2, c, soup, matcher, rows, 1);
    assert rows[..0] == [];
    assert rows[..2] == rows;
  }

  /** Validated tables whose rows yield one record and one error. */
  lemma OneRecordOneError(t1: Table, t2: Table, soup: Soup, matcher: Matcher, c: Columns, rec: Record)
    requires Rectangular(t1) && Rectangular(t2)
    requires ValidateCsvStructure(t1.columns, t2.columns) == Success(c)
    requires Fits(t1.columns, t2, c) && RowsFit(t1.columns, t1.rows)
    requires Records(t1.columns, t2, c, soup, matcher, t1.rows) == [rec]
    requires Unmatched(t1.columns, t2, c, soup, matcher, t1.rows) == 1
    ensures Reconciliation(t1, t2, soup, matcher) == Success(Report([rec], 1, 1))
  {
  }

  /** The whole reconciliation: one record, for P1, with the prices of both texts, and
      one error, for P2. */
  lemma ListingReconciled(t1: Table, t2: Table, soup: Soup, matcher: Matcher)
    requires t1 == Listing && t2 == Catalogue
    requires soup(Str("<p>Red Shirt $10</p>")) == Some("Red Shirt $10")
    ensures Rectangular(t1) && Rectangular(t2)
    ensures Reconciliation(t1, t2, soup, matcher) == Success(Report([
      Record(Str("P1"), "Red Shirt $10", Str("Red shirt, priced at 10 USD"),
        GetDifferences("Red Shirt $10", Str("Red shirt, priced at 10 USD"), matcher).0, "$10", "10 USD")], 1, 1))
  {
    ListingValidates(t1, t2);
    ListingFirstRow(t1, t2, soup, matcher);
    ListingSecondRow(t1, t2, soup, matcher);
    var rec := Record(Str("P1"), "Red Shirt $10", Str("Red shirt, priced at 10 USD"),
      GetDifferences("Red Shirt $10", Str("Red shirt, priced at 10 USD"), matcher).0, "$10", "10 USD");
    TwoRows(t1.columns, t2, ListingColumns, soup, matcher, t1.rows, rec);
    OneRecordOneError(t1, t2, soup, matcher, ListingColumns, rec);
  }
}
