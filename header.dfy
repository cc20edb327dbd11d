/** `find_header_row` for a CSV upload, over the file's lines already split
    into cells. */
module Header {

  /** `all(col in row for col in required_columns)`. */
  predicate HasAll(row: seq<string>, required: seq<string>) {
    forall k :: 0 <= k < |required| ==> required[k] in row
  }

  /** The last index the scan examines: the `idx > 20` break comes after the
      test, so rows 0 to 21 are looked at. */
  const LastScanned: nat := 21

  /** The index of the first row among the first 22 that holds every
      required name, or 0 when there is none. */
  method FindHeaderRow(rows: seq<seq<string>>, required: seq<string>) returns (idx: nat)
    ensures (exists r :: 0 <= r < |rows| && r <= LastScanned && HasAll(rows[r], required)) ==>
      idx < |rows| && idx <= LastScanned && HasAll(rows[idx], required) &&
      forall r :: 0 <= r < idx ==> !HasAll(rows[r], required)
    ensures (forall r :: 0 <= r < |rows| && r <= LastScanned ==> !HasAll(rows[r], required)) ==>
      idx == 0
  {
    var i := 0;
    while i < |rows|
      invariant i <= |rows| && i <= LastScanned
      invariant forall r :: 0 <= r < i ==> !HasAll(rows[r], required)
    {
      if HasAll(rows[i], required) {
        return i;
      }
      if i > 20 {
        break;
      }
      i := i + 1;
    }
    return 0;
  }
}
