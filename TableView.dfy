/** What `populate_table` shows: one table row per stored row, one cell per property. */
module TableView {
  import opened Wrappers
  import opened Rows

  /** The cell texts of one row: its values in property order. */
  function Cells(row: Row): seq<string>
  {
    seq(|row|, j requires 0 <= j < |row| => row[j].1)
  }

  /** The table body for a row collection. */
  function Render(rows: seq<Row>): seq<seq<string>>
  {
    seq(|rows|, i requires 0 <= i < |rows| => Cells(rows[i]))
  }

  /**
   * Render shape: one table row per record, and in table row i one cell per
   * property of rows[i], holding that property's value, in property order.
   */
  lemma RenderShape(rows: seq<Row>)
    ensures |Render(rows)| == |rows|
    ensures forall i :: 0 <= i < |rows| ==> |Render(rows)[i]| == |Keys(rows[i])|
    ensures forall i, j :: 0 <= i < |rows| && 0 <= j < |rows[i]| ==> Render(rows)[i][j] == rows[i][j].1
  {
  }

  /**
   * Render fidelity: cell j of table row i is what rows[i] reads under its
   * j-th property name.
   */
  lemma RenderFidelity(rows: seq<Row>, i: nat)
    requires i < |rows| && DistinctKeys(rows[i])
    ensures forall j :: 0 <= j < |Keys(rows[i])| ==> Lookup(rows[i], Keys(rows[i])[j]) == Some(Render(rows)[i][j])
  {
    forall j | 0 <= j < |Keys(rows[i])|
      ensures Lookup(rows[i], Keys(rows[i])[j]) == Some(Render(rows)[i][j])
    {
      LookupAt(rows[i], j);
    }
  }

  /** Appending a row to the collection appends its cells to the table. */
  lemma RenderAppend(rows: seq<Row>, row: Row)
    ensures Render(rows + [row]) == Render(rows) + [Cells(row)]
  {
    assert forall i :: 0 <= i < |rows| ==> (rows + [row])[i] == rows[i];
  }
}
