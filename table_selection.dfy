/**
 * The row bookkeeping shared by the tables of the method and fields forms:
 * DefaultTableModel.addRow and removeRow on a row sequence, and the row the
 * form selects after a removal. No row sorter is installed on these tables,
 * so view and model row indices coincide; -1 stands for an empty selection.
 */
module TableSelection {

  /** DefaultTableModel.removeRow(r): the row at `r` is dropped and the later rows move up. */
  function RemoveAt<T>(rows: seq<T>, r: nat): (rest: seq<T>)
    requires r < |rows|
    ensures |rest| == |rows| - 1
    ensures forall i :: 0 <= i < r ==> rest[i] == rows[i]
    ensures forall i :: r <= i < |rest| ==> rest[i] == rows[i + 1]
  {
    rows[..r] + rows[r + 1..]
  }

  /**
   * The selection after row `row` was removed and `remaining` rows are left:
   * the row above the removed one, or the new first row when the first row
   * was removed. An emptied table has no selection (the selection model
   * drops the removed index by itself).
   */
  function SelectionAfterRemoval(row: nat, remaining: nat): (sel: int)
    requires row <= remaining
    ensures remaining == 0 <==> sel == -1
    ensures remaining > 0 ==> 0 <= sel < remaining
  {
    if remaining > 0 then (if row >= 1 then row - 1 else 0) else -1
  }

  /**
   * The row that ends up selected is the removed row's upper neighbour, or
   * its lower neighbour when the first row was removed.
   */
  lemma SelectionLandsOnNeighbour<T>(rows: seq<T>, r: nat)
    requires r < |rows| && |rows| > 1
    ensures var sel := SelectionAfterRemoval(r, |rows| - 1);
      0 <= sel < |RemoveAt(rows, r)| &&
      RemoveAt(rows, r)[sel] == (if r >= 1 then rows[r - 1] else rows[1])
  {
  }
}
