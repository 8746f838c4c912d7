/** A drag in the example application: DDTableView's change handler asks the data source to move
    the picked-up row and then moves the row on the table itself. The table's rows and the data
    source's rows are followed side by side. */
module ExampleDrag {
  import opened Tables
  import opened DragDropKit
  import Example

  /** Which moveRowAt the data source runs: the example's as written, or the reinserting one. */
  datatype DataSource = AsWritten | Reinserting

  function DataSourceMove(source: DataSource, data: Rows<string>, from: IndexPath, to: IndexPath): (r: Rows<string>)
    requires MoveFits(data, from, to)
    ensures |r| == |data|
    ensures forall k :: 0 <= k < |r| ==> |r[k]| == RowsAfterMove(|data[k]|, k, from, to)
    ensures OnTable(r, to) && At(r, to) == At(data, from)
  {
    match source
    case AsWritten => Example.MovedAsWritten(data, from, to)
    case Reinserting => MovedOnTable(data, from, to)
  }

  /** The drag state, the rows the table shows, and the rows the data source holds. */
  datatype Session = Session(drag: DragState, table: Rows<string>, data: Rows<string>)

  /** The data source has the table's shape, and a picked-up row is a row of the table. */
  predicate Fits(ses: Session) {
    SameShape(ses.table, ses.data) && (Dragging(ses.drag) ==> OnTable(ses.table, ses.drag.source.value))
  }

  /** One change callback. The row under the touch comes from the table, so a hit naming no row
      of the current table cannot occur and is read as no row. */
  function ChangeStep(ses: Session, s: Sample, source: DataSource): (r: Session)
    requires Fits(ses)
    ensures Fits(r)
    ensures Dragging(r.drag) == Dragging(ses.drag)
    ensures Dragging(ses.drag) ==>
      At(r.table, r.drag.source.value) == At(ses.table, ses.drag.source.value)
      && At(r.data, r.drag.source.value) == At(ses.data, ses.drag.source.value)
    ensures source.Reinserting? && ses.table == ses.data ==> r.table == r.data
  {
    var hit := if s.hitRow.Some? && OnTable(ses.table, s.hitRow.value) then s.hitRow else None;
    var (drag, effect) := Change(ses.drag, s.(hitRow := hit));
    if effect.MoveRow? then
      MovesKeepShape(ses.table, ses.data, effect.from, effect.to, source);
      Session(drag, MovedOnTable(ses.table, effect.from, effect.to), DataSourceMove(source, ses.data, effect.from, effect.to))
    else
      ses.(drag := drag)
  }

  /** A move the table can make the data source can make too, and both leave tables of one shape. */
  lemma MovesKeepShape(table: Rows<string>, data: Rows<string>, from: IndexPath, to: IndexPath, source: DataSource)
    requires SameShape(table, data) && MoveFits(table, from, to)
    ensures MoveFits(data, from, to)
    ensures SameShape(MovedOnTable(table, from, to), DataSourceMove(source, data, from, to))
  {
    var moved, data' := MovedOnTable(table, from, to), DataSourceMove(source, data, from, to);
    forall k | 0 <= k < |moved| ensures |moved[k]| == |data'[k]| {
      assert |table[k]| == |data[k]|;
    }
  }

  /** A sequence of change callbacks. */
  function ChangeRun(ses: Session, samples: seq<Sample>, source: DataSource): (r: Session)
    requires Fits(ses)
    ensures Fits(r)
    decreases |samples|
  {
    if samples == [] then ses else ChangeRun(ChangeStep(ses, samples[0], source), samples[1..], source)
  }

  /** Whichever data source runs, the row `sourceIndexPath` names holds, in the table and in the
      data source, the row that was picked up: every move asked for carries it along. */
  lemma {:induction false} PickedRowFollowsSource(ses: Session, samples: seq<Sample>, source: DataSource)
    requires Fits(ses) && Dragging(ses.drag)
    ensures var r := ChangeRun(ses, samples, source);
      && Dragging(r.drag)
      && At(r.table, r.drag.source.value) == At(ses.table, ses.drag.source.value)
      && At(r.data, r.drag.source.value) == At(ses.data, ses.drag.source.value)
    decreases |samples|
  {
    if samples != [] {
      PickedRowFollowsSource(ChangeStep(ses, samples[0], source), samples[1..], source);
    }
  }

  /** With the reinserting data source, the data source's rows stay exactly the rows the table
      shows, however the drag goes. */
  lemma {:induction false} ReinsertingAgreesWithTable(ses: Session, samples: seq<Sample>)
    requires Fits(ses) && ses.table == ses.data
    ensures ChangeRun(ses, samples, Reinserting).table == ChangeRun(ses, samples, Reinserting).data
    decreases |samples|
  {
    if samples != [] {
      ReinsertingAgreesWithTable(ChangeStep(ses, samples[0], Reinserting), samples[1..]);
    }
  }

  /** The example's moveRowAt agrees with the table's move whenever the row moves to another
      section or to a neighbouring row; in a section of distinct letters it disagrees whenever
      the row jumps further within its section. */
  lemma AsWrittenAgreesWithTableIffAdjacent(data: Rows<string>, from: IndexPath, to: IndexPath)
    requires MoveFits(data, from, to)
    ensures from.section != to.section || (from.row <= to.row + 1 && to.row <= from.row + 1) ==>
      Example.MovedAsWritten(data, from, to) == MovedOnTable(data, from, to)
    ensures Example.Distinct(data[from.section]) && Example.MovedAsWritten(data, from, to) == MovedOnTable(data, from, to) ==>
      from.section != to.section || (from.row <= to.row + 1 && to.row <= from.row + 1)
  {
    var written, moved := Example.MovedAsWritten(data, from, to), MovedOnTable(data, from, to);
    if from.section == to.section {
      Example.SwapIsRelocationIffAdjacent(data[from.section], from.row, to.row);
      assert written[from.section] == Example.Swapped(data[from.section], from.row, to.row);
      assert moved == data[from.section := Relocated(data[from.section], from.row, to.row)];
      if written == moved {
        assert written[from.section] == moved[from.section];
      }
    }
  }

  /** A drag whose one change jumps from row 0 to row 2 of a section holding a, b, c: the table
      shows b, c, a while the example's data source holds c, b, a. */
  lemma SwapDivergesFromTable()
    ensures var picked := DragState(true, Some(IndexPath(0, 0)), Some(IndexPath(0, 0)), true, true);
      var jump := Sample(Some(IndexPath(0, 2)), true, true, None, true, true);
      var r := ChangeRun(Session(picked, [["a", "b", "c"]], [["a", "b", "c"]]), [jump], AsWritten);
      r.table == [["b", "c", "a"]] && r.data == [["c", "b", "a"]]
  {
    var picked := DragState(true, Some(IndexPath(0, 0)), Some(IndexPath(0, 0)), true, true);
    var jump := Sample(Some(IndexPath(0, 2)), true, true, None, true, true);
    var ses := Session(picked, [["a", "b", "c"]], [["a", "b", "c"]]);
    var from, to := IndexPath(0, 0), IndexPath(0, 2);
    assert OnTable(ses.table, to);
    assert jump.(hitRow := jump.hitRow) == jump;
    assert Change(picked, jump).1 == MoveRow(from, to);
    TableJump();
    DataSourceJump();
    var step := ChangeStep(ses, jump, AsWritten);
    assert step.table == [["b", "c", "a"]] && step.data == [["c", "b", "a"]];
    assert ChangeRun(ses, [jump], AsWritten) == ChangeRun(step, [], AsWritten);
  }

  lemma TableJump()
    ensures MoveFits([["a", "b", "c"]], IndexPath(0, 0), IndexPath(0, 2))
    ensures MovedOnTable([["a", "b", "c"]], IndexPath(0, 0), IndexPath(0, 2)) == [["b", "c", "a"]]
  {
    assert Removed(["a", "b", "c"], 0) == ["b", "c"];
    assert Inserted(["b", "c"], 2, "a") == ["b", "c", "a"];
    assert Relocated(["a", "b", "c"], 0, 2) == ["b", "c", "a"];
  }

  lemma DataSourceJump()
    ensures MoveFits([["a", "b", "c"]], IndexPath(0, 0), IndexPath(0, 2))
    ensures DataSourceMove(AsWritten, [["a", "b", "c"]], IndexPath(0, 0), IndexPath(0, 2)) == [["c", "b", "a"]]
  {
    assert Example.Swapped(["a", "b", "c"], 0, 2) == ["c", "b", "a"];
  }
}
