/** The example application's data source: a table of letters, one array per section, that it
    rearranges when the table view asks it to move a row. */
module Example {
  import opened Tables

  /** Two positions of one section exchanged, as the same-section branch of moveRowAt does it. */
  function Swapped<T>(s: seq<T>, i: nat, j: nat): (r: seq<T>)
    requires i < |s| && j < |s|
    ensures |r| == |s| && r[i] == s[j] && r[j] == s[i]
    ensures forall k :: 0 <= k < |s| && k != i && k != j ==> r[k] == s[k]
    ensures multiset(r) == multiset(s)
  {
    s[i := s[j]][j := s[i]]
  }

  /** The rows after moveRowAt as written: within a section the two rows are exchanged, across
      sections the row is taken out of its section and put into the other. */
  function MovedAsWritten(data: Rows<string>, from: IndexPath, to: IndexPath): (r: Rows<string>)
    requires MoveFits(data, from, to)
    ensures |r| == |data|
    ensures forall k :: 0 <= k < |r| ==> |r[k]| == RowsAfterMove(|data[k]|, k, from, to)
    ensures OnTable(r, to) && At(r, to) == At(data, from)
    ensures forall k :: 0 <= k < |data| && k != from.section && k != to.section ==> r[k] == data[k]
    ensures from.section == to.section ==>
      r[from.section] == Swapped(data[from.section], from.row, to.row) && At(r, from) == At(data, to)
    ensures from.section != to.section ==>
      r[from.section] == Removed(data[from.section], from.row)
      && r[to.section] == Inserted(data[to.section], to.row, At(data, from))
  {
    if from.section == to.section then
      data[from.section := Swapped(data[from.section], from.row, to.row)]
    else
      data[from.section := Removed(data[from.section], from.row)]
          [to.section := Inserted(data[to.section], to.row, At(data, from))]
  }

  /** Moving a row within its section keeps the section's length and its letters; across
      sections the source section loses one row and the destination gains it; in every case no
      letter is lost or duplicated. */
  lemma MoveAsWrittenConserves(data: Rows<string>, from: IndexPath, to: IndexPath)
    requires MoveFits(data, from, to)
    ensures var r := MovedAsWritten(data, from, to);
      && (from.section == to.section ==>
            |r[from.section]| == |data[from.section]| && multiset(r[from.section]) == multiset(data[from.section]))
      && (from.section != to.section ==>
            |r[from.section]| == |data[from.section]| - 1 && |r[to.section]| == |data[to.section]| + 1)
      && multiset(Flatten(r)) == multiset(Flatten(data))
      && |Flatten(r)| == |Flatten(data)|
  {
    var r := MovedAsWritten(data, from, to);
    if from.section == to.section {
      var swapped := Swapped(data[from.section], from.row, to.row);
      FlattenUpdate(data, from.section, swapped);
      MultisetCancel(multiset(Flatten(r)), multiset(Flatten(data)), multiset(swapped));
    } else {
      TwoSectionsConserve(data, from.section, r[from.section], to.section, r[to.section]);
    }
    assert |multiset(Flatten(r))| == |multiset(Flatten(data))|;
  }

  /** Moving the row back undoes a move; within one section the same move done twice undoes
      itself, and moving a row onto itself changes nothing. */
  lemma MoveAsWrittenUndone(data: Rows<string>, from: IndexPath, to: IndexPath)
    requires MoveFits(data, from, to)
    ensures MoveFits(MovedAsWritten(data, from, to), to, from)
    ensures MovedAsWritten(MovedAsWritten(data, from, to), to, from) == data
    ensures from.section == to.section ==> MovedAsWritten(MovedAsWritten(data, from, to), from, to) == data
    ensures MovedAsWritten(data, from, from) == data
  {
    if from.section == to.section {
      SameSectionMoveUndone(data, from, to);
    } else {
      CrossMoveUndone(data, from, to);
    }
    var s := data[from.section];
    assert Swapped(s, from.row, from.row) == s;
    assert MovedAsWritten(data, from, from) == data[from.section := s];
  }

  lemma SameSectionMoveUndone(data: Rows<string>, from: IndexPath, to: IndexPath)
    requires MoveFits(data, from, to) && from.section == to.section
    ensures MoveFits(MovedAsWritten(data, from, to), to, from)
    ensures MovedAsWritten(MovedAsWritten(data, from, to), to, from) == data
    ensures MovedAsWritten(MovedAsWritten(data, from, to), from, to) == data
  {
    var s := data[from.section];
    var swapped := Swapped(s, from.row, to.row);
    var r := MovedAsWritten(data, from, to);
    assert r == data[from.section := swapped];
    assert Swapped(swapped, to.row, from.row) == s;
    assert Swapped(swapped, from.row, to.row) == s;
    assert MovedAsWritten(r, to, from) == r[from.section := s];
    assert MovedAsWritten(r, from, to) == r[from.section := s];
  }

  lemma CrossMoveUndone(data: Rows<string>, from: IndexPath, to: IndexPath)
    requires MoveFits(data, from, to) && from.section != to.section
    ensures MoveFits(MovedAsWritten(data, from, to), to, from)
    ensures MovedAsWritten(MovedAsWritten(data, from, to), to, from) == data
  {
    var value := At(data, from);
    var removed := Removed(data[from.section], from.row);
    var inserted := Inserted(data[to.section], to.row, value);
    var r := MovedAsWritten(data, from, to);
    assert r == data[from.section := removed][to.section := inserted];
    InsertedRemoved(data[from.section], from.row);
    RemovedInserted(data[to.section], to.row, value);
    assert Removed(inserted, to.row) == data[to.section];
    assert Inserted(removed, from.row, value) == data[from.section];
    assert MovedAsWritten(r, to, from) == r[to.section := data[to.section]][from.section := data[from.section]];
  }

  /** No two positions of `s` hold the same value. */
  predicate Distinct<T(==)>(s: seq<T>) {
    forall i, j :: 0 <= i < j < |s| ==> s[i] != s[j]
  }

  /** Exchanging two rows is what taking one out and putting it in at the other's place does
      exactly when the rows are neighbours (or the same row); in a section of distinct letters
      any wider exchange gives a different order. */
  lemma SwapIsRelocationIffAdjacent<T>(s: seq<T>, i: nat, j: nat)
    requires i < |s| && j < |s|
    ensures i <= j + 1 && j <= i + 1 ==> Swapped(s, i, j) == Relocated(s, i, j)
    ensures Distinct(s) && Swapped(s, i, j) == Relocated(s, i, j) ==> i <= j + 1 && j <= i + 1
  {
    var swapped, relocated := Swapped(s, i, j), Relocated(s, i, j);
    var removed := Removed(s, i);
    if i <= j + 1 && j <= i + 1 {
      forall k | 0 <= k < |s| ensures swapped[k] == relocated[k] {
        if k < i && k < j {
          assert relocated[k] == removed[k];
        } else if k > i && k > j {
          assert relocated[k] == removed[k - 1];
        }
      }
      assert swapped == relocated;
    } else if Distinct(s) {
      if i < j {
        assert relocated[i + 1] == removed[i + 1] == s[i + 2];
        assert swapped[i + 1] == s[i + 1];
      } else {
        assert relocated[j + 1] == removed[j] == s[j];
        assert swapped[j + 1] == s[j + 1];
      }
    }
  }

  /** The example's rows before any move. */
  const Letters: Rows<string> := [
    ["a", "b", "c", "d", "e"],
    ["f", "g", "h", "i", "j", "k", "l", "m", "n"],
    ["o", "p", "q"],
    ["r", "s", "t"],
    ["u", "v", "w", "x", "y", "z"]
  ]

  /** The example's view controller, reduced to the data source it implements. */
  class ViewController {
    var dataArray: Rows<string>

    constructor ()
      ensures dataArray == []
    {
      dataArray := [];
    }

    method ViewDidLoad()
      modifies this
      ensures dataArray == Letters
      ensures NumberOfSections() == 5 && |Flatten(dataArray)| == 26
    {
      dataArray := Letters;
      assert Flatten(dataArray) == Letters[0] + Flatten(Letters[1..]);
      assert Flatten(Letters[4..]) == Letters[4] + Flatten(Letters[5..]);
    }

    /** numberOfSections(in:): every row the table may ask about lies in one of these sections. */
    function NumberOfSections(): (n: nat)
      reads this
      ensures forall p :: OnTable(dataArray, p) ==> p.section < n
      ensures n == |dataArray|
    {
      |dataArray|
    }

    /** tableView(_:numberOfRowsInSection:): the rows of the section are exactly those below the count. */
    function NumberOfRowsInSection(section: nat): (n: nat)
      reads this
      requires section < |dataArray|
      ensures forall row: nat :: OnTable(dataArray, IndexPath(section, row)) <==> row < n
    {
      |dataArray[section]|
    }

    /** tableView(_:moveRowAt:to:) as written. */
    method MoveRowAt(sourceIndexPath: IndexPath, destinationIndexPath: IndexPath)
      requires MoveFits(dataArray, sourceIndexPath, destinationIndexPath)
      modifies this
      ensures dataArray == MovedAsWritten(old(dataArray), sourceIndexPath, destinationIndexPath)
      ensures NumberOfSections() == old(NumberOfSections())
    {
      var sourceSection := sourceIndexPath.section;
      var sourceRow := sourceIndexPath.row;
      var destinationSection := destinationIndexPath.section;
      var destinationRow := destinationIndexPath.row;
      if sourceSection == destinationSection {
        var sourceValue := dataArray[sourceSection][sourceRow];
        dataArray := dataArray[sourceSection := dataArray[sourceSection][sourceRow := dataArray[destinationSection][destinationRow]]];
        dataArray := dataArray[destinationSection := dataArray[destinationSection][destinationRow := sourceValue]];
      } else {
        var sourceValue := dataArray[sourceSection][sourceRow];
        dataArray := dataArray[sourceSection := Removed(dataArray[sourceSection], sourceRow)];
        dataArray := dataArray[destinationSection := Inserted(dataArray[destinationSection], destinationRow, sourceValue)];
      }
    }

    /** tableView(_:moveRowAt:to:) with the same-section branch doing what the other branch does:
        take the row out, then put it in at the destination. The rows then follow the table's own
        move in every case. */
    method MoveRowAtReinserting(sourceIndexPath: IndexPath, destinationIndexPath: IndexPath)
      requires MoveFits(dataArray, sourceIndexPath, destinationIndexPath)
      modifies this
      ensures dataArray == MovedOnTable(old(dataArray), sourceIndexPath, destinationIndexPath)
      ensures NumberOfSections() == old(NumberOfSections())
    {
      var sourceSection := sourceIndexPath.section;
      var destinationSection := destinationIndexPath.section;
      var sourceValue := dataArray[sourceSection][sourceIndexPath.row];
      dataArray := dataArray[sourceSection := Removed(dataArray[sourceSection], sourceIndexPath.row)];
      dataArray := dataArray[destinationSection := Inserted(dataArray[destinationSection], destinationIndexPath.row, sourceValue)];
    }
  }
}
