/** Index paths into a sectioned table, and the row moves a table performs on its rows. */
module Tables {

  datatype Option<T> = None | Some(value: T)

  /** A row position in a sectioned table: Foundation's IndexPath with a section and a row. */
  datatype IndexPath = IndexPath(section: nat, row: nat)

  /** The rows of a sectioned table, one sequence per section. */
  type Rows<T> = seq<seq<T>>

  /** `p` names an existing row of `rows`. */
  predicate OnTable<T>(rows: Rows<T>, p: IndexPath) {
    p.section < |rows| && p.row < |rows[p.section]|
  }

  function At<T>(rows: Rows<T>, p: IndexPath): T
    requires OnTable(rows, p)
  {
    rows[p.section][p.row]
  }

  /** A move from `from` to `to` can be carried out: `from` is a row, and `to` is a position of
      the rows after the move, that is a row of the same section, or any position up to one past
      the end of another section. */
  predicate MoveFits<T>(rows: Rows<T>, from: IndexPath, to: IndexPath) {
    && OnTable(rows, from)
    && to.section < |rows|
    && if from.section == to.section then to.row < |rows[to.section]| else to.row <= |rows[to.section]|
  }

  /** Two tables have the same number of sections and the same number of rows in each. */
  predicate SameShape<T>(a: Rows<T>, b: Rows<T>) {
    |a| == |b| && forall k :: 0 <= k < |a| ==> |a[k]| == |b[k]|
  }

  /** Swift's `remove(at: i)` on an array. */
  function Removed<T>(s: seq<T>, i: nat): (r: seq<T>)
    requires i < |s|
    ensures |r| == |s| - 1
    ensures forall k :: 0 <= k < i ==> r[k] == s[k]
    ensures forall k :: i <= k < |r| ==> r[k] == s[k + 1]
    ensures multiset(r) + multiset{s[i]} == multiset(s)
  {
    assert s == s[..i] + [s[i]] + s[i + 1..];
    s[..i] + s[i + 1..]
  }

  /** Swift's `insert(x, at: i)` on an array. */
  function Inserted<T>(s: seq<T>, i: nat, x: T): (r: seq<T>)
    requires i <= |s|
    ensures |r| == |s| + 1
    ensures r[i] == x
    ensures forall k :: 0 <= k < i ==> r[k] == s[k]
    ensures forall k :: i < k < |r| ==> r[k] == s[k - 1]
    ensures multiset(r) == multiset(s) + multiset{x}
  {
    assert s == s[..i] + s[i..];
    s[..i] + [x] + s[i..]
  }

  lemma RemovedInserted<T>(s: seq<T>, i: nat, x: T)
    requires i <= |s|
    ensures Removed(Inserted(s, i, x), i) == s
  {
  }

  lemma InsertedRemoved<T>(s: seq<T>, i: nat)
    requires i < |s|
    ensures Inserted(Removed(s, i), i, s[i]) == s
  {
  }

  /** A row taken out at `i` and put back in at `j` within one section. */
  function Relocated<T>(s: seq<T>, i: nat, j: nat): (r: seq<T>)
    requires i < |s| && j < |s|
    ensures |r| == |s| && r[j] == s[i]
    ensures Removed(r, j) == Removed(s, i)
    ensures multiset(r) == multiset(s)
  {
    RemovedInserted(Removed(s, i), j, s[i]);
    Inserted(Removed(s, i), j, s[i])
  }

  /** Taking the row back to where it came from restores the section. */
  lemma RelocatedBack<T>(s: seq<T>, i: nat, j: nat)
    requires i < |s| && j < |s|
    ensures Relocated(Relocated(s, i, j), j, i) == s
  {
    var r := Relocated(s, i, j);
    InsertedRemoved(s, i);
    assert Relocated(r, j, i) == Inserted(Removed(s, i), i, s[i]);
  }

  /** The number of rows section `k` holds after a row moves from `from` to `to`, given the
      number it held before. */
  function RowsAfterMove(count: nat, k: nat, from: IndexPath, to: IndexPath): int {
    count + (if k == to.section then 1 else 0) - (if k == from.section then 1 else 0)
  }

  /** What a table does to its own rows on `moveRow(at: from, to: to)`: the row is taken out of
      its section and put in at `to`, the other rows keep their order. */
  function MovedOnTable<T>(rows: Rows<T>, from: IndexPath, to: IndexPath): (r: Rows<T>)
    requires MoveFits(rows, from, to)
    ensures |r| == |rows|
    ensures forall k :: 0 <= k < |r| ==> |r[k]| == RowsAfterMove(|rows[k]|, k, from, to)
    ensures OnTable(r, to) && At(r, to) == At(rows, from)
    ensures Removed(r[to.section], to.row) == if from.section == to.section
      then Removed(rows[from.section], from.row) else rows[to.section]
    ensures from.section != to.section ==> r[from.section] == Removed(rows[from.section], from.row)
    ensures forall k :: 0 <= k < |rows| && k != from.section && k != to.section ==> r[k] == rows[k]
  {
    var value := At(rows, from);
    if from.section == to.section then
      rows[from.section := Relocated(rows[from.section], from.row, to.row)]
    else
      RemovedInserted(rows[to.section], to.row, value);
      rows[from.section := Removed(rows[from.section], from.row)]
          [to.section := Inserted(rows[to.section], to.row, value)]
  }

  /** Moving the row back restores the table. */
  lemma MovedOnTableBack<T>(rows: Rows<T>, from: IndexPath, to: IndexPath)
    requires MoveFits(rows, from, to)
    ensures MoveFits(MovedOnTable(rows, from, to), to, from)
    ensures MovedOnTable(MovedOnTable(rows, from, to), to, from) == rows
  {
    var r := MovedOnTable(rows, from, to);
    if from.section == to.section {
      RelocatedBack(rows[from.section], from.row, to.row);
      assert r[to.section] == Relocated(rows[from.section], from.row, to.row);
      assert MovedOnTable(r, to, from) == rows;
    } else {
      InsertedRemoved(rows[from.section], from.row);
      RemovedInserted(rows[to.section], to.row, At(rows, from));
      assert MovedOnTable(r, to, from) == rows;
    }
  }

  /** All rows of the table, section after section. */
  function Flatten<T>(rows: Rows<T>): seq<T> {
    if rows == [] then [] else rows[0] + Flatten(rows[1..])
  }

  /** Replacing one section changes the table's rows by exactly that section's rows. */
  lemma {:induction false} FlattenUpdate<T>(rows: Rows<T>, k: nat, s: seq<T>)
    requires k < |rows|
    ensures multiset(Flatten(rows[k := s])) + multiset(rows[k]) == multiset(Flatten(rows)) + multiset(s)
  {
    if k == 0 {
      assert rows[k := s][1..] == rows[1..];
    } else {
      var updated := rows[k := s];
      FlattenUpdate(rows[1..], k - 1, s);
      assert updated[1..] == rows[1..][k - 1 := s];
      assert Flatten(updated) == rows[0] + Flatten(updated[1..]);
      assert Flatten(rows) == rows[0] + Flatten(rows[1..]);
      assert rows[k] == rows[1..][k - 1];
      calc {
        multiset(Flatten(updated)) + multiset(rows[k]);
        multiset(rows[0]) + (multiset(Flatten(updated[1..])) + multiset(rows[1..][k - 1]));
        multiset(rows[0]) + (multiset(Flatten(rows[1..])) + multiset(s));
        multiset(Flatten(rows)) + multiset(s);
      }
    }
  }

  /** A table move keeps every row: the same multiset of rows, hence the same number of rows. */
  lemma MovedOnTableConserves<T>(rows: Rows<T>, from: IndexPath, to: IndexPath)
    requires MoveFits(rows, from, to)
    ensures multiset(Flatten(MovedOnTable(rows, from, to))) == multiset(Flatten(rows))
    ensures |Flatten(MovedOnTable(rows, from, to))| == |Flatten(rows)|
  {
    var r := MovedOnTable(rows, from, to);
    if from.section == to.section {
      var relocated := Relocated(rows[from.section], from.row, to.row);
      assert r == rows[from.section := relocated];
      FlattenUpdate(rows, from.section, relocated);
      MultisetCancel(multiset(Flatten(r)), multiset(Flatten(rows)), multiset(relocated));
    } else {
      var removed := Removed(rows[from.section], from.row);
      var inserted := Inserted(rows[to.section], to.row, At(rows, from));
      assert r == rows[from.section := removed][to.section := inserted];
      TwoSectionsConserve(rows, from.section, removed, to.section, inserted);
    }
    assert |multiset(Flatten(r))| == |multiset(Flatten(rows))|;
  }

  lemma MultisetCancel<T>(x: multiset<T>, y: multiset<T>, c: multiset<T>)
    requires x + c == y + c
    ensures x == y
  {
    forall e ensures x[e] == y[e] {
      assert (x + c)[e] == (y + c)[e];
    }
  }

  /** Replacing two different sections by sections holding, together, the same rows keeps the
      table's rows. */
  lemma TwoSectionsConserve<T>(rows: Rows<T>, i: nat, a: seq<T>, j: nat, b: seq<T>)
    requires i < |rows| && j < |rows| && i != j
    requires multiset(a) + multiset(b) == multiset(rows[i]) + multiset(rows[j])
    ensures multiset(Flatten(rows[i := a][j := b])) == multiset(Flatten(rows))
  {
    var mid := rows[i := a];
    FlattenUpdate(rows, i, a);
    FlattenUpdate(mid, j, b);
    assert mid[j] == rows[j];
    calc {
      multiset(Flatten(mid[j := b])) + (multiset(rows[j]) + multiset(rows[i]));
      (multiset(Flatten(mid[j := b])) + multiset(mid[j])) + multiset(rows[i]);
      (multiset(Flatten(mid)) + multiset(rows[i])) + multiset(b);
      multiset(Flatten(rows)) + (multiset(a) + multiset(b));
      multiset(Flatten(rows)) + (multiset(rows[j]) + multiset(rows[i]));
    }
    MultisetCancel(multiset(Flatten(mid[j := b])), multiset(Flatten(rows)), multiset(rows[j]) + multiset(rows[i]));
  }
}
