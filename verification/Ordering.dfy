/** ORDER BY over a table: a stable sort of the rows by an integer key. */
module Ordering {

  function InsertBy<T>(rows: seq<T>, row: T, key: T -> int): seq<T> {
    if rows == [] || key(rows[|rows| - 1]) <= key(row) then rows + [row]
    else InsertBy(rows[..|rows| - 1], row, key) + [rows[|rows| - 1]]
  }

  function OrderBy<T>(rows: seq<T>, key: T -> int): seq<T> {
    if rows == [] then []
    else InsertBy(OrderBy(rows[..|rows| - 1], key), rows[|rows| - 1], key)
  }

  ghost predicate Sorted<T>(rows: seq<T>, key: T -> int) {
    forall i, j :: 0 <= i < j < |rows| ==> key(rows[i]) <= key(rows[j])
  }

  lemma {:induction false} InsertByPermutes<T>(rows: seq<T>, row: T, key: T -> int)
    ensures multiset(InsertBy(rows, row, key)) == multiset(rows) + multiset{row}
  {
    if rows != [] && key(rows[|rows| - 1]) > key(row) {
      InsertByPermutes(rows[..|rows| - 1], row, key);
      assert rows == rows[..|rows| - 1] + [rows[|rows| - 1]];
    }
  }

  lemma {:induction false} InsertBySorts<T>(rows: seq<T>, row: T, key: T -> int)
    requires Sorted(rows, key)
    ensures Sorted(InsertBy(rows, row, key), key)
  {
    if rows != [] && key(rows[|rows| - 1]) > key(row) {
      var init := rows[..|rows| - 1];
      InsertBySorts(init, row, key);
      InsertByPermutes(init, row, key);
      forall x | x in InsertBy(init, row, key)
        ensures key(x) <= key(rows[|rows| - 1])
      {
        assert x in multiset(InsertBy(init, row, key));
        assert x in multiset(init) || x == row;
      }
    }
  }

  lemma {:induction false} OrderByCorrect<T>(rows: seq<T>, key: T -> int)
    ensures multiset(OrderBy(rows, key)) == multiset(rows)
    ensures Sorted(OrderBy(rows, key), key)
  {
    if rows != [] {
      var init, last := rows[..|rows| - 1], rows[|rows| - 1];
      OrderByCorrect(init, key);
      InsertByPermutes(OrderBy(init, key), last, key);
      InsertBySorts(OrderBy(init, key), last, key);
      assert rows == init + [last];
    }
  }
}
