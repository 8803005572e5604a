/** The two row filters clean_data applies before it touches any cell:
    `drop_duplicates()` and `dropna()`. */
module RowFilters {
  import opened Cells
  import opened Frames

  /** `pos` picks, in increasing order, the positions of `rows` that `kept`
      consists of. */
  ghost predicate PicksAt<T>(kept: seq<T>, rows: seq<T>, pos: seq<nat>)
  {
    && |pos| == |kept|
    && (forall k :: 0 <= k < |pos| ==> pos[k] < |rows| && kept[k] == rows[pos[k]])
    && (forall k, l :: 0 <= k < l < |pos| ==> pos[k] < pos[l])
  }

  /** `kept` is `rows` with some elements left out and the rest in their
      original order. */
  ghost predicate IsSubsequence<T>(kept: seq<T>, rows: seq<T>)
  {
    exists pos :: PicksAt(kept, rows, pos)
  }

  ghost predicate NoDuplicates<T>(xs: seq<T>)
  {
    forall i, j :: 0 <= i < j < |xs| ==> xs[i] != xs[j]
  }

  /** No cell of the row is missing. */
  predicate Complete(row: Row)
  {
    forall i :: 0 <= i < |row| ==> !row[i].Missing?
  }

  /** `drop_duplicates()`: every row equal to an earlier row is dropped. */
  function DropDuplicates(rows: seq<Row>): (r: seq<Row>)
    ensures |r| <= |rows|
    decreases |rows|
  {
    if |rows| == 0 then []
    else
      var init := rows[..|rows| - 1];
      var last := rows[|rows| - 1];
      if last in init then DropDuplicates(init) else DropDuplicates(init) + [last]
  }

  /** `dropna()`: every row with a missing cell is dropped. */
  function DropNa(rows: seq<Row>): (r: seq<Row>)
    ensures |r| <= |rows|
    decreases |rows|
  {
    if |rows| == 0 then []
    else
      var init := rows[..|rows| - 1];
      var last := rows[|rows| - 1];
      if Complete(last) then DropNa(init) + [last] else DropNa(init)
  }

  lemma PicksInPrefix<T>(kept: seq<T>, rows: seq<T>, pos: seq<nat>, x: T)
    requires PicksAt(kept, rows, pos)
    ensures PicksAt(kept, rows + [x], pos)
    ensures PicksAt(kept + [x], rows + [x], pos + [|rows|])
  {
  }

  /** drop_duplicates keeps the first occurrence of each row: the positions
      it picks are exactly those whose row does not occur earlier. */
  lemma {:induction false} DropDuplicatesPicks(rows: seq<Row>) returns (pos: seq<nat>)
    ensures PicksAt(DropDuplicates(rows), rows, pos)
    ensures forall j :: 0 <= j < |rows| ==> (j in pos <==> rows[j] !in rows[..j])
    decreases |rows|
  {
    if |rows| == 0 {
      pos := [];
    } else {
      var n := |rows| - 1;
      var init := rows[..n];
      var last := rows[n];
      var p := DropDuplicatesPicks(init);
      PicksInPrefix(DropDuplicates(init), init, p, last);
      assert rows == init + [last];
      pos := if last in init then p else p + [n];
      forall j | 0 <= j < |rows|
        ensures j in pos <==> rows[j] !in rows[..j]
      {
        if j < n {
          assert rows[..j] == init[..j] && rows[j] == init[j];
          assert j in pos <==> j in p;
        } else {
          assert rows[..j] == init;
          assert n !in p by {
            forall k | 0 <= k < |p| ensures p[k] != n { }
          }
        }
      }
    }
  }

  /** drop_duplicates keeps, in order, the rows at exactly the positions
      whose row does not occur earlier. */
  lemma DropDuplicatesKeepsFirst(rows: seq<Row>)
    ensures exists pos ::
      && PicksAt(DropDuplicates(rows), rows, pos)
      && (forall j :: 0 <= j < |rows| ==> (j in pos <==> rows[j] !in rows[..j]))
  {
    var pos := DropDuplicatesPicks(rows);
  }

  /** drop_duplicates keeps one row of each value, in input order. */
  lemma {:induction false} DropDuplicatesDistinct(rows: seq<Row>)
    ensures IsSubsequence(DropDuplicates(rows), rows)
    ensures NoDuplicates(DropDuplicates(rows))
    ensures forall x :: x in DropDuplicates(rows) <==> x in rows
    decreases |rows|
  {
    assert IsSubsequence(DropDuplicates(rows), rows) by {
      var pos := DropDuplicatesPicks(rows);
    }
    if |rows| > 0 {
      var init := rows[..|rows| - 1];
      DropDuplicatesDistinct(init);
      assert rows == init + [rows[|rows| - 1]];
    }
  }

  /** dropna picks exactly the positions of the complete rows, in order. */
  lemma {:induction false} DropNaPicks(rows: seq<Row>) returns (pos: seq<nat>)
    ensures PicksAt(DropNa(rows), rows, pos)
    ensures forall j :: 0 <= j < |rows| ==> (j in pos <==> Complete(rows[j]))
    decreases |rows|
  {
    if |rows| == 0 {
      pos := [];
    } else {
      var n := |rows| - 1;
      var init := rows[..n];
      var last := rows[n];
      var p := DropNaPicks(init);
      PicksInPrefix(DropNa(init), init, p, last);
      assert rows == init + [last];
      pos := if Complete(last) then p + [n] else p;
      forall j | 0 <= j < |rows|
        ensures j in pos <==> Complete(rows[j])
      {
        if j < n {
          assert rows[j] == init[j];
          assert j in pos <==> j in p;
        } else {
          assert n !in p by {
            forall k | 0 <= k < |p| ensures p[k] != n { }
          }
        }
      }
    }
  }

  /** dropna keeps, in order, the rows at exactly the positions of the
      complete rows. */
  lemma DropNaKeepsComplete(rows: seq<Row>)
    ensures exists pos ::
      && PicksAt(DropNa(rows), rows, pos)
      && (forall j :: 0 <= j < |rows| ==> (j in pos <==> Complete(rows[j])))
  {
    var pos := DropNaPicks(rows);
  }

  /** dropna keeps the complete rows and only those, in their order. */
  lemma {:induction false} DropNaMembers(rows: seq<Row>)
    ensures IsSubsequence(DropNa(rows), rows)
    ensures forall x :: x in DropNa(rows) <==> x in rows && Complete(x)
    decreases |rows|
  {
    assert IsSubsequence(DropNa(rows), rows) by {
      var pos := DropNaPicks(rows);
    }
    if |rows| > 0 {
      var init := rows[..|rows| - 1];
      DropNaMembers(init);
      assert rows == init + [rows[|rows| - 1]];
    }
  }

  /** `drop_duplicates()`: an order-preserving subsequence without repeats
      that holds every distinct input row, keeping exactly the first
      occurrence of each. */
  lemma DropDuplicatesSpec(rows: seq<Row>)
    ensures IsSubsequence(DropDuplicates(rows), rows)
    ensures NoDuplicates(DropDuplicates(rows))
    ensures forall x :: x in DropDuplicates(rows) <==> x in rows
    ensures exists pos ::
      && PicksAt(DropDuplicates(rows), rows, pos)
      && (forall j :: 0 <= j < |rows| ==> (j in pos <==> rows[j] !in rows[..j]))
  {
    DropDuplicatesDistinct(rows);
    DropDuplicatesKeepsFirst(rows);
  }

  /** `dropna()`: the rows at exactly the positions of the complete rows,
      in order, so every complete row keeps its multiplicity. */
  lemma DropNaSpec(rows: seq<Row>)
    ensures IsSubsequence(DropNa(rows), rows)
    ensures forall x :: x in DropNa(rows) <==> x in rows && Complete(x)
    ensures exists pos ::
      && PicksAt(DropNa(rows), rows, pos)
      && (forall j :: 0 <= j < |rows| ==> (j in pos <==> Complete(rows[j])))
  {
    DropNaMembers(rows);
    DropNaKeepsComplete(rows);
  }

  /** Leaving out elements of a sequence without repeats leaves none. */
  lemma SubsequenceNoDuplicates<T>(kept: seq<T>, rows: seq<T>)
    requires IsSubsequence(kept, rows) && NoDuplicates(rows)
    ensures NoDuplicates(kept)
  {
    var pos :| PicksAt(kept, rows, pos);
    forall i, j | 0 <= i < j < |kept|
      ensures kept[i] != kept[j]
    {
      assert pos[i] < pos[j];
    }
  }

  lemma SubsequenceTransitive<T>(a: seq<T>, b: seq<T>, c: seq<T>)
    requires IsSubsequence(a, b) && IsSubsequence(b, c)
    ensures IsSubsequence(a, c)
  {
    var p :| PicksAt(a, b, p);
    var q :| PicksAt(b, c, q);
    var pq := seq(|p|, k requires 0 <= k < |p| => q[p[k]]);
    assert PicksAt(a, c, pq);
  }

  /** The rows clean_data keeps: duplicates dropped first, then incomplete rows. */
  function Kept(rows: seq<Row>): seq<Row>
  {
    DropNa(DropDuplicates(rows))
  }

  /** After the two filters no two rows are equal, no row has a missing cell,
      every complete row of the input is still represented, and the rows
      keep their original relative order. */
  lemma KeptSpec(rows: seq<Row>)
    ensures |Kept(rows)| <= |rows|
    ensures IsSubsequence(Kept(rows), rows)
    ensures NoDuplicates(Kept(rows))
    ensures forall x :: x in Kept(rows) <==> x in rows && Complete(x)
  {
    DropDuplicatesDistinct(rows);
    DropNaMembers(DropDuplicates(rows));
    SubsequenceNoDuplicates(Kept(rows), DropDuplicates(rows));
    SubsequenceTransitive(Kept(rows), DropDuplicates(rows), rows);
  }
}
