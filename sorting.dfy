/** The two orderings pandas performs for the service: `sort_values` (a
    sort of rows by one key) and the sorted distinct keys of a `groupby`. */
module Sorting {
  import opened Cells

  /** Every element's key may come before every later element's key. */
  ghost predicate SortedBy<T>(xs: seq<T>, key: T -> Cell, ascending: bool)
  {
    forall i, j :: 0 <= i < j < |xs| ==> KeyLe(ascending, key(xs[i]), key(xs[j]))
  }

  function InsertBy<T>(x: T, xs: seq<T>, key: T -> Cell, ascending: bool): seq<T>
  {
    if |xs| == 0 then [x]
    else if KeyLe(ascending, key(x), key(xs[0])) then [x] + xs
    else [xs[0]] + InsertBy(x, xs[1..], key, ascending)
  }

  /** `sort_values(by=key, ascending=ascending)`.  pandas does not promise
      which of two equal keys comes first; this model inserts one by one. */
  function SortBy<T>(xs: seq<T>, key: T -> Cell, ascending: bool): seq<T>
  {
    if |xs| == 0 then [] else InsertBy(xs[0], SortBy(xs[1..], key, ascending), key, ascending)
  }

  lemma {:induction false} InsertByPermutes<T>(x: T, xs: seq<T>, key: T -> Cell, ascending: bool)
    ensures multiset(InsertBy(x, xs, key, ascending)) == multiset(xs) + multiset{x}
    decreases |xs|
  {
    if |xs| > 0 {
      InsertByPermutes(x, xs[1..], key, ascending);
      assert xs == [xs[0]] + xs[1..];
    }
  }

  lemma {:induction false} InsertBySorts<T>(x: T, xs: seq<T>, key: T -> Cell, ascending: bool)
    requires SortedBy(xs, key, ascending)
    ensures SortedBy(InsertBy(x, xs, key, ascending), key, ascending)
    decreases |xs|
  {
    if |xs| == 0 {
    } else if KeyLe(ascending, key(x), key(xs[0])) {
      var r := [x] + xs;
      forall i, j | 0 <= i < j < |r|
        ensures KeyLe(ascending, key(r[i]), key(r[j]))
      {
        if i == 0 && j > 1 {
          KeyLeTransitive(ascending, key(x), key(xs[0]), key(xs[j - 1]));
        }
      }
    } else {
      KeyLeTotal(ascending, key(x), key(xs[0]));
      var rest := InsertBy(x, xs[1..], key, ascending);
      InsertBySorts(x, xs[1..], key, ascending);
      InsertByPermutes(x, xs[1..], key, ascending);
      forall j | 0 <= j < |rest|
        ensures KeyLe(ascending, key(xs[0]), key(rest[j]))
      {
        assert rest[j] in multiset(rest);
        if rest[j] != x {
          assert rest[j] in multiset(xs[1..]);
          var m :| 0 <= m < |xs[1..]| && xs[1..][m] == rest[j];
          assert xs[m + 1] == rest[j];
        }
      }
      assert InsertBy(x, xs, key, ascending) == [xs[0]] + rest;
    }
  }

  /** `sort_values` gives back the same elements, ordered by their keys. */
  lemma {:induction false} SortBySorts<T>(xs: seq<T>, key: T -> Cell, ascending: bool)
    ensures multiset(SortBy(xs, key, ascending)) == multiset(xs)
    ensures |SortBy(xs, key, ascending)| == |xs|
    ensures SortedBy(SortBy(xs, key, ascending), key, ascending)
    decreases |xs|
  {
    if |xs| > 0 {
      SortBySorts(xs[1..], key, ascending);
      InsertBySorts(xs[0], SortBy(xs[1..], key, ascending), key, ascending);
      InsertByPermutes(xs[0], SortBy(xs[1..], key, ascending), key, ascending);
      assert xs == [xs[0]] + xs[1..];
    }
    assert |multiset(SortBy(xs, key, ascending))| == |multiset(xs)|;
  }

  // ---------------------------------------------------------------------
  // groupby keys
  // ---------------------------------------------------------------------

  /** Strictly ascending: sorted and no key twice. */
  ghost predicate StrictlyAscending(ks: seq<Cell>)
  {
    forall i, j :: 0 <= i < j < |ks| ==> CellLe(ks[i], ks[j]) && ks[i] != ks[j]
  }

  function InsertKey(c: Cell, ks: seq<Cell>): seq<Cell>
  {
    if |ks| == 0 then [c]
    else if c == ks[0] then ks
    else if CellLe(c, ks[0]) then [c] + ks
    else [ks[0]] + InsertKey(c, ks[1..])
  }

  /** The keys `groupby(column)` forms, in the order it emits them: each
      value present in the column once, missing cells dropped (dropna=True),
      ascending (sort=True). */
  function GroupKeys(cells: seq<Cell>): seq<Cell>
    decreases |cells|
  {
    if |cells| == 0 then []
    else
      var ks := GroupKeys(cells[..|cells| - 1]);
      var c := cells[|cells| - 1];
      if c.Missing? then ks else InsertKey(c, ks)
  }

  lemma {:induction false} InsertKeyKeepsOrder(c: Cell, ks: seq<Cell>)
    requires StrictlyAscending(ks)
    ensures StrictlyAscending(InsertKey(c, ks))
    ensures forall d :: d in InsertKey(c, ks) <==> d == c || d in ks
    decreases |ks|
  {
    if |ks| == 0 {
    } else if c == ks[0] {
    } else if CellLe(c, ks[0]) {
      var r := [c] + ks;
      forall i, j | 0 <= i < j < |r|
        ensures CellLe(r[i], r[j]) && r[i] != r[j]
      {
        if i == 0 && j > 1 {
          CellLeTransitive(c, ks[0], ks[j - 1]);
          if c == ks[j - 1] {
            CellLeAntisymmetric(ks[0], c);
          }
        }
      }
    } else {
      CellLeTotal(c, ks[0]);
      InsertKeyKeepsOrder(c, ks[1..]);
      var rest := InsertKey(c, ks[1..]);
      forall j | 0 <= j < |rest|
        ensures CellLe(ks[0], rest[j]) && ks[0] != rest[j]
      {
        assert rest[j] in rest;
        if rest[j] != c {
          var m :| 0 <= m < |ks[1..]| && ks[1..][m] == rest[j];
          assert ks[m + 1] == rest[j];
        }
      }
      assert ks == [ks[0]] + ks[1..];
    }
  }

  /** groupby forms exactly one key per distinct present value, in
      ascending order. */
  lemma {:induction false} GroupKeysSpec(cells: seq<Cell>)
    ensures StrictlyAscending(GroupKeys(cells))
    ensures forall c :: c in GroupKeys(cells) <==> c in cells && !c.Missing?
    decreases |cells|
  {
    if |cells| > 0 {
      var init := cells[..|cells| - 1];
      GroupKeysSpec(init);
      if !cells[|cells| - 1].Missing? {
        InsertKeyKeepsOrder(cells[|cells| - 1], GroupKeys(init));
      }
      assert cells == init + [cells[|cells| - 1]];
    }
  }

  /** A sequence without repeats has as many elements as its set. */
  lemma {:induction false} DistinctCardinality<T>(xs: seq<T>)
    requires forall i, j :: 0 <= i < j < |xs| ==> xs[i] != xs[j]
    ensures |set x | x in xs| == |xs|
    decreases |xs|
  {
    if |xs| > 0 {
      var init := xs[..|xs| - 1];
      DistinctCardinality(init);
      var last := xs[|xs| - 1];
      assert last !in init;
      assert (set x | x in xs) == (set x | x in init) + {last};
    }
  }

  /** groupby forms as many groups as the column has distinct present values. */
  lemma GroupCount(cells: seq<Cell>)
    ensures |GroupKeys(cells)| == |set c | c in cells && !c.Missing?|
  {
    var ks := GroupKeys(cells);
    GroupKeysSpec(cells);
    DistinctCardinality(ks);
    assert (set c | c in ks) == (set c | c in cells && !c.Missing?);
  }
}
