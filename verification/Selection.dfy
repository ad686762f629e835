/** Folding an unordered list of rows down to one representative, and sorted lists. */
module Selection {
  import opened Wrappers

  /** Incomparability is an equivalence, so "the least row" is well defined up to ties. */
  ghost predicate StrictWeakOrder<T(!new)>(less: (T, T) -> bool) {
    && (forall a, b :: less(a, b) ==> !less(b, a))
    && (forall a, b, c :: less(a, c) ==> less(a, b) || less(b, c))
  }

  ghost predicate Tied<T>(less: (T, T) -> bool, a: T, b: T) {
    !less(a, b) && !less(b, a)
  }

  /** Two listings of the same rows: any order, any repetition. */
  ghost predicate SameRows<T(!new)>(a: seq<T>, b: seq<T>) {
    forall row :: row in a <==> row in b
  }

  /** The loop `prev, found := ...; if !found || less(row, prev) { prev = row }` over the kept rows. */
  function Best<T>(rows: seq<T>, keep: T -> bool, less: (T, T) -> bool): (best: Option<T>)
    decreases |rows|
  {
    if rows == [] then None
    else
      var prev := Best(rows[..|rows| - 1], keep, less);
      var row := rows[|rows| - 1];
      if keep(row) && (prev.None? || less(row, prev.value)) then Some(row) else prev
  }

  /** One round of the loop. */
  lemma BestStep<T>(rows: seq<T>, i: nat, keep: T -> bool, less: (T, T) -> bool)
    requires i < |rows|
    ensures var prev := Best(rows[..i], keep, less);
            Best(rows[..i + 1], keep, less) ==
              if keep(rows[i]) && (prev.None? || less(rows[i], prev.value)) then Some(rows[i]) else prev
  {
    assert rows[..i + 1][..i] == rows[..i];
  }

  ghost predicate IsLeast<T(!new)>(p: T, rows: seq<T>, keep: T -> bool, less: (T, T) -> bool) {
    p in rows && keep(p) && forall row :: row in rows && keep(row) ==> !less(row, p)
  }

  lemma {:induction false} BestIsLeast<T(!new)>(rows: seq<T>, keep: T -> bool, less: (T, T) -> bool)
    requires StrictWeakOrder(less)
    ensures var best := Best(rows, keep, less);
            && (best.None? <==> forall row :: row in rows ==> !keep(row))
            && (best.Some? ==> IsLeast(best.value, rows, keep, less))
    decreases |rows|
  {
    if rows != [] {
      var front, row := rows[..|rows| - 1], rows[|rows| - 1];
      BestIsLeast(front, keep, less);
      assert rows == front + [row];
      var prev := Best(front, keep, less);
      var best := Best(rows, keep, less);
      if best.Some? {
        forall other | other in rows && keep(other)
          ensures !less(other, best.value)
        {
          assert other in front || other == row;
        }
      } else {
        assert forall other :: other in rows ==> other in front || other == row;
      }
    }
  }

  /** Ties keep the earlier row: every kept row before the chosen one is strictly worse. */
  lemma {:induction false} BestIsFirst<T(!new)>(rows: seq<T>, keep: T -> bool, less: (T, T) -> bool) returns (at: nat)
    requires StrictWeakOrder(less)
    requires Best(rows, keep, less).Some?
    ensures at < |rows| && rows[at] == Best(rows, keep, less).value
    ensures forall i :: 0 <= i < at && keep(rows[i]) ==> less(rows[at], rows[i])
    decreases |rows|
  {
    var front, row := rows[..|rows| - 1], rows[|rows| - 1];
    BestIsLeast(front, keep, less);
    var prev := Best(front, keep, less);
    if keep(row) && (prev.None? || less(row, prev.value)) {
      at := |rows| - 1;
      forall i | 0 <= i < at && keep(rows[i])
        ensures less(rows[at], rows[i])
      {
        assert rows[i] == front[i] && front[i] in front;
        assert prev.Some? && !less(rows[i], prev.value);
      }
    } else {
      at := BestIsFirst(front, keep, less);
      forall i | 0 <= i < at && keep(rows[i])
        ensures less(rows[at], rows[i])
      {
        assert rows[i] == front[i];
      }
    }
  }

  /** More rows to choose from never makes the choice worse. */
  lemma BestImproves<T(!new)>(fewer: seq<T>, keepFewer: T -> bool, more: seq<T>, keepMore: T -> bool, less: (T, T) -> bool)
    requires StrictWeakOrder(less)
    requires forall row :: row in fewer && keepFewer(row) ==> row in more && keepMore(row)
    ensures var a, b := Best(fewer, keepFewer, less), Best(more, keepMore, less);
            a.Some? ==> b.Some? && !less(a.value, b.value)
  {
    BestIsLeast(fewer, keepFewer, less);
    BestIsLeast(more, keepMore, less);
  }

  /** The choice depends on the set of rows only, up to a tie. */
  lemma BestIgnoresOrder<T(!new)>(a: seq<T>, b: seq<T>, keep: T -> bool, less: (T, T) -> bool)
    requires StrictWeakOrder(less)
    requires SameRows(a, b)
    ensures Best(a, keep, less).Some? == Best(b, keep, less).Some?
    ensures Best(a, keep, less).Some? ==> Tied(less, Best(a, keep, less).value, Best(b, keep, less).value)
  {
    BestImproves(a, keep, b, keep, less);
    BestImproves(b, keep, a, keep, less);
  }

  ghost predicate StrictlySorted<T>(s: seq<T>, less: (T, T) -> bool) {
    forall i, j :: 0 <= i < j < |s| ==> less(s[i], s[j])
  }

  lemma StrictlySortedHead<T(!new)>(s: seq<T>, less: (T, T) -> bool)
    requires StrictWeakOrder(less) && StrictlySorted(s, less) && s != []
    ensures forall row :: row in s[1..] ==> less(s[0], row)
    ensures forall row :: row in s[1..] <==> row in s && row != s[0]
  {
    assert s == [s[0]] + s[1..];
  }

  /** A strictly sorted listing of a set of rows is unique. */
  lemma {:induction false} StrictlySortedUnique<T(!new)>(a: seq<T>, b: seq<T>, less: (T, T) -> bool)
    requires StrictWeakOrder(less)
    requires StrictlySorted(a, less) && StrictlySorted(b, less) && SameRows(a, b)
    ensures a == b
    decreases |a|
  {
    assert a != [] ==> a[0] in b;
    assert b != [] ==> b[0] in a;
    if a != [] && b != [] {
      StrictlySortedHead(a, less);
      StrictlySortedHead(b, less);
      StrictlySortedUnique(a[1..], b[1..], less);
    }
  }

  ghost predicate Sorted<T>(s: seq<T>, less: (T, T) -> bool) {
    forall i, j :: 0 <= i < j < |s| ==> !less(s[j], s[i])
  }

  /** Insertion into a sorted list; the library's sort is one more way to get such a list. */
  method Insert<T(!new)>(sorted: seq<T>, row: T, less: (T, T) -> bool) returns (r: seq<T>, ghost at: nat)
    requires StrictWeakOrder(less) && Sorted(sorted, less)
    ensures at <= |sorted| && r == sorted[..at] + [row] + sorted[at..]
    ensures Sorted(r, less)
  {
    var i := |sorted|;
    while 0 < i && less(row, sorted[i - 1])
      invariant 0 <= i <= |sorted|
      invariant forall k :: i <= k < |sorted| ==> less(row, sorted[k])
    {
      i := i - 1;
    }
    r, at := sorted[..i] + [row] + sorted[i..], i;
    if 0 < i {
      forall k | 0 <= k < i
        ensures !less(row, sorted[k])
      {
        assert k < i - 1 ==> !less(sorted[i - 1], sorted[k]);
      }
    }
  }

  ghost predicate Distinct<T, K>(rows: seq<T>, key: T -> K) {
    forall i, j :: 0 <= i < j < |rows| ==> key(rows[i]) != key(rows[j])
  }

  function Itself<T>(row: T): T {
    row
  }

  lemma InsertedRows<T>(rows: seq<T>, row: T, at: nat)
    requires at <= |rows|
    ensures forall other :: other in rows[..at] + [row] + rows[at..] <==> other in rows || other == row
  {
    assert rows == rows[..at] + rows[at..];
  }

  lemma InsertedDistinct<T, K>(rows: seq<T>, row: T, at: nat, key: T -> K)
    requires at <= |rows| && Distinct(rows, key) && forall other :: other in rows ==> key(other) != key(row)
    ensures Distinct(rows[..at] + [row] + rows[at..], key)
  {
    var r := rows[..at] + [row] + rows[at..];
    forall i, j | 0 <= i < j < |r|
      ensures key(r[i]) != key(r[j])
    {
      if i == at {
        assert r[j] == rows[j - 1];
      } else if j == at {
        assert r[i] == rows[i];
      } else {
        assert r[i] == rows[if i < at then i else i - 1] && r[j] == rows[if j < at then j else j - 1];
      }
    }
  }

  /** Insertion of a row with a new key. */
  method InsertNew<T(!new), K>(sorted: seq<T>, row: T, less: (T, T) -> bool, ghost key: T -> K) returns (r: seq<T>)
    requires StrictWeakOrder(less) && Sorted(sorted, less) && Distinct(sorted, key)
    requires forall other :: other in sorted ==> key(other) != key(row)
    ensures Sorted(r, less) && Distinct(r, key)
    ensures forall other :: other in r <==> other in sorted || other == row
  {
    ghost var at;
    r, at := Insert(sorted, row, less);
    InsertedRows(sorted, row, at);
    InsertedDistinct(sorted, row, at, key);
  }

  /** The rows of a listing that satisfy a filter, in order. */
  function Filter<T(!new)>(rows: seq<T>, keep: T -> bool): (kept: seq<T>)
    ensures forall row :: row in kept <==> row in rows && keep(row)
  {
    if rows == [] then []
    else
      var rest := Filter(rows[..|rows| - 1], keep);
      var row := rows[|rows| - 1];
      assert forall r :: r in rows <==> r in rows[..|rows| - 1] || r == row;
      if keep(row) then rest + [row] else rest
  }

  lemma FilterStep<T(!new)>(rows: seq<T>, row: T, keep: T -> bool)
    ensures Filter(rows + [row], keep) == Filter(rows, keep) + if keep(row) then [row] else []
  {
    assert (rows + [row])[..|rows|] == rows;
  }

  lemma {:induction false} FilterStrictlySorted<T(!new)>(rows: seq<T>, keep: T -> bool, less: (T, T) -> bool)
    requires StrictlySorted(rows, less)
    ensures StrictlySorted(Filter(rows, keep), less)
  {
    if rows != [] {
      var front, last := rows[..|rows| - 1], rows[|rows| - 1];
      FilterStrictlySorted(front, keep, less);
      forall row | row in Filter(front, keep)
        ensures less(row, last)
      {
        var i :| 0 <= i < |front| && front[i] == row;
        assert less(rows[i], rows[|rows| - 1]);
      }
    }
  }

  /** All pages, one after another. */
  function Flatten<T>(pages: seq<seq<T>>): seq<T> {
    if pages == [] then [] else pages[0] + Flatten(pages[1..])
  }

  /** Some listing of a finite set. */
  ghost function Enumerate<T(!new)>(s: set<T>): (rows: seq<T>)
    ensures forall row :: row in rows <==> row in s
  {
    if s == {} then []
    else
      var row :| row in s;
      [row] + Enumerate(s - {row})
  }
}
