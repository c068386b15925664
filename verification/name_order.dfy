/**
  The ordering of the sort-by-name route (index.js): `req.query.order || 'asc'`,
  the comparator on the `name` field, and the in-place, stable `Array.prototype.sort`.
 */
module NameOrder {
  import opened Tables
  import opened Aggregation

  /** JavaScript's `<` on two strings: lexicographic comparison character by character. */
  predicate StringLess(a: string, b: string) {
    if a == [] then b != []
    else if b == [] then false
    else if a[0] != b[0] then a[0] < b[0]
    else StringLess(a[1..], b[1..])
  }

  lemma {:induction false} StringLessIrreflexive(a: string)
    ensures !StringLess(a, a)
  {
    if a != [] {
      StringLessIrreflexive(a[1..]);
    }
  }

  lemma {:induction false} StringLessTransitive(a: string, b: string, c: string)
    requires StringLess(a, b) && StringLess(b, c)
    ensures StringLess(a, c)
  {
    if a != [] && b != [] && c != [] && a[0] == b[0] == c[0] {
      StringLessTransitive(a[1..], b[1..], c[1..]);
    }
  }

  /** Two different strings are always ordered one way or the other. */
  lemma {:induction false} StringLessTotal(a: string, b: string)
    ensures a == b || StringLess(a, b) || StringLess(b, a)
  {
    if a != [] && b != [] && a[0] == b[0] {
      StringLessTotal(a[1..], b[1..]);
      if a[1..] == b[1..] {
        assert a == [a[0]] + a[1..] && b == [b[0]] + b[1..];
      }
    }
  }

  lemma StringLessAsymmetric(a: string, b: string)
    requires StringLess(a, b)
    ensures !StringLess(b, a)
  {
    if StringLess(b, a) {
      StringLessTransitive(a, b, a);
      StringLessIrreflexive(a);
    }
  }

  /** The sort order the route uses: a missing or empty `order` is falsy and becomes `'asc'`. */
  function Ascending(order: Option<string>): (ascending: bool)
    ensures ascending <==> order.None? || order.value == "" || order.value == "asc"
  {
    var sortOrder := if order.None? || order.value == "" then "asc" else order.value;
    sortOrder == "asc"
  }

  /** The comparator passed to `sort`: by name, reversed unless the order is `'asc'`, 0 on equal names. */
  function Compare(a: EmployeeDetail, b: EmployeeDetail, ascending: bool): (c: int)
    ensures c == 0 <==> a.name == b.name
    ensures c < 0 <==> (if ascending then StringLess(a.name, b.name) else StringLess(b.name, a.name))
  {
    StringLessTotal(a.name, b.name);
    StringLessIrreflexive(a.name);
    if StringLess(a.name, b.name) then (StringLessAsymmetric(a.name, b.name); if ascending then -1 else 1)
    else if StringLess(b.name, a.name) then (if ascending then 1 else -1)
    else 0
  }

  /** a may precede b: names non-decreasing when ascending, non-increasing otherwise. */
  predicate InOrder(a: EmployeeDetail, b: EmployeeDetail, ascending: bool) {
    if ascending then !StringLess(b.name, a.name) else !StringLess(a.name, b.name)
  }

  /**
    The comparator puts a after b (`compare(a, b) > 0`): the only case in which a
    stable sort moves b in front of a.
   */
  predicate After(a: EmployeeDetail, b: EmployeeDetail, ascending: bool) {
    Compare(a, b, ascending) > 0
  }

  lemma CompareInOrder(a: EmployeeDetail, b: EmployeeDetail, ascending: bool)
    ensures !After(a, b, ascending) <==> InOrder(a, b, ascending)
  {
    StringLessTotal(a.name, b.name);
    if StringLess(a.name, b.name) { StringLessAsymmetric(a.name, b.name); }
    if StringLess(b.name, a.name) { StringLessAsymmetric(b.name, a.name); }
  }

  lemma InOrderTransitive(a: EmployeeDetail, b: EmployeeDetail, c: EmployeeDetail, ascending: bool)
    requires InOrder(a, b, ascending) && InOrder(b, c, ascending)
    ensures InOrder(a, c, ascending)
  {
    StringLessTotal(a.name, b.name);
    StringLessTotal(b.name, c.name);
    if ascending {
      if StringLess(c.name, a.name) {
        if StringLess(a.name, b.name) { StringLessTransitive(c.name, a.name, b.name); }
      }
    } else {
      if StringLess(a.name, c.name) {
        if StringLess(b.name, a.name) { StringLessTransitive(b.name, a.name, c.name); }
      }
    }
  }

  lemma InOrderTotal(a: EmployeeDetail, b: EmployeeDetail, ascending: bool)
    ensures InOrder(a, b, ascending) || InOrder(b, a, ascending)
  {
    StringLessTotal(a.name, b.name);
    if StringLess(a.name, b.name) { StringLessAsymmetric(a.name, b.name); }
  }

  /** Every element may precede every later one. */
  predicate Sorted(s: seq<EmployeeDetail>, ascending: bool) {
    forall i, j :: 0 <= i < j < |s| ==> InOrder(s[i], s[j], ascending)
  }

  /** The records with the given name. */
  function NameIs(name: string): EmployeeDetail -> bool {
    (d: EmployeeDetail) => d.name == name
  }

  /**
    Inserts x into a sorted list behind every element the comparator does not put after it,
    so that x lands after the elements with its own name.
   */
  function Insert(s: seq<EmployeeDetail>, x: EmployeeDetail, ascending: bool): seq<EmployeeDetail>
    decreases |s|
  {
    if s == [] then [x]
    else if After(s[|s| - 1], x, ascending) then Insert(s[..|s| - 1], x, ascending) + [s[|s| - 1]]
    else s + [x]
  }

  /** A stable sort by the comparator: insertion sort, one element at a time from the front. */
  function Sort(s: seq<EmployeeDetail>, ascending: bool): seq<EmployeeDetail>
    decreases |s|
  {
    if s == [] then []
    else Insert(Sort(s[..|s| - 1], ascending), s[|s| - 1], ascending)
  }

  lemma {:induction false} InsertPermutes(s: seq<EmployeeDetail>, x: EmployeeDetail, ascending: bool)
    ensures multiset(Insert(s, x, ascending)) == multiset(s) + multiset{x}
    decreases |s|
  {
    if s != [] && After(s[|s| - 1], x, ascending) {
      var n := |s|;
      InsertPermutes(s[..n - 1], x, ascending);
      assert s == s[..n - 1] + [s[n - 1]];
    }
  }

  lemma {:induction false} InsertSorted(s: seq<EmployeeDetail>, x: EmployeeDetail, ascending: bool)
    requires Sorted(s, ascending)
    ensures Sorted(Insert(s, x, ascending), ascending)
    decreases |s|
  {
    var n := |s|;
    if s == [] {
    } else if After(s[n - 1], x, ascending) {
      InsertSorted(s[..n - 1], x, ascending);
      PrecedesLast(s, x, ascending, Insert(s[..n - 1], x, ascending));
      SortedAppend(Insert(s[..n - 1], x, ascending), s[n - 1], ascending);
    } else {
      CompareInOrder(s[n - 1], x, ascending);
      forall k | 0 <= k < n ensures InOrder(s[k], x, ascending) {
        if k < n - 1 {
          InOrderTransitive(s[k], s[n - 1], x, ascending);
        }
      }
      SortedAppend(s, x, ascending);
    }
  }

  /**
    When the last element of a sorted list is put after x, every element of the rest
    with x inserted may precede that last element.
   */
  lemma PrecedesLast(s: seq<EmployeeDetail>, x: EmployeeDetail, ascending: bool, front: seq<EmployeeDetail>)
    requires Sorted(s, ascending) && s != [] && After(s[|s| - 1], x, ascending)
    requires front == Insert(s[..|s| - 1], x, ascending)
    ensures forall k :: 0 <= k < |front| ==> InOrder(front[k], s[|s| - 1], ascending)
  {
    var n := |s|;
    var last := s[n - 1];
    InsertPermutes(s[..n - 1], x, ascending);
    CompareInOrder(last, x, ascending);
    InOrderTotal(last, x, ascending);
    forall k | 0 <= k < |front| ensures InOrder(front[k], last, ascending) {
      var y := front[k];
      assert y in multiset(front);
      if y != x {
        assert y in multiset(s[..n - 1]);
        var i :| 0 <= i < n - 1 && s[..n - 1][i] == y;
        assert s[i] == y;
      }
    }
  }

  /** A sorted list stays sorted when an element that every element may precede is appended. */
  lemma SortedAppend(s: seq<EmployeeDetail>, x: EmployeeDetail, ascending: bool)
    requires Sorted(s, ascending)
    requires forall k :: 0 <= k < |s| ==> InOrder(s[k], x, ascending)
    ensures Sorted(s + [x], ascending)
  {
    var r := s + [x];
    forall i, j | 0 <= i < j < |r| ensures InOrder(r[i], r[j], ascending) {
      if j == |s| {
        assert r[i] == s[i];
      } else {
        assert r[i] == s[i] && r[j] == s[j];
      }
    }
  }

  /** Insertion keeps the order among records of one name, x coming after those already there. */
  lemma {:induction false} InsertKeepsNameOrder(s: seq<EmployeeDetail>, x: EmployeeDetail, ascending: bool, name: string)
    ensures Filter(Insert(s, x, ascending), NameIs(name)) == Filter(s, NameIs(name)) + Filter([x], NameIs(name))
    decreases |s|
  {
    var p := NameIs(name);
    var n := |s|;
    if s == [] {
      assert [] + [x] == [x];
    } else if After(s[n - 1], x, ascending) {
      var last, front := s[n - 1], s[..n - 1];
      assert s == front + [last];
      assert Insert(s, x, ascending) == Insert(front, x, ascending) + [last];
      InsertKeepsNameOrder(front, x, ascending, name);
      FilterAppend(Insert(front, x, ascending), [last], p);
      FilterAppend(front, [last], p);
      FilterSingleton(last, p);
      FilterSingleton(x, p);
      SwapDisjointParts(Filter(front, p), Filter([last], p), Filter([x], p));
    } else {
      FilterAppend(s, [x], p);
    }
  }

  /** Two parts of which one is empty may be appended in either order. */
  lemma SwapDisjointParts(front: seq<EmployeeDetail>, a: seq<EmployeeDetail>, b: seq<EmployeeDetail>)
    requires a == [] || b == []
    ensures front + a + b == front + b + a
  {
  }

  lemma FilterSingleton(y: EmployeeDetail, where: EmployeeDetail -> bool)
    ensures Filter([y], where) == if where(y) then [y] else []
  {
    assert [y][..0] == [];
  }

  /** Sort returns a permutation of its input. */
  lemma {:induction false} SortPermutes(s: seq<EmployeeDetail>, ascending: bool)
    ensures multiset(Sort(s, ascending)) == multiset(s)
    decreases |s|
  {
    if s != [] {
      var n := |s|;
      SortPermutes(s[..n - 1], ascending);
      InsertPermutes(Sort(s[..n - 1], ascending), s[n - 1], ascending);
      assert s == s[..n - 1] + [s[n - 1]];
    }
  }

  /** Sort returns its input in comparator order. */
  lemma {:induction false} SortSorted(s: seq<EmployeeDetail>, ascending: bool)
    ensures Sorted(Sort(s, ascending), ascending)
    decreases |s|
  {
    if s != [] {
      SortSorted(s[..|s| - 1], ascending);
      InsertSorted(Sort(s[..|s| - 1], ascending), s[|s| - 1], ascending);
    }
  }

  /** Sort is stable: the records of any one name keep their input order. */
  lemma {:induction false} SortStable(s: seq<EmployeeDetail>, ascending: bool, name: string)
    ensures Filter(Sort(s, ascending), NameIs(name)) == Filter(s, NameIs(name))
    decreases |s|
  {
    if s != [] {
      var p := NameIs(name);
      var front, last := s[..|s| - 1], s[|s| - 1];
      assert s == front + [last];
      SortStable(front, ascending, name);
      assert Sort(s, ascending) == Insert(Sort(front, ascending), last, ascending);
      InsertKeepsNameOrder(Sort(front, ascending), last, ascending, name);
      assert Filter(Sort(s, ascending), p) == Filter(front, p) + Filter([last], p);
      FilterAppend(front, [last], p);
    }
  }

  /** One step of the insertion: x moves in front of an element the comparator puts after it. */
  lemma InsertShifts(sorted: seq<EmployeeDetail>, x: EmployeeDetail, ascending: bool, j: nat)
    requires 0 < j <= |sorted| && After(sorted[j - 1], x, ascending)
    requires InsertsAt(sorted, x, ascending, j)
    ensures InsertsAt(sorted, x, ascending, j - 1)
  {
    assert sorted[..j][..j - 1] == sorted[..j - 1];
    assert sorted[j - 1..] == [sorted[j - 1]] + sorted[j..];
  }

  /** The insertion stops at the front or behind an element that may precede x. */
  lemma InsertStops(sorted: seq<EmployeeDetail>, x: EmployeeDetail, ascending: bool, j: nat)
    requires j <= |sorted| && (j == 0 || !After(sorted[j - 1], x, ascending))
    requires InsertsAt(sorted, x, ascending, j)
    ensures Insert(sorted, x, ascending) == sorted[..j] + [x] + sorted[j..]
  {
  }

  /**
    `employeesWithDetails.sort(comparator)`: sorts the array in place. The algorithm
    (insertion sort) matters only up to its result, which a stable sort fixes.
   */
  method SortByName(a: array<EmployeeDetail>, ascending: bool)
    modifies a
    ensures a[..] == Sort(old(a[..]), ascending)
  {
    ghost var input := a[..];
    for i := 0 to a.Length
      invariant a[..i] == Sort(input[..i], ascending)
      invariant a[i..] == input[i..]
    {
      SortStep(input, i, ascending);
      InsertInPlace(a, i, ascending);
    }
    assert input[..a.Length] == input;
  }

  /** Sorting one more element of the input inserts it into the sorted prefix. */
  lemma SortStep(input: seq<EmployeeDetail>, i: nat, ascending: bool)
    requires i < |input|
    ensures Sort(input[..i + 1], ascending) == Insert(Sort(input[..i], ascending), input[i], ascending)
  {
    assert input[..i + 1][..i] == input[..i];
  }

  /** Moves a[i] back into the sorted prefix a[..i], shifting the larger elements up by one. */
  method InsertInPlace(a: array<EmployeeDetail>, i: nat, ascending: bool)
    requires i < a.Length
    modifies a
    ensures a[..i + 1] == Insert(old(a[..i]), old(a[i]), ascending)
    ensures a[i + 1..] == old(a[i + 1..])
  {
    var x := a[i];
    ghost var sorted := a[..i];
    ghost var rest := a[i + 1..];
    var j := i;
    while j > 0 && After(a[j - 1], x, ascending)
      invariant 0 <= j <= i
      invariant Holed(a[..], sorted, rest, j)
      invariant InsertsAt(sorted, x, ascending, j)
    {
      InsertShifts(sorted, x, ascending, j);
      ghost var before := a[..];
      a[j] := a[j - 1];
      ShiftKeepsHoled(before, a[..], sorted, rest, j);
      j := j - 1;
    }
    ghost var before := a[..];
    a[j] := x;
    FillHole(before, a[..], sorted, rest, j, x);
    InsertStops(sorted, x, ascending, j);
  }

  /** Inserting x into sorted is inserting it into sorted[..j] and keeping the elements from j on behind. */
  ghost predicate InsertsAt(sorted: seq<EmployeeDetail>, x: EmployeeDetail, ascending: bool, j: nat)
    requires j <= |sorted|
  {
    Insert(sorted, x, ascending) == Insert(sorted[..j], x, ascending) + sorted[j..]
  }

  /**
    The array during the insertion: the sorted prefix with a hole at j, its elements
    from j on moved up by one, and the untouched rest behind them.
   */
  ghost predicate Holed(cur: seq<EmployeeDetail>, sorted: seq<EmployeeDetail>, rest: seq<EmployeeDetail>, j: nat) {
    && j <= |sorted| && |cur| == |sorted| + 1 + |rest|
    && cur[..j] == sorted[..j]
    && cur[j + 1..|sorted| + 1] == sorted[j..]
    && cur[|sorted| + 1..] == rest
  }

  /** Copying the element before the hole into it moves the hole down by one. */
  lemma ShiftKeepsHoled(before: seq<EmployeeDetail>, after: seq<EmployeeDetail>,
                        sorted: seq<EmployeeDetail>, rest: seq<EmployeeDetail>, j: nat)
    requires Holed(before, sorted, rest, j) && 0 < j
    requires after == before[j := before[j - 1]]
    ensures Holed(after, sorted, rest, j - 1)
  {
    var n := |sorted|;
    assert after[..j - 1] == before[..j - 1];
    assert after[j..n + 1] == [before[j - 1]] + before[j + 1..n + 1];
    assert sorted[j - 1..] == [sorted[j - 1]] + sorted[j..];
    assert after[n + 1..] == before[n + 1..];
  }

  /** Writing x into the hole leaves the prefix with x inserted, and the rest as it was. */
  lemma FillHole(before: seq<EmployeeDetail>, after: seq<EmployeeDetail>,
                 sorted: seq<EmployeeDetail>, rest: seq<EmployeeDetail>, j: nat, x: EmployeeDetail)
    requires Holed(before, sorted, rest, j)
    requires after == before[j := x]
    ensures after[..|sorted| + 1] == sorted[..j] + [x] + sorted[j..]
    ensures after[|sorted| + 1..] == rest
  {
    var n := |sorted|;
    assert after[..n + 1] == after[..j] + [x] + after[j + 1..n + 1];
    assert after[j + 1..n + 1] == before[j + 1..n + 1];
    assert after[n + 1..] == before[n + 1..];
  }
}
