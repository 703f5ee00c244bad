/**
 * `ProcessRowsCallback`: filtering the rows with `FilterPredicate`, and
 * sorting them in place by the limit's single sort.
 */
module ProcessRows {
  import opened Wrappers
  import opened Text
  import opened Names
  import opened Beans
  import opened FilterSets
  import opened Columns
  import opened FilterPredicates
  import opened Comparators
  import opened LimitFactory

  // ---------------------------------------------------------------------
  // filterRows

  /** `CollectionUtils.select`: the rows `keep` accepts, in their original order. */
  function Select<T>(rows: seq<T>, keep: T -> bool): (r: seq<T>)
    ensures |r| <= |rows|
  {
    if rows == [] then [] else (if keep(rows[0]) then [rows[0]] else []) + Select(rows[1..], keep)
  }

  lemma {:induction false} SelectMembership<T>(rows: seq<T>, keep: T -> bool, x: T)
    ensures x in Select(rows, keep) <==> x in rows && keep(x)
  {
    if rows != [] {
      SelectMembership(rows[1..], keep, x);
      assert rows == [rows[0]] + rows[1..];
    }
  }

  lemma AppendAssociative<T>(x: seq<T>, y: seq<T>, z: seq<T>)
    ensures x + (y + z) == (x + y) + z
  {
  }

  /** Selection keeps the order: selecting from a concatenation concatenates the selections. */
  lemma {:induction false} SelectAppend<T>(a: seq<T>, b: seq<T>, keep: T -> bool)
    ensures Select(a + b, keep) == Select(a, keep) + Select(b, keep)
  {
    if a == [] {
      assert a + b == b;
    } else {
      var head := if keep(a[0]) then [a[0]] else [];
      assert (a + b)[0] == a[0];
      assert (a + b)[1..] == a[1..] + b;
      assert Select(a + b, keep) == head + Select(a[1..] + b, keep);
      SelectAppend(a[1..], b, keep);
      AppendAssociative(head, Select(a[1..], keep), Select(b, keep));
    }
  }

  /** Whether `FilterPredicate.evaluate` accepts `bean`. */
  function Accepts<T>(columns: seq<Column>, filterSet: FilterSet, reader: RowReader<T>, bean: T): bool {
    Outcome(Steps(columns, filterSet, reader, bean), false)
  }

  /** `filterRows`: every row unless the limit is filtered and not cleared; then the accepted rows, in order. */
  function FilterRows<T>(rows: seq<T>, filterSet: FilterSet, n: Names, columns: seq<Column>, reader: RowReader<T>): (r: seq<T>)
    ensures !IsFiltered(filterSet, n) || IsCleared(filterSet, n) ==> r == rows
    ensures |r| <= |rows|
  {
    if !IsFiltered(filterSet, n) || IsCleared(filterSet, n) then rows
    else Select(rows, bean => Accepts(columns, filterSet, reader, bean))
  }

  /** When filtering applies, a row survives exactly when the predicate accepts it. */
  lemma FilterRowsExact<T>(rows: seq<T>, filterSet: FilterSet, n: Names, columns: seq<Column>, reader: RowReader<T>, x: T)
    requires IsFiltered(filterSet, n) && !IsCleared(filterSet, n)
    ensures x in FilterRows(rows, filterSet, n, columns, reader) <==> x in rows && Accepts(columns, filterSet, reader, x)
  {
    SelectMembership(rows, bean => Accepts(columns, filterSet, reader, bean), x);
  }

  /** Filtering the rows in two batches gives the filtered batches one after the other. */
  lemma FilterRowsAppend<T>(a: seq<T>, b: seq<T>, filterSet: FilterSet, n: Names, columns: seq<Column>, reader: RowReader<T>)
    ensures FilterRows(a + b, filterSet, n, columns, reader)
         == FilterRows(a, filterSet, n, columns, reader) + FilterRows(b, filterSet, n, columns, reader)
  {
    if IsFiltered(filterSet, n) && !IsCleared(filterSet, n) {
      SelectAppend(a, b, bean => Accepts(columns, filterSet, reader, bean));
    }
  }

  // ---------------------------------------------------------------------
  // sortRows

  /** `s` is in non-decreasing order under `c`. */
  ghost predicate SortedBy<T>(s: seq<T>, c: (T, T) -> int) {
    forall i, j :: 0 <= i < j < |s| ==> c(s[i], s[j]) <= 0
  }

  ghost function Elements<T>(s: seq<T>): set<T> {
    set x | x in s
  }

  /** `sortRows` reorders: the limit is sorted and the order is ASC or DESC. */
  predicate Reorders(sort: Sort, n: Names) {
    sort.Sort? && (sort.sortOrder == n.sortAsc || sort.sortOrder == n.sortDesc)
  }

  /** A dotted property goes through `NullSafeBeanComparator`; a plain one through `BeanComparator`. */
  predicate IsNested(property: string) {
    Contains(property, ".")
  }

  /** The value comparator: `NullComparator(natural)`, reversed for DESC. */
  function ValueOrder<T>(sort: Sort, n: Names, natural: (T, T) -> Option<int>): (Option<T>, Option<T>) -> Option<int>
    requires sort.Sort?
  {
    if sort.sortOrder == n.sortAsc then (a, b) => NullCompare(natural, true, a, b)
    else (a, b) => NullCompare(natural, true, b, a)
  }

  /**
   * The order the sort establishes between two rows: for a dotted
   * property, `NullSafeBeanComparator` (nulls high) around the value
   * comparator; for a plain one, `BeanComparator` with the value
   * comparator, which sees the nulls itself. A comparison that throws
   * reads as 0 here; whether the sort throws is `PairThrows`.
   */
  function RowOrder<T(==)>(sort: Sort, n: Names, natural: (T, T) -> Option<int>, getProperty: (T, string) -> Access<T>,
                           a: T, b: T): int
    requires sort.Sort?
  {
    var order := ValueOrder(sort, n, natural);
    if IsNested(sort.property) then
      OrZero(Compare(NewNullSafeBeanComparator(Some(sort.property), (x, y) => order(Some(x), Some(y))), getProperty, a, b))
    else
      OrZero(BeanCompare(sort.property, order, getProperty, a, b))
  }

  /**
   * A plain-property sort of two or more rows throws when some row's
   * property cannot be read: every element takes part in a comparison.
   */
  predicate ReadThrows<T>(sort: Sort, n: Names, getProperty: (T, string) -> Access<T>, rows: seq<T>) {
    && Reorders(sort, n) && !IsNested(sort.property) && |rows| >= 2
    && exists i :: 0 <= i < |rows| && PlainValue(getProperty(rows[i], sort.property)).None?
  }

  /**
   * Some two rows of a plain-property sort cannot be compared: a read or
   * the value comparator throws. Whether the sort meets such a pair
   * depends on the order in which it compares.
   */
  predicate PairThrows<T>(sort: Sort, n: Names, natural: (T, T) -> Option<int>, getProperty: (T, string) -> Access<T>,
                          rows: seq<T>)
  {
    && Reorders(sort, n) && !IsNested(sort.property)
    && exists i, j :: 0 <= i < |rows| && 0 <= j < |rows| && i != j
                      && BeanCompare(sort.property, ValueOrder(sort, n, natural), getProperty, rows[i], rows[j]).None?
  }

  /** A read that fails leaves some pair incomparable: the row meets any other row. */
  lemma ReadThrowsPair<T>(sort: Sort, n: Names, natural: (T, T) -> Option<int>, getProperty: (T, string) -> Access<T>,
                          rows: seq<T>)
    requires ReadThrows(sort, n, getProperty, rows)
    ensures PairThrows(sort, n, natural, getProperty, rows)
  {
    var i :| 0 <= i < |rows| && PlainValue(getProperty(rows[i], sort.property)).None?;
    var j := if i == 0 then 1 else 0;
    assert BeanCompare(sort.property, ValueOrder(sort, n, natural), getProperty, rows[i], rows[j]).None?;
  }

  /** Rows whose property reads and whose values the natural order compares pairwise have no incomparable pair. */
  lemma ComparableRowsNeverThrow<T>(sort: Sort, n: Names, natural: (T, T) -> Option<int>,
                                    getProperty: (T, string) -> Access<T>, rows: seq<T>)
    requires sort.Sort?
    requires forall i :: 0 <= i < |rows| ==> PlainValue(getProperty(rows[i], sort.property)).Some?
    requires forall i, j :: 0 <= i < |rows| && 0 <= j < |rows| && getProperty(rows[i], sort.property).Found?
                            && getProperty(rows[j], sort.property).Found?
                            ==> natural(getProperty(rows[i], sort.property).value,
                                        getProperty(rows[j], sort.property).value).Some?
    ensures !PairThrows(sort, n, natural, getProperty, rows)
  {
    forall i, j | 0 <= i < |rows| && 0 <= j < |rows|
      ensures BeanCompare(sort.property, ValueOrder(sort, n, natural), getProperty, rows[i], rows[j]).Some?
    {
      var a, b := getProperty(rows[i], sort.property), getProperty(rows[j], sort.property);
      assert PlainValue(a).Some? && PlainValue(b).Some?;
    }
  }

  /** Two rows whose values the natural order cannot compare (`1` against `"x"`) make a plain sort throw. */
  lemma IncomparableValuesThrow<T>(sort: Sort, n: Names, natural: (T, T) -> Option<int>,
                                   getProperty: (T, string) -> Access<T>, rows: seq<T>, i: int, j: int)
    requires Reorders(sort, n) && !IsNested(sort.property)
    requires 0 <= i < |rows| && 0 <= j < |rows| && i != j
    requires getProperty(rows[i], sort.property).Found? && getProperty(rows[j], sort.property).Found?
    requires natural(getProperty(rows[i], sort.property).value, getProperty(rows[j], sort.property).value).None?
    requires natural(getProperty(rows[j], sort.property).value, getProperty(rows[i], sort.property).value).None?
    ensures PairThrows(sort, n, natural, getProperty, rows)
  {
    assert BeanCompare(sort.property, ValueOrder(sort, n, natural), getProperty, rows[i], rows[j]).None?;
  }

  ghost predicate AllIn<T>(s: seq<T>, elements: set<T>) {
    forall k :: 0 <= k < |s| ==> s[k] in elements
  }

  /** The first `hi` elements are sorted. */
  ghost predicate SortedUpTo<T>(s: seq<T>, c: (T, T) -> int, hi: int) {
    forall k, l :: 0 <= k < l < hi && l < |s| ==> c(s[k], s[l]) <= 0
  }

  /** `s[..hi + 1]` is sorted once the element at `j` is disregarded. */
  ghost predicate SortedExcept<T>(s: seq<T>, c: (T, T) -> int, hi: int, j: int) {
    forall k, l :: 0 <= k < l <= hi && l < |s| && k != j && l != j ==> c(s[k], s[l]) <= 0
  }

  /** The element at `j` is at or below every element after it up to `hi`. */
  ghost predicate BelowRest<T>(s: seq<T>, c: (T, T) -> int, j: int, hi: int) {
    0 <= j < |s| && forall l :: j < l <= hi && l < |s| ==> c(s[j], s[l]) <= 0
  }

  /** One swap moves the inserted element one place left and keeps the insertion invariant. */
  lemma SwapStep<T(!new)>(s: seq<T>, c: (T, T) -> int, elements: set<T>, hi: int, j: int)
    requires IsTotalPreorder(c, elements) && AllIn(s, elements)
    requires 0 < j <= hi < |s|
    requires SortedExcept(s, c, hi, j) && BelowRest(s, c, j, hi)
    requires c(s[j - 1], s[j]) > 0
    ensures SortedExcept(s[j - 1 := s[j]][j := s[j - 1]], c, hi, j - 1)
    ensures BelowRest(s[j - 1 := s[j]][j := s[j - 1]], c, j - 1, hi)
  {
    assert s[j] in elements && s[j - 1] in elements;
  }

  lemma SwapKeepsMultiset<T>(s: seq<T>, j: int)
    requires 0 < j < |s|
    ensures multiset(s[j - 1 := s[j]][j := s[j - 1]]) == multiset(s)
  {
  }

  /** Before any swap, the inserted element `s[i]` is trivially below the (empty) rest. */
  lemma InsertStart<T>(s: seq<T>, c: (T, T) -> int, i: int)
    requires 0 <= i < |s| && SortedUpTo(s, c, i)
    ensures SortedExcept(s, c, i, i) && BelowRest(s, c, i, i)
  {
  }

  lemma SwapKeepsElements<T>(s: seq<T>, elements: set<T>, j: int)
    requires AllIn(s, elements) && 0 < j < |s|
    ensures AllIn(s[j - 1 := s[j]][j := s[j - 1]], elements)
  {
  }

  /** Once the inserted element stops, the prefix up to `hi` is sorted. */
  lemma InsertDone<T(!new)>(s: seq<T>, c: (T, T) -> int, elements: set<T>, hi: int, j: int)
    requires IsTotalPreorder(c, elements) && AllIn(s, elements)
    requires 0 <= j <= hi < |s|
    requires SortedExcept(s, c, hi, j) && BelowRest(s, c, j, hi)
    requires j == 0 || c(s[j - 1], s[j]) <= 0
    ensures SortedUpTo(s, c, hi + 1)
  {
    forall k, l | 0 <= k < l <= hi ensures c(s[k], s[l]) <= 0 {
      if l == j && k < j - 1 {
        assert s[k] in elements && s[j - 1] in elements && s[j] in elements;
        assert c(s[k], s[j - 1]) <= 0;
      }
    }
  }

  /** `Collections.sort`'s element swaps. */
  method Swap<T>(a: array<T>, i: int, j: int)
    requires 0 <= i < a.Length && 0 <= j < a.Length
    modifies a
    ensures a[..] == old(a[..])[i := old(a[j])][j := old(a[i])]
    ensures multiset(a[..]) == multiset(old(a[..]))
  {
    a[i], a[j] := a[j], a[i];
  }

  /** One pass of the insertion: the element at `j` swapped left until the one before it is not above it. */
  ghost function Sink<T>(s: seq<T>, c: (T, T) -> int, j: int): (r: seq<T>)
    requires 0 <= j < |s|
    ensures |r| == |s|
    decreases j
  {
    if j > 0 && c(s[j - 1], s[j]) > 0 then Sink(s[j - 1 := s[j]][j := s[j - 1]], c, j - 1) else s
  }

  lemma {:induction false} SinkKeepsElements<T>(s: seq<T>, c: (T, T) -> int, j: int, elements: set<T>)
    requires 0 <= j < |s| && AllIn(s, elements)
    ensures multiset(Sink(s, c, j)) == multiset(s)
    ensures AllIn(Sink(s, c, j), elements)
    decreases j
  {
    if j > 0 && c(s[j - 1], s[j]) > 0 {
      var t := s[j - 1 := s[j]][j := s[j - 1]];
      SwapKeepsElements(s, elements, j);
      SwapKeepsMultiset(s, j);
      SinkKeepsElements(t, c, j - 1, elements);
    }
  }

  /** Sinking the element at `j` into a run sorted around it sorts everything up to `hi`. */
  lemma {:induction false} SinkSorts<T(!new)>(s: seq<T>, c: (T, T) -> int, elements: set<T>, hi: int, j: int)
    requires IsTotalPreorder(c, elements) && AllIn(s, elements)
    requires 0 <= j <= hi < |s|
    requires SortedExcept(s, c, hi, j) && BelowRest(s, c, j, hi)
    ensures SortedUpTo(Sink(s, c, j), c, hi + 1)
    decreases j
  {
    if j > 0 && c(s[j - 1], s[j]) > 0 {
      SwapStep(s, c, elements, hi, j);
      SwapKeepsElements(s, elements, j);
      SinkSorts(s[j - 1 := s[j]][j := s[j - 1]], c, elements, hi, j - 1);
    } else {
      InsertDone(s, c, elements, hi, j);
    }
  }

  /** One insertion pass in place: `a[i]` is swapped left while the element before it is above it. */
  method Insert<T>(a: array<T>, c: (T, T) -> int, i: int)
    requires 0 <= i < a.Length
    modifies a
    ensures a[..] == Sink(old(a[..]), c, i)
  {
    var j := i;
    while j > 0 && c(a[j - 1], a[j]) > 0
      invariant 0 <= j <= i
      invariant Sink(a[..], c, j) == Sink(old(a[..]), c, i)
    {
      Swap(a, j - 1, j);
      j := j - 1;
    }
  }

  /**
   * `Collections.sort(rows, c)` by insertion: adjacent swaps keep the
   * elements; when `c` is a total preorder on them the result is sorted.
   */
  method InsertionSort<T(!new)>(a: array<T>, c: (T, T) -> int)
    modifies a
    ensures multiset(a[..]) == multiset(old(a[..]))
    ensures IsTotalPreorder(c, Elements(old(a[..]))) ==> SortedBy(a[..], c)
  {
    ghost var elements := Elements(a[..]);
    ghost var good := IsTotalPreorder(c, elements);
    var i := 0;
    while i < a.Length
      invariant 0 <= i <= a.Length
      invariant multiset(a[..]) == multiset(old(a[..]))
      invariant AllIn(a[..], elements)
      invariant good ==> SortedUpTo(a[..], c, i)
    {
      ghost var before := a[..];
      Insert(a, c, i);
      SinkKeepsElements(before, c, i, elements);
      if good {
        InsertStart(before, c, i);
        SinkSorts(before, c, elements, i, i);
      }
      i := i + 1;
    }
  }

  /**
   * `sortRows`. `ok` is false where the Java method throws; the rows are
   * then still a permutation of the input. `natural` is the values'
   * `compareTo` (`None` where it throws), `getProperty` is
   * `PropertyUtils.getProperty`. Which incomparable pairs a sort meets
   * depends on its comparison order, so the contract says only what
   * holds for every order: a failed read always throws, and a sort with
   * no incomparable pair under a total preorder never does.
   */
  method SortRows<T(==,!new)>(rows: array<T>, sort: Sort, n: Names, natural: (T, T) -> Option<int>,
                         getProperty: (T, string) -> Access<T>) returns (ok: bool)
    modifies rows
    ensures multiset(rows[..]) == multiset(old(rows[..]))
    ensures !Reorders(sort, n) ==> ok && rows[..] == old(rows[..])
    ensures ReadThrows(sort, n, getProperty, old(rows[..])) ==> !ok
    ensures Reorders(sort, n) && !PairThrows(sort, n, natural, getProperty, old(rows[..]))
            && IsTotalPreorder((a, b) => RowOrder(sort, n, natural, getProperty, a, b), Elements(old(rows[..])))
            ==> ok
    ensures ok && Reorders(sort, n)
            && IsTotalPreorder((a, b) => RowOrder(sort, n, natural, getProperty, a, b), Elements(old(rows[..])))
            ==> SortedBy(rows[..], (a, b) => RowOrder(sort, n, natural, getProperty, a, b))
  {
    if !Reorders(sort, n) {
      return true;
    }
    if PairThrows(sort, n, natural, getProperty, rows[..]) {
      return false;
    }
    if ReadThrows(sort, n, getProperty, rows[..]) {
      ReadThrowsPair(sort, n, natural, getProperty, rows[..]);
      assert false;
    }
    InsertionSort(rows, (a, b) => RowOrder(sort, n, natural, getProperty, a, b));
    return true;
  }

  // ---------------------------------------------------------------------
  // Where the nulls go, and when the row order is a total preorder

  /** Dotted property, ASC or DESC: once a row reads null, no later row has a value. Nulls end up last. */
  lemma NestedNullsLast<T(!new)>(rows: seq<T>, sort: Sort, n: Names, natural: (T, T) -> Option<int>,
                                 getProperty: (T, string) -> Access<T>)
    requires Reorders(sort, n) && IsNested(sort.property)
    requires SortedBy(rows, (a, b) => RowOrder(sort, n, natural, getProperty, a, b))
    ensures forall i, j :: 0 <= i < j < |rows| && ReadsNull(getProperty, sort.property, rows[i])
                           ==> !getProperty(rows[j], sort.property).Found?
  {
    forall i, j | 0 <= i < j < |rows| && ReadsNull(getProperty, sort.property, rows[i])
      ensures !getProperty(rows[j], sort.property).Found?
    {
      assert RowOrder(sort, n, natural, getProperty, rows[i], rows[j]) <= 0;
    }
  }

  /** Plain property, ASC: nulls last. */
  lemma PlainAscNullsLast<T(!new)>(rows: seq<T>, sort: Sort, n: Names, natural: (T, T) -> Option<int>,
                                   getProperty: (T, string) -> Access<T>)
    requires sort.Sort? && sort.sortOrder == n.sortAsc && !IsNested(sort.property)
    requires SortedBy(rows, (a, b) => RowOrder(sort, n, natural, getProperty, a, b))
    ensures forall i, j :: 0 <= i < j < |rows| && getProperty(rows[i], sort.property).Null?
                           ==> !getProperty(rows[j], sort.property).Found?
  {
    forall i, j | 0 <= i < j < |rows| && getProperty(rows[i], sort.property).Null?
      ensures !getProperty(rows[j], sort.property).Found?
    {
      assert RowOrder(sort, n, natural, getProperty, rows[i], rows[j]) <= 0;
    }
  }

  /** Plain property, DESC: the reversed `NullComparator` puts nulls first. */
  lemma PlainDescNullsFirst<T(!new)>(rows: seq<T>, sort: Sort, n: Names, natural: (T, T) -> Option<int>,
                                     getProperty: (T, string) -> Access<T>)
    requires sort.Sort? && sort.sortOrder == n.sortDesc && n.sortAsc != n.sortDesc && !IsNested(sort.property)
    requires SortedBy(rows, (a, b) => RowOrder(sort, n, natural, getProperty, a, b))
    ensures forall i, j :: 0 <= i < j < |rows| && getProperty(rows[j], sort.property).Null?
                           ==> !getProperty(rows[i], sort.property).Found?
  {
    forall i, j | 0 <= i < j < |rows| && getProperty(rows[j], sort.property).Null?
      ensures !getProperty(rows[i], sort.property).Found?
    {
      assert RowOrder(sort, n, natural, getProperty, rows[i], rows[j]) <= 0;
    }
  }

  /** The property values the plain branch hands to the value comparator, nulls included. */
  ghost function PlainValues<T(!new)>(getProperty: (T, string) -> Access<T>, property: string, rows: set<T>): set<Option<T>> {
    set o | o in rows && PlainValue(getProperty(o, property)).Some? :: PlainValue(getProperty(o, property)).value
  }

  /** Two comparators that agree on `s` are total preorders on it together. */
  lemma PreorderAgreeing<T(!new)>(c1: (T, T) -> int, c2: (T, T) -> int, s: set<T>)
    requires forall x, y | x in s && y in s :: c1(x, y) == c2(x, y)
    requires IsTotalPreorder(c1, s)
    ensures IsTotalPreorder(c2, s)
  {
  }

  /** Comparing by a key keeps a total preorder of the keys. */
  lemma PreorderByKey<T(!new), K(!new)>(key: T -> K, c: (K, K) -> int, s: set<T>, keys: set<K>)
    requires forall o | o in s :: key(o) in keys
    requires IsTotalPreorder(c, keys)
    ensures IsTotalPreorder((a, b) => c(key(a), key(b)), s)
  {
  }

  /** Dotted property: the row order is a total preorder when no read fails and the values are totally preordered. */
  lemma NestedRowOrderPreorder<T(!new)>(sort: Sort, n: Names, natural: (T, T) -> Option<int>,
                                        getProperty: (T, string) -> Access<T>, rows: set<T>)
    requires sort.Sort? && IsNested(sort.property)
    requires IsTotalPreorder(Caught(natural), FoundValues(getProperty, sort.property, rows))
    requires forall o | o in rows :: !getProperty(o, sort.property).Error?
    ensures IsTotalPreorder((a, b) => RowOrder(sort, n, natural, getProperty, a, b), rows)
  {
    var p := sort.property;
    var order := ValueOrder(sort, n, natural);
    var values := FoundValues(getProperty, p, rows);
    var inner := (x: T, y: T) => order(Some(x), Some(y));
    if sort.sortOrder == n.sortAsc {
      PreorderAgreeing(Caught(natural), Caught(inner), values);
    } else {
      ReversedPreorder(Caught(natural), values);
      PreorderAgreeing(Reversed(Caught(natural)), Caught(inner), values);
    }
    var nc := NewNullSafeBeanComparator(Some(p), inner);
    ComparePreorder(nc, getProperty, rows);
    PreorderAgreeing(Caught((a, b) => Compare(nc, getProperty, a, b)),
                     (a, b) => RowOrder(sort, n, natural, getProperty, a, b), rows);
  }

  lemma PlainValuesFound<T(!new)>(getProperty: (T, string) -> Access<T>, p: string, rows: set<T>)
    ensures FoundValues(getProperty, p, rows) == set o | o in PlainValues(getProperty, p, rows) && o.Some? :: o.value
  {
    var options := PlainValues(getProperty, p, rows);
    forall v | v in FoundValues(getProperty, p, rows) ensures Some(v) in options {
      var o :| o in rows && getProperty(o, p).Found? && getProperty(o, p).value == v;
      assert PlainValue(getProperty(o, p)) == Some(Some(v));
    }
    forall x | x in options && x.Some? ensures x.value in FoundValues(getProperty, p, rows) {
      var o :| o in rows && PlainValue(getProperty(o, p)).Some? && PlainValue(getProperty(o, p)).value == x;
      assert getProperty(o, p) == Found(x.value);
    }
  }

  /** The value comparator of a plain sort is a total preorder of the values read, nulls included. */
  lemma ValueOrderPreorder<T(!new)>(sort: Sort, n: Names, natural: (T, T) -> Option<int>,
                                    getProperty: (T, string) -> Access<T>, rows: set<T>)
    requires sort.Sort?
    requires IsTotalPreorder(Caught(natural), FoundValues(getProperty, sort.property, rows))
    ensures IsTotalPreorder(Caught(ValueOrder(sort, n, natural)), PlainValues(getProperty, sort.property, rows))
  {
    var order := ValueOrder(sort, n, natural);
    var options := PlainValues(getProperty, sort.property, rows);
    var nulls := Caught((a, b) => NullCompare(natural, true, a, b));
    PlainValuesFound(getProperty, sort.property, rows);
    NullComparePreorder(natural, true, options);
    if sort.sortOrder == n.sortAsc {
      PreorderAgreeing(nulls, Caught(order), options);
    } else {
      ReversedPreorder(nulls, options);
      PreorderAgreeing(Reversed(nulls), Caught(order), options);
    }
  }

  /** Plain property: the row order is a total preorder when every read succeeds and the values are totally preordered. */
  lemma PlainRowOrderPreorder<T(!new)>(sort: Sort, n: Names, natural: (T, T) -> Option<int>,
                                       getProperty: (T, string) -> Access<T>, rows: set<T>)
    requires sort.Sort? && !IsNested(sort.property)
    requires IsTotalPreorder(Caught(natural), FoundValues(getProperty, sort.property, rows))
    requires forall o | o in rows :: PlainValue(getProperty(o, sort.property)).Some?
    ensures IsTotalPreorder((a, b) => RowOrder(sort, n, natural, getProperty, a, b), rows)
  {
    var p := sort.property;
    var order := ValueOrder(sort, n, natural);
    ValueOrderPreorder(sort, n, natural, getProperty, rows);
    var key := (o: T) => if PlainValue(getProperty(o, p)).Some? then PlainValue(getProperty(o, p)).value else None;
    PreorderByKey(key, Caught(order), rows, PlainValues(getProperty, p, rows));
    PreorderAgreeing((a, b) => Caught(order)(key(a), key(b)),
                     (a, b) => RowOrder(sort, n, natural, getProperty, a, b), rows);
  }
}
