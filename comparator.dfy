/**
 * Row comparators: `NullSafeBeanComparator` and the commons-collections
 * and commons-beanutils comparators the row sort composes
 * (`NullComparator`, `ReverseComparator`, `BeanComparator`), the latter
 * specified by their documented ordering contract. A comparator is
 * partial: `None` is the `ClassCastException` a natural order throws on
 * two values it cannot compare.
 */
module Comparators {
  import opened Wrappers
  import opened Beans

  /** A comparator orders `s` as a total preorder: any two are comparable, and `<= 0` is transitive. */
  ghost predicate IsTotalPreorder<T(!new)>(c: (T, T) -> int, s: set<T>) {
    && (forall x, y | x in s && y in s :: c(x, y) <= 0 || c(y, x) <= 0)
    && (forall x, y, z | x in s && y in s && z in s :: c(x, y) <= 0 && c(y, z) <= 0 ==> c(x, z) <= 0)
  }

  /** A comparison whose exception is caught and read as "equal". */
  function OrZero(r: Option<int>): int {
    if r.Some? then r.value else 0
  }

  /** `c` with every exception caught as 0: the order a catching caller sees. */
  function Caught<T(!new)>(c: (T, T) -> Option<int>): (r: (T, T) -> int)
    ensures forall a, b :: r(a, b) == OrZero(c(a, b))
  {
    (a, b) => OrZero(c(a, b))
  }

  /** `NullComparator(natural, nullsAreHigh)`: nulls above or below every value, otherwise `natural`. */
  function NullCompare<T>(natural: (T, T) -> Option<int>, nullsAreHigh: bool, a: Option<T>, b: Option<T>): (r: Option<int>)
    ensures r.None? <==> a.Some? && b.Some? && natural(a.value, b.value).None?
    ensures a.None? && b.None? ==> r == Some(0)
    ensures a.None? && b.Some? ==> r.Some? && (r.value > 0 <==> nullsAreHigh) && r.value != 0
    ensures a.Some? && b.None? ==> r.Some? && (r.value < 0 <==> nullsAreHigh) && r.value != 0
    ensures a.Some? && b.Some? ==> r == natural(a.value, b.value)
  {
    match (a, b)
    case (None, None) => Some(0)
    case (None, Some(_)) => Some(if nullsAreHigh then 1 else -1)
    case (Some(_), None) => Some(if nullsAreHigh then -1 else 1)
    case (Some(x), Some(y)) => natural(x, y)
  }

  /** `NullComparator` keeps a total preorder of the values a total preorder once null is added. */
  lemma NullComparePreorder<T(!new)>(natural: (T, T) -> Option<int>, nullsAreHigh: bool, s: set<Option<T>>)
    requires IsTotalPreorder(Caught(natural), set o | o in s && o.Some? :: o.value)
    ensures IsTotalPreorder(Caught((a, b) => NullCompare(natural, nullsAreHigh, a, b)), s)
  {
    var values := set o | o in s && o.Some? :: o.value;
    forall x, y | x in s && y in s && x.Some? && y.Some?
      ensures x.value in values && y.value in values
    {
    }
  }

  /** `ReverseComparator(c)`: exceptions of `c` pass through. */
  function Reversed<T(!new), R>(c: (T, T) -> R): (r: (T, T) -> R)
    ensures forall a, b :: r(a, b) == c(b, a)
  {
    (a, b) => c(b, a)
  }

  lemma ReversedPreorder<T(!new)>(c: (T, T) -> int, s: set<T>)
    requires IsTotalPreorder(c, s)
    ensures IsTotalPreorder(Reversed(c), s)
  {
  }

  /** The value `getProperty` leaves for `NullSafeBeanComparator`: a nested null reads as null; `None` on any other failure. */
  function NullSafeValue<T>(a: Access<T>): (r: Option<Option<T>>)
    ensures r.None? <==> a.Error?
    ensures r == Some(None) <==> a.Null? || a.NestedNull?
  {
    match a
    case Found(v) => Some(Some(v))
    case Null => Some(None)
    case NestedNull => Some(None)
    case Error => None
  }

  /** `NullSafeBeanComparator`: the property (null compares whole objects), the wrapped comparator and the null placement. */
  datatype NullSafeBeanComparator<!T> = NullSafeBeanComparator(property: Option<string>,
                                                             comparator: (T, T) -> Option<int>, nullsAreHigh: bool)

  /** The two-argument constructor: nulls are high by default. */
  function NewNullSafeBeanComparator<T>(property: Option<string>, c: (T, T) -> Option<int>): (r: NullSafeBeanComparator<T>)
    ensures r.property == property && r.comparator == c && r.nullsAreHigh
  {
    NullSafeBeanComparator(property, c, true)
  }

  /**
   * `NullSafeBeanComparator.compare`; `getProperty` stands for
   * `PropertyUtils.getProperty`. `None` is an exception leaving the
   * method: only the whole-object comparison, outside the `try`, lets one out.
   */
  function Compare<T(==)>(nc: NullSafeBeanComparator<T>, getProperty: (T, string) -> Access<T>, o1: T, o2: T)
    : (r: Option<int>)
    ensures nc.property.None? ==> r == nc.comparator(o1, o2)
    ensures nc.property.Some? ==> r.Some?
    ensures nc.property.Some? && (getProperty(o1, nc.property.value).Error? || getProperty(o2, nc.property.value).Error?)
            ==> r == Some(0)
  {
    if nc.property.None? then nc.comparator(o1, o2)
    else
      var val1 := NullSafeValue(getProperty(o1, nc.property.value));
      var val2 := NullSafeValue(getProperty(o2, nc.property.value));
      if val1.None? || val2.None? then Some(0)
      else if val1.value == val2.value then Some(0)
      else if val1.value.None? then Some(if nc.nullsAreHigh then 1 else -1)
      else if val2.value.None? then Some(if nc.nullsAreHigh then -1 else 1)
      else Some(OrZero(nc.comparator(val1.value.value, val2.value.value)))
  }

  /** Whether `o`'s property reads as null for `NullSafeBeanComparator` (a nested null counts). */
  predicate ReadsNull<T>(getProperty: (T, string) -> Access<T>, property: string, o: T) {
    getProperty(o, property).Null? || getProperty(o, property).NestedNull?
  }

  /** Identical resolved values, both null included, compare as 0 whatever the wrapped comparator says. */
  lemma CompareSameValue<T>(nc: NullSafeBeanComparator<T>, getProperty: (T, string) -> Access<T>, o1: T, o2: T)
    requires nc.property.Some?
    requires NullSafeValue(getProperty(o1, nc.property.value)) == NullSafeValue(getProperty(o2, nc.property.value))
    ensures Compare(nc, getProperty, o1, o2) == Some(0)
  {
  }

  /**
   * Exactly one side null: that side is greater when nulls are high and
   * smaller otherwise, and swapping the arguments negates the result.
   */
  lemma CompareOneNull<T>(nc: NullSafeBeanComparator<T>, getProperty: (T, string) -> Access<T>, o1: T, o2: T)
    requires nc.property.Some?
    requires ReadsNull(getProperty, nc.property.value, o1)
    requires getProperty(o2, nc.property.value).Found?
    ensures Compare(nc, getProperty, o1, o2) == Some(if nc.nullsAreHigh then 1 else -1)
    ensures Compare(nc, getProperty, o2, o1) == Some(-Compare(nc, getProperty, o1, o2).value)
  {
  }

  /**
   * Two non-null, different values: the wrapped comparator decides, and
   * its exception (two values it cannot compare) is caught as 0.
   */
  lemma CompareBothFound<T>(nc: NullSafeBeanComparator<T>, getProperty: (T, string) -> Access<T>, o1: T, o2: T)
    requires nc.property.Some?
    requires getProperty(o1, nc.property.value).Found? && getProperty(o2, nc.property.value).Found?
    requires getProperty(o1, nc.property.value).value != getProperty(o2, nc.property.value).value
    ensures var c := nc.comparator(getProperty(o1, nc.property.value).value, getProperty(o2, nc.property.value).value);
            && (c.Some? ==> Compare(nc, getProperty, o1, o2) == c)
            && (c.None? ==> Compare(nc, getProperty, o1, o2) == Some(0))
  {
  }

  /** The non-null property values of the rows in `s`. */
  ghost function FoundValues<T(!new)>(getProperty: (T, string) -> Access<T>, property: string, s: set<T>): set<T> {
    set o | o in s && getProperty(o, property).Found? :: getProperty(o, property).value
  }

  /**
   * On rows whose property reads without error, `NullSafeBeanComparator`
   * is a total preorder whenever the wrapped comparator is one on the
   * values: sorting by it is well defined.
   */
  lemma ComparePreorder<T(!new)>(nc: NullSafeBeanComparator<T>, getProperty: (T, string) -> Access<T>, s: set<T>)
    requires nc.property.Some?
    requires forall o | o in s :: !getProperty(o, nc.property.value).Error?
    requires IsTotalPreorder(Caught(nc.comparator), FoundValues(getProperty, nc.property.value, s))
    ensures IsTotalPreorder(Caught((a, b) => Compare(nc, getProperty, a, b)), s)
  {
    var p := nc.property.value;
    var values := FoundValues(getProperty, p, s);
    forall o | o in s && getProperty(o, p).Found? ensures getProperty(o, p).value in values {
    }
  }

  /**
   * The value `BeanComparator` hands to its comparator: a null is passed
   * on; any exception (a nested null included) propagates, `None`.
   */
  function PlainValue<T>(a: Access<T>): (r: Option<Option<T>>)
    ensures r.None? <==> a.NestedNull? || a.Error?
    ensures r == Some(None) <==> a.Null?
  {
    match a
    case Found(v) => Some(Some(v))
    case Null => Some(None)
    case NestedNull => None
    case Error => None
  }

  /**
   * `BeanComparator(property, c).compare`: `c` on the two property values;
   * `None` when either read throws or `c` throws, nothing being caught.
   */
  function BeanCompare<T>(property: string, c: (Option<T>, Option<T>) -> Option<int>,
                          getProperty: (T, string) -> Access<T>, o1: T, o2: T): (r: Option<int>)
    ensures r.None? <==> || PlainValue(getProperty(o1, property)).None? || PlainValue(getProperty(o2, property)).None?
                         || c(PlainValue(getProperty(o1, property)).value, PlainValue(getProperty(o2, property)).value).None?
    ensures r.Some? ==> r == c(PlainValue(getProperty(o1, property)).value, PlainValue(getProperty(o2, property)).value)
  {
    var val1 := PlainValue(getProperty(o1, property));
    var val2 := PlainValue(getProperty(o2, property));
    if val1.None? || val2.None? then None else c(val1.value, val2.value)
  }
}
