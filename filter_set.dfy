/**
 * `Filter` and `FilterSet`: the filter directive of a table request, an
 * action and the per-column filters, with the read-only lookups by alias.
 */
module FilterSets {
  import opened Wrappers
  import opened Names

  datatype Filter = Filter(alias: string, property: string, value: string)

  /**
   * `action` is null when the request has no action parameter; `filters`
   * is null only for a set made by the no-argument constructor.
   */
  datatype FilterSet = FilterSet(action: Option<string>, filters: Option<seq<Filter>>)

  /** The no-argument constructor: both fields null. */
  const EmptyFilterSet: FilterSet := FilterSet(None, None)

  /** `isFiltered`: the filter action with at least one filter. */
  predicate IsFiltered(fs: FilterSet, n: Names) {
    fs.action == Some(n.filterAction) && fs.filters.Some? && |fs.filters.value| > 0
  }

  /** `isCleared`: the clear action, whatever the filters are. */
  predicate IsCleared(fs: FilterSet, n: Names) {
    fs.action == Some(n.clearAction)
  }

  /** Position of the first filter with the given alias, or `|filters|` when there is none. */
  function IndexOfAlias(filters: seq<Filter>, alias: string): (i: nat)
    ensures i <= |filters|
    ensures i < |filters| ==> filters[i].alias == alias
    ensures forall j :: 0 <= j < i ==> filters[j].alias != alias
  {
    if filters == [] then 0
    else if filters[0].alias == alias then 0
    else 1 + IndexOfAlias(filters[1..], alias)
  }

  /** The linear search of `getFilterValue` over the filter array. */
  function FilterValueIn(filters: seq<Filter>, alias: string): (r: string)
    ensures var i := IndexOfAlias(filters, alias);
      r == if i < |filters| then filters[i].value else ""
  {
    if filters == [] then ""
    else if filters[0].alias == alias then filters[0].value
    else FilterValueIn(filters[1..], alias)
  }

  /** The linear search of `getFilter` over the filter array. */
  function FilterIn(filters: seq<Filter>, alias: string): (r: Option<Filter>)
    ensures var i := IndexOfAlias(filters, alias);
      r == if i < |filters| then Some(filters[i]) else None
  {
    if filters == [] then None
    else if filters[0].alias == alias then Some(filters[0])
    else FilterIn(filters[1..], alias)
  }

  /**
   * `getFilterValue`: the value of the first filter with this alias, or
   * `""`. The filter array must be non-null (a `NullPointerException`
   * otherwise, as on a set made by the no-argument constructor).
   */
  function GetFilterValue(fs: FilterSet, alias: string): (r: string)
    requires fs.filters.Some?
    ensures (forall f :: f in fs.filters.value ==> f.alias != alias) ==> r == ""
    ensures forall i :: 0 <= i < |fs.filters.value| && fs.filters.value[i].alias == alias
              && (forall j :: 0 <= j < i ==> fs.filters.value[j].alias != alias)
              ==> r == fs.filters.value[i].value
  {
    FilterValueIn(fs.filters.value, alias)
  }

  /** `getFilter`: the first filter with this alias, or null; same precondition. */
  function GetFilter(fs: FilterSet, alias: string): (r: Option<Filter>)
    requires fs.filters.Some?
    ensures r.Some? ==> r.value in fs.filters.value && r.value.alias == alias
    ensures r.None? <==> forall f :: f in fs.filters.value ==> f.alias != alias
    ensures forall i :: 0 <= i < |fs.filters.value| && fs.filters.value[i].alias == alias
              && (forall j :: 0 <= j < i ==> fs.filters.value[j].alias != alias)
              ==> r == Some(fs.filters.value[i])
  {
    FilterIn(fs.filters.value, alias)
  }

  /** The two lookups agree: a found filter's value is the filter value, no filter means `""`. */
  lemma FilterValueOfFilter(fs: FilterSet, alias: string)
    requires fs.filters.Some?
    ensures GetFilter(fs, alias).Some? ==> GetFilterValue(fs, alias) == GetFilter(fs, alias).value.value
    ensures GetFilter(fs, alias).None? ==> GetFilterValue(fs, alias) == ""
  {
  }

  /** With distinct action constants a set is never both filtered and cleared. */
  lemma FilteredExcludesCleared(fs: FilterSet, n: Names)
    requires n.filterAction != n.clearAction
    ensures !(IsFiltered(fs, n) && IsCleared(fs, n))
  {
  }

  /** A cleared set with no filters is not filtered, whatever the constants. */
  lemma ClearedEmptyIsNotFiltered(n: Names)
    ensures !IsFiltered(FilterSet(Some(n.clearAction), Some([])), n)
    ensures IsCleared(FilterSet(Some(n.clearAction), Some([])), n)
  {
  }
}
