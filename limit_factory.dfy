/**
 * Limit resolution (`AbstractLimitFactory`): the page, the rows to
 * display, the single sort and the filter set, all read from the
 * registry's parameters under `prefixWithTableId`.
 */
module LimitFactory {
  import opened Wrappers
  import opened Text
  import opened Names
  import opened Registry
  import opened FilterSets

  /** `Sort`: the no-argument constructor (all fields null) is `NoSort`. */
  datatype Sort = NoSort | Sort(alias: string, property: string, sortOrder: string)

  /**
   * The fields of an `AbstractLimitFactory` besides its registry;
   * `showPagination` is the value of the abstract `showPagination()`.
   */
  datatype LimitConfig = LimitConfig(tableId: string, prefixWithTableId: string, isExported: bool,
                                     showPagination: bool, names: Names)

  /**
   * `getExported`: `exportTableId` is the context's export-table-id
   * parameter. True exactly when it names this table and is not blank.
   */
  function GetExported(exportTableId: Option<string>, tableId: string): (r: bool)
    ensures r <==> exportTableId == Some(tableId) && !IsBlank(Some(tableId))
  {
    if IsBlank(exportTableId) then false else exportTableId.value == tableId
  }

  /** `getCurrentRowsDisplayed`; a `NumberFormatException` is a `Failure`. */
  function GetCurrentRowsDisplayed(m: ParameterMap, cfg: LimitConfig, totalRows: int, rowsDisplayed: int): (r: Result<int>)
    ensures cfg.isExported || !cfg.showPagination ==> r == Success(totalRows)
    ensures (!cfg.isExported && cfg.showPagination
             && IsBlank(FirstValue(m, cfg.prefixWithTableId + cfg.names.currentRowsDisplayed)))
            ==> r == Success(rowsDisplayed)
    ensures r.Failure? <==> !cfg.isExported && cfg.showPagination
                            && !IsBlank(FirstValue(m, cfg.prefixWithTableId + cfg.names.currentRowsDisplayed))
                            && ParseInt(FirstValue(m, cfg.prefixWithTableId + cfg.names.currentRowsDisplayed)).None?
    ensures (!cfg.isExported && cfg.showPagination
             && !IsBlank(FirstValue(m, cfg.prefixWithTableId + cfg.names.currentRowsDisplayed))
             && ParseInt(FirstValue(m, cfg.prefixWithTableId + cfg.names.currentRowsDisplayed)).Some?)
            ==> r == Success(ParseInt(FirstValue(m, cfg.prefixWithTableId + cfg.names.currentRowsDisplayed)).value)
    ensures r.Success? && r.value != totalRows && r.value != rowsDisplayed ==> IntMin <= r.value <= IntMax
  {
    if cfg.isExported || !cfg.showPagination then Success(totalRows)
    else
      var current := FirstValue(m, cfg.prefixWithTableId + cfg.names.currentRowsDisplayed);
      if !IsBlank(current) then
        var n := ParseInt(current);
        if n.Some? then Success(n.value) else Failure("NumberFormatException")
      else Success(rowsDisplayed)
  }

  /** `getPage`: page 1 when exported or when the parameter is null or empty; a malformed page is a `Failure`. */
  function GetPage(m: ParameterMap, cfg: LimitConfig): (r: Result<int>)
    ensures cfg.isExported ==> r == Success(1)
    ensures IsEmpty(FirstValue(m, cfg.prefixWithTableId + cfg.names.page)) ==> r == Success(1)
    ensures r.Failure? <==> !cfg.isExported && !IsEmpty(FirstValue(m, cfg.prefixWithTableId + cfg.names.page))
                            && ParseInt(FirstValue(m, cfg.prefixWithTableId + cfg.names.page)).None?
    ensures (!cfg.isExported && !IsEmpty(FirstValue(m, cfg.prefixWithTableId + cfg.names.page))
             && ParseInt(FirstValue(m, cfg.prefixWithTableId + cfg.names.page)).Some?)
            ==> r == Success(ParseInt(FirstValue(m, cfg.prefixWithTableId + cfg.names.page)).value)
    ensures r.Success? ==> IntMin <= r.value <= IntMax
  {
    if cfg.isExported then Success(1)
    else
      var page := FirstValue(m, cfg.prefixWithTableId + cfg.names.page);
      if !IsEmpty(page) then
        var n := ParseInt(page);
        if n.Some? then Success(n.value) else Failure("NumberFormatException")
      else Success(1)
  }

  /** A page number written back as its decimal parameter resolves to the same page. */
  lemma PageRoundTrip(m: ParameterMap, cfg: LimitConfig, page: int)
    requires !cfg.isExported && IntMin <= page <= IntMax
    requires cfg.prefixWithTableId + cfg.names.page in m
    requires |m[cfg.prefixWithTableId + cfg.names.page]| > 0
    requires m[cfg.prefixWithTableId + cfg.names.page][0] == IntToString(page)
    ensures GetPage(m, cfg) == Success(page)
  {
    ParseIntRoundTrip(page);
  }

  /** A rows-displayed count written back as its parameter resolves to the same count when paginating. */
  lemma RowsDisplayedRoundTrip(m: ParameterMap, cfg: LimitConfig, totalRows: int, rowsDisplayed: int, rows: int)
    requires !cfg.isExported && cfg.showPagination && IntMin <= rows <= IntMax
    requires FirstValue(m, cfg.prefixWithTableId + cfg.names.currentRowsDisplayed) == Some(IntToString(rows))
    ensures GetCurrentRowsDisplayed(m, cfg, totalRows, rowsDisplayed) == Success(rows)
  {
    ParseIntRoundTrip(rows);
    var s := IntToString(rows);
    assert s[0] != ' ' by {
      if rows >= 0 { assert IsDigit(NatToString(rows)[0]); }
    }
  }

  /**
   * `getSortedOrFilteredParameters(parameter)` with `find` the prefix plus
   * the parameter: every registry key starting with `find` whose first
   * value is not blank, keyed by what follows `find`.
   */
  function ScopedParameters(m: ParameterMap, find: string): map<string, string> {
    map k | k in m && StartsWith(k, find) && !IsBlank(FirstValue(m, k)) :: After(k, find) := FirstValue(m, k).value
  }

  /** Each entry of the scoped map comes from the registry key `find + suffix`, and each such key gives one. */
  lemma {:induction false} ScopedParametersEntries(m: ParameterMap, find: string, suffix: string)
    ensures suffix in ScopedParameters(m, find) <==> find + suffix in m && !IsBlank(FirstValue(m, find + suffix))
    ensures suffix in ScopedParameters(m, find) ==> Some(ScopedParameters(m, find)[suffix]) == FirstValue(m, find + suffix)
  {
    var key := find + suffix;
    assert StartsWith(key, find) && After(key, find) == suffix;
  }

  /** `getProperty`: the companion alias parameter when it is not blank, otherwise the argument itself. */
  function GetProperty(m: ParameterMap, cfg: LimitConfig, propertyOrAlias: string): (r: string)
    ensures var alias := FirstValue(m, cfg.prefixWithTableId + cfg.names.alias + propertyOrAlias);
      && (!IsBlank(alias) ==> Some(r) == alias)
      && (IsBlank(alias) ==> r == propertyOrAlias)
    ensures !IsBlank(Some(propertyOrAlias)) ==> !IsBlank(Some(r))
  {
    var property := FirstValue(m, cfg.prefixWithTableId + cfg.names.alias + propertyOrAlias);
    if !IsBlank(property) then property.value else propertyOrAlias
  }

  /** A filter-map key that `getFilterSet(map)` turns into a filter. */
  predicate IsFilterEntry(f: map<string, string>, n: Names, key: string) {
    key in f && key != n.action && !IsBlank(Some(f[key]))
  }

  /** The action `getFilterSet(map)` reads: the value under the ACTION key, or null. */
  function ActionOf(f: map<string, string>, n: Names): Option<string> {
    if n.action in f then Some(f[n.action]) else None
  }

  /** A filter `getFilterSet(map)` builds from entry `x.alias` of `f`, property resolved through the alias parameters. */
  predicate IsFilterOf(x: Filter, f: map<string, string>, m: ParameterMap, cfg: LimitConfig) {
    && IsFilterEntry(f, cfg.names, x.alias)
    && x.value == f[x.alias]
    && x.property == GetProperty(m, cfg, x.alias)
  }

  predicate HasAlias(filters: seq<Filter>, alias: string) {
    exists i :: 0 <= i < |filters| && filters[i].alias == alias
  }

  predicate DistinctAliases(filters: seq<Filter>) {
    forall i, j :: 0 <= i < j < |filters| ==> filters[i].alias != filters[j].alias
  }

  /**
   * What `getFilterSet(map)` promises: the action from the ACTION key and
   * one filter per non-ACTION, non-blank entry, no other and none twice.
   */
  predicate BuiltFrom(fs: FilterSet, f: map<string, string>, m: ParameterMap, cfg: LimitConfig) {
    && fs.action == ActionOf(f, cfg.names)
    && fs.filters.Some?
    && (forall x :: x in fs.filters.value ==> IsFilterOf(x, f, m, cfg))
    && (forall k :: k in f && IsFilterEntry(f, cfg.names, k) ==> HasAlias(fs.filters.value, k))
    && DistinctAliases(fs.filters.value)
  }

  /** The registry's map with every key starting with `find` removed. */
  function WithoutPrefix(m: ParameterMap, find: string): ParameterMap {
    map k | k in m && !StartsWith(k, find) :: m[k]
  }

  class LimitFactory {
    const config: LimitConfig
    const registry: ParameterRegistry

    constructor (config: LimitConfig, registry: ParameterRegistry)
      ensures this.config == config && this.registry == registry
    {
      this.config := config;
      this.registry := registry;
    }

    /** `getSortedOrFilteredParameters`: reads the registry, changes nothing. */
    method GetSortedOrFilteredParameters(parameter: string) returns (subset: map<string, string>)
      ensures subset == ScopedParameters(registry.parameterMap, config.prefixWithTableId + parameter)
    {
      var find := config.prefixWithTableId + parameter;
      var m := registry.parameterMap;
      subset := map[];
      var remaining := m.Keys;
      while remaining != {}
        invariant remaining <= m.Keys
        invariant forall s :: s in subset <==> find + s in m && find + s !in remaining && !IsBlank(FirstValue(m, find + s))
        invariant forall s :: s in subset ==> Some(subset[s]) == FirstValue(m, find + s)
        decreases remaining
      {
        var key :| key in remaining;
        remaining := remaining - {key};
        if StartsWith(key, find) {
          var value := registry.GetParameter(key);
          if !IsBlank(value) {
            var propertyOrAlias := After(key, find);
            subset := subset[propertyOrAlias := value.value];
          }
        }
      }
      forall s ensures s in subset <==> s in ScopedParameters(m, find) {
        ScopedParametersEntries(m, find, s);
      }
      forall s | s in subset ensures subset[s] == ScopedParameters(m, find)[s] {
        ScopedParametersEntries(m, find, s);
      }
    }

    /**
     * `getSort`. The first entry in the sort map's iteration order decides;
     * HashMap order is unspecified, so the entry is chosen arbitrarily and
     * the contract holds for every choice.
     */
    method GetSort() returns (s: Sort)
      ensures var sorted := ScopedParameters(registry.parameterMap, config.prefixWithTableId + config.names.sort);
        && (s.Sort? ==> && s.alias in sorted && s.sortOrder == sorted[s.alias]
                        && s.sortOrder != config.names.sortDefault
                        && s.property == GetProperty(registry.parameterMap, config, s.alias))
        && (s.NoSort? ==> |sorted| == 0 || exists k :: k in sorted && sorted[k] == config.names.sortDefault)
    {
      var sortedParameters := GetSortedOrFilteredParameters(config.names.sort);
      if sortedParameters == map[] {
        return NoSort;
      }
      var propertyOrAlias :| propertyOrAlias in sortedParameters;
      var value := sortedParameters[propertyOrAlias];
      if value == config.names.sortDefault {
        return NoSort;
      }
      var property := GetProperty(registry.parameterMap, config, propertyOrAlias);
      return Sort(propertyOrAlias, property, value);
    }

    /** `getFilterSet(map)`: a null map gives the empty set; filters come out in the map's iteration order. */
    method GetFilterSetFrom(filtered: Option<map<string, string>>) returns (fs: FilterSet)
      ensures filtered.None? ==> fs == EmptyFilterSet
      ensures filtered.Some? ==> BuiltFrom(fs, filtered.value, registry.parameterMap, config)
    {
      if filtered.None? {
        return EmptyFilterSet;
      }
      var f := filtered.value;
      var n := config.names;
      var action := if n.action in f then Some(f[n.action]) else None;
      var filters: seq<Filter> := [];
      var remaining := f.Keys;
      while remaining != {}
        invariant remaining <= f.Keys
        invariant forall x :: x in filters ==> IsFilterOf(x, f, registry.parameterMap, config) && x.alias !in remaining
        invariant forall k :: k in f && k !in remaining && IsFilterEntry(f, n, k) ==> HasAlias(filters, k)
        invariant DistinctAliases(filters)
        decreases remaining
      {
        var propertyOrAlias :| propertyOrAlias in remaining;
        remaining := remaining - {propertyOrAlias};
        var value := f[propertyOrAlias];
        if IsBlank(Some(value)) || propertyOrAlias == n.action {
          continue;
        }
        var property := GetProperty(registry.parameterMap, config, propertyOrAlias);
        var before := filters;
        filters := before + [Filter(propertyOrAlias, property, value)];
        assert filters[|before|].alias == propertyOrAlias;
        forall k | HasAlias(before, k) ensures HasAlias(filters, k) {
          var i :| 0 <= i < |before| && before[i].alias == k;
          assert filters[i].alias == k;
        }
      }
      fs := FilterSet(action, Some(filters));
    }

    /** `removeFilterParameters`: drops every registry key under the filter prefix, nothing else. */
    method RemoveFilterParameters()
      modifies registry
      ensures registry.parameterMap
           == WithoutPrefix(old(registry.parameterMap), config.prefixWithTableId + config.names.filter)
    {
      var find := config.prefixWithTableId + config.names.filter;
      var names := registry.parameterMap.Keys;
      while names != {}
        invariant names <= old(registry.parameterMap).Keys
        invariant forall k :: k in registry.parameterMap <==>
          k in old(registry.parameterMap) && (k in names || !StartsWith(k, find))
        invariant forall k :: k in registry.parameterMap ==> registry.parameterMap[k] == old(registry.parameterMap)[k]
        decreases names
      {
        var name :| name in names;
        names := names - {name};
        if StartsWith(name, find) {
          registry.RemoveParameter(name);
        }
      }
    }

    /**
     * `getFilterSet()`: on the clear action the filter parameters leave the
     * registry and the set keeps the action with no filters; otherwise the
     * registry is untouched.
     */
    method GetFilterSet() returns (fs: FilterSet)
      modifies registry
      ensures var f := ScopedParameters(old(registry.parameterMap), config.prefixWithTableId + config.names.filter);
        && fs.action == ActionOf(f, config.names)
        && (IsCleared(fs, config.names) ==>
              && fs.filters == Some([])
              && registry.parameterMap
                 == WithoutPrefix(old(registry.parameterMap), config.prefixWithTableId + config.names.filter))
        && (!IsCleared(fs, config.names) ==>
              && registry.parameterMap == old(registry.parameterMap)
              && BuiltFrom(fs, f, old(registry.parameterMap), config))
    {
      var filteredParameters := GetSortedOrFilteredParameters(config.names.filter);
      fs := GetFilterSetFrom(Some(filteredParameters));
      if IsCleared(fs, config.names) {
        RemoveFilterParameters();
        fs := FilterSet(fs.action, Some([]));
      }
    }
  }
}
