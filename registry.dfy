/**
 * The parameter registry of a table (`AbstractRegistry`): it splits the
 * request's `name -> String[]` map into table-scoped and user-defined
 * parameters, falls back to persisted state when the request carries no
 * table-scoped parameter, and serves `getParameter`, `addParameter` and
 * `removeParameter` afterwards.
 */
module Registry {
  import opened Wrappers
  import opened Text
  import opened Names

  /** A request or registry parameter map: parameter name to its values. */
  type ParameterMap = map<string, seq<string>>

  /** The export-table-id and instance-marker parameters are never stored. */
  predicate IsThrowaway(n: Names, name: string) {
    name == n.exportTableId || name == n.instance
  }

  /** The eight `startsWith` tests of `setParameterMap`. */
  predicate IsTableParameter(n: Names, prefixWithTableId: string, name: string) {
    StartsWith(name, prefixWithTableId + n.page)
    || StartsWith(name, prefixWithTableId + n.currentRowsDisplayed)
    || StartsWith(name, prefixWithTableId + n.sort)
    || StartsWith(name, prefixWithTableId + n.filter)
    || StartsWith(name, prefixWithTableId + n.exportView)
    || StartsWith(name, prefixWithTableId + n.exportFileName)
    || StartsWith(name, prefixWithTableId + n.alias)
    || StartsWith(name, prefixWithTableId + n.treeOpen)
  }

  /** The table-scoped partition of a request. */
  function TablePartition(request: ParameterMap, n: Names, prefixWithTableId: string): ParameterMap {
    map k | k in request && !IsThrowaway(n, k) && IsTableParameter(n, prefixWithTableId, k) :: request[k]
  }

  /** The user-defined partition of a request: kept only with auto-include on. */
  function UserPartition(request: ParameterMap, n: Names, prefixWithTableId: string, autoInclude: bool): ParameterMap {
    map k | k in request && autoInclude && !IsThrowaway(n, k) && !IsTableParameter(n, prefixWithTableId, k) :: request[k]
  }

  /**
   * `handleState`: the persisted parameters (`persisted`, the value the
   * state store's `getParameters` returns, `None` for null) replace the
   * table partition only when that partition is empty.
   */
  function HandleState(table: ParameterMap, persisted: Option<ParameterMap>): ParameterMap {
    if |table| == 0 && persisted.Some? then persisted.value else table
  }

  /** The registry's parameter map after `setParameterMap`: state first, then user parameters put over it. */
  function ResolvedParameters(request: ParameterMap, persisted: Option<ParameterMap>, n: Names,
                              prefixWithTableId: string, autoInclude: bool): ParameterMap {
    HandleState(TablePartition(request, n, prefixWithTableId), persisted)
      + UserPartition(request, n, prefixWithTableId, autoInclude)
  }

  /** `getParameter`: the first value, or null when the name is absent or has no values. */
  function FirstValue(m: ParameterMap, name: string): (r: Option<string>)
    ensures r.Some? <==> name in m && |m[name]| > 0
    ensures r.Some? ==> r.value == m[name][0]
  {
    if name in m && |m[name]| > 0 then Some(m[name][0]) else None
  }

  // ---------------------------------------------------------------------
  // Properties of the partitioning

  /** A name is table-scoped iff it starts with the prefix followed by one of the eight segments. */
  lemma TableParameterIffSegment(n: Names, prefixWithTableId: string, name: string)
    ensures IsTableParameter(n, prefixWithTableId, name)
        <==> exists i :: 0 <= i < |n.Segments()| && StartsWith(name, prefixWithTableId + n.Segments()[i])
  {
    var segs := n.Segments();
    assert segs[0] == n.page && segs[1] == n.currentRowsDisplayed && segs[2] == n.sort && segs[3] == n.filter;
    assert segs[4] == n.exportView && segs[5] == n.exportFileName && segs[6] == n.alias && segs[7] == n.treeOpen;
  }

  /** The throw-away parameters are in neither partition, nor in the resolved map unless persisted state brings them. */
  lemma ThrowawayNeverCopied(request: ParameterMap, persisted: Option<ParameterMap>, n: Names,
                             prefixWithTableId: string, autoInclude: bool, name: string)
    requires IsThrowaway(n, name)
    ensures name !in TablePartition(request, n, prefixWithTableId)
    ensures name !in UserPartition(request, n, prefixWithTableId, autoInclude)
    ensures name in ResolvedParameters(request, persisted, n, prefixWithTableId, autoInclude)
        ==> |TablePartition(request, n, prefixWithTableId)| == 0 && persisted.Some? && name in persisted.value
  {
  }

  /**
   * Every other request parameter lands in exactly one place: the table
   * partition when table-scoped, else the user partition when auto-include
   * is on, else nowhere; its values are copied unchanged.
   */
  lemma PartitionOfRequestParameter(request: ParameterMap, n: Names, prefixWithTableId: string,
                                    autoInclude: bool, name: string)
    requires name in request && !IsThrowaway(n, name)
    ensures var t, u := TablePartition(request, n, prefixWithTableId), UserPartition(request, n, prefixWithTableId, autoInclude);
      && (name in t <==> IsTableParameter(n, prefixWithTableId, name))
      && (name in u <==> autoInclude && !IsTableParameter(n, prefixWithTableId, name))
      && !(name in t && name in u)
      && (name in t ==> t[name] == request[name])
      && (name in u ==> u[name] == request[name])
  {
  }

  /** Persisted state is ignored whenever the request has table-scoped parameters: no merge. */
  lemma StateOnlyWhenNoTableParameters(table: ParameterMap, p1: Option<ParameterMap>, p2: Option<ParameterMap>)
    ensures |table| > 0 ==> HandleState(table, p1) == table == HandleState(table, p2)
    ensures |table| == 0 ==> HandleState(table, p1) == (if p1.Some? then p1.value else map[])
  {
  }

  /** User-defined parameters win over same-named state parameters. */
  lemma UserParametersOverride(request: ParameterMap, persisted: Option<ParameterMap>, n: Names,
                               prefixWithTableId: string, autoInclude: bool, name: string)
    ensures var r, u := ResolvedParameters(request, persisted, n, prefixWithTableId, autoInclude),
                        UserPartition(request, n, prefixWithTableId, autoInclude);
      var s := HandleState(TablePartition(request, n, prefixWithTableId), persisted);
      && (name in r <==> name in s || name in u)
      && (name in u ==> r[name] == u[name])
      && (name !in u && name in s ==> r[name] == s[name])
  {
  }

  /**
   * A request without table-scoped parameters, with auto-include off,
   * resolves to the persisted parameters verbatim, or to nothing.
   */
  lemma FallbackVerbatim(request: ParameterMap, persisted: Option<ParameterMap>, n: Names, prefixWithTableId: string)
    requires forall k :: k in request ==> !IsTableParameter(n, prefixWithTableId, k)
    ensures ResolvedParameters(request, persisted, n, prefixWithTableId, false)
         == if persisted.Some? then persisted.value else map[]
  {
    assert TablePartition(request, n, prefixWithTableId) == map[];
    assert UserPartition(request, n, prefixWithTableId, false) == map[];
  }

  /** `addParameter` then `getParameter` on the same name gives the first added value; other names are unaffected. */
  lemma GetAfterAdd(m: ParameterMap, name: string, values: seq<string>, other: string)
    ensures FirstValue(m[name := values], name) == if |values| > 0 then Some(values[0]) else None
    ensures other != name ==> FirstValue(m[name := values], other) == FirstValue(m, other)
  {
  }

  /** After `removeParameter` the name reads as null; other names are unaffected. */
  lemma GetAfterRemove(m: ParameterMap, name: string, other: string)
    ensures FirstValue(m - {name}, name) == None
    ensures other != name ==> FirstValue(m - {name}, other) == FirstValue(m, other)
  {
  }

  // ---------------------------------------------------------------------

  class ParameterRegistry {
    var parameterMap: ParameterMap
    const names: Names
    const tableId: string
    const prefixWithTableId: string
    const autoIncludeParameters: bool

    constructor (names: Names, tableId: string, prefixWithTableId: string, autoIncludeParameters: bool)
      ensures this.names == names && this.tableId == tableId
      ensures this.prefixWithTableId == prefixWithTableId
      ensures this.autoIncludeParameters == autoIncludeParameters
      ensures parameterMap == map[]
    {
      this.names := names;
      this.tableId := tableId;
      this.prefixWithTableId := prefixWithTableId;
      this.autoIncludeParameters := autoIncludeParameters;
      parameterMap := map[];
    }

    /**
     * `setParameterMap`: `request` is the context's parameter map and
     * `persisted` what the state store would return for this table.
     * Returns the map `handleState` hands to the save hook.
     */
    method SetParameterMap(request: ParameterMap, persisted: Option<ParameterMap>) returns (saved: ParameterMap)
      modifies this
      ensures saved == HandleState(TablePartition(request, names, prefixWithTableId), persisted)
      ensures parameterMap == saved + UserPartition(request, names, prefixWithTableId, autoIncludeParameters)
      ensures parameterMap == ResolvedParameters(request, persisted, names, prefixWithTableId, autoIncludeParameters)
    {
      var tableParameterMap: ParameterMap := map[];
      var userDefinedParameterMap: ParameterMap := map[];
      var remaining := request.Keys;
      while remaining != {}
        invariant remaining <= request.Keys
        invariant forall k :: k in tableParameterMap <==>
          k in request && k !in remaining && !IsThrowaway(names, k) && IsTableParameter(names, prefixWithTableId, k)
        invariant forall k :: k in userDefinedParameterMap <==>
          k in request && k !in remaining && autoIncludeParameters && !IsThrowaway(names, k)
          && !IsTableParameter(names, prefixWithTableId, k)
        invariant forall k :: k in tableParameterMap ==> tableParameterMap[k] == request[k]
        invariant forall k :: k in userDefinedParameterMap ==> userDefinedParameterMap[k] == request[k]
        decreases remaining
      {
        var paramName :| paramName in remaining;
        remaining := remaining - {paramName};
        if IsThrowaway(names, paramName) {
          continue;
        }
        if IsTableParameter(names, prefixWithTableId, paramName) {
          tableParameterMap := tableParameterMap[paramName := request[paramName]];
        } else if autoIncludeParameters {
          userDefinedParameterMap := userDefinedParameterMap[paramName := request[paramName]];
        }
      }
      assert tableParameterMap == TablePartition(request, names, prefixWithTableId);
      assert userDefinedParameterMap == UserPartition(request, names, prefixWithTableId, autoIncludeParameters);
      saved := HandleState(tableParameterMap, persisted);
      parameterMap := saved + userDefinedParameterMap;
    }

    /** `addParameter`: only `name` changes. */
    method AddParameter(name: string, values: seq<string>)
      modifies this
      ensures parameterMap == old(parameterMap)[name := values]
    {
      parameterMap := parameterMap[name := values];
    }

    /** `getParameter`. */
    function GetParameter(name: string): Option<string>
      reads this
    {
      FirstValue(parameterMap, name)
    }

    /** `removeParameter`: only `name` disappears. */
    method RemoveParameter(name: string)
      modifies this
      ensures parameterMap == old(parameterMap) - {name}
    {
      parameterMap := parameterMap - {name};
    }
  }
}
