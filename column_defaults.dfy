/**
 * `ColumnDefaults`: the fallback rules that fill in a column's cell
 * renderers, parse pattern, format, alias, flags and calc titles from
 * the preferences and the message bundle.
 */
module ColumnDefaults {
  import opened Wrappers
  import opened Text
  import opened Names

  /** The three cell kinds of `getCell`, `getFilterCell` and `getHeaderCell`. */
  datatype CellKind = DisplayCell | FilterCell | HeaderCell

  /** The preference-key prefix of a cell kind. */
  function CellPreferencePrefix(kind: CellKind, n: Names): string {
    match kind
    case DisplayCell => n.columnCell
    case FilterCell => n.columnFilterCell
    case HeaderCell => n.columnHeaderCell
  }

  /** The built-in cell name a blank cell of that kind falls back to. */
  function DefaultCellName(kind: CellKind, n: Names): string {
    match kind
    case DisplayCell => n.cellDisplay
    case FilterCell => n.cellFilter
    case HeaderCell => n.cellHeader
  }

  /**
   * `getCell`, `getFilterCell` and `getHeaderCell`: a named cell resolves
   * through its preference, or stays as named when that is blank; a blank
   * cell takes the preference of the kind's default cell.
   */
  function GetCell(kind: CellKind, cell: Option<string>, preference: string -> Option<string>, n: Names): (r: Option<string>)
    ensures !IsBlank(cell) ==> !IsBlank(r)
    ensures !IsBlank(cell) ==> r == cell || r == preference(CellPreferencePrefix(kind, n) + cell.value)
    ensures IsBlank(cell) ==> r == preference(CellPreferencePrefix(kind, n) + DefaultCellName(kind, n))
  {
    if !IsBlank(cell) then
      var result := preference(CellPreferencePrefix(kind, n) + cell.value);
      if IsBlank(result) then cell else result
    else preference(CellPreferencePrefix(kind, n) + DefaultCellName(kind, n))
  }

  /** A named cell whose preference is set resolves to that preference. */
  lemma NamedCellUsesPreference(kind: CellKind, cell: string, preference: string -> Option<string>, n: Names)
    requires !IsBlank(Some(cell)) && !IsBlank(preference(CellPreferencePrefix(kind, n) + cell))
    ensures GetCell(kind, Some(cell), preference, n) == preference(CellPreferencePrefix(kind, n) + cell)
  {
  }

  /** `getParse`: a non-blank parse is kept; a blank one on a date column takes the date parse preference. */
  function GetParse(isDate: bool, parse: Option<string>, preference: string -> Option<string>, n: Names): (r: Option<string>)
    ensures !IsBlank(parse) || !isDate ==> r == parse
    ensures IsBlank(parse) && isDate ==> r == preference(n.columnParse + n.date)
  {
    if !IsBlank(parse) then parse
    else if isDate then preference(n.columnParse + n.date)
    else parse
  }

  /** `isNamedFormat`: no `#`, `/` or `-`, the characters of an inline number or date pattern. */
  predicate IsNamedFormat(format: string) {
    forall i :: 0 <= i < |format| ==> format[i] != '#' && format[i] != '/' && format[i] != '-'
  }

  /**
   * The lookup `getFormatInResourceBundle` and `getFormatInProperties`
   * share, over `lookup` with key prefix `prefix`: a named format by its
   * name, a blank one by the column's type (currency before date).
   */
  function FormatLookup(isCurrency: bool, isDate: bool, format: Option<string>, lookup: string -> Option<string>,
                        prefix: string, n: Names): (r: Option<string>)
    ensures !IsBlank(format) && !IsNamedFormat(format.value) ==> r.None?
    ensures IsBlank(format) && !isCurrency && !isDate ==> r.None?
    ensures !IsBlank(format) && IsNamedFormat(format.value) ==> r == lookup(prefix + format.value)
    ensures IsBlank(format) && isCurrency ==> r == lookup(prefix + n.currency)
    ensures IsBlank(format) && !isCurrency && isDate ==> r == lookup(prefix + n.date)
  {
    if !IsBlank(format) && IsNamedFormat(format.value) then lookup(prefix + format.value)
    else if IsBlank(format) then
      if isCurrency then lookup(prefix + n.currency)
      else if isDate then lookup(prefix + n.date)
      else None
    else None
  }

  /** `getFormatInResourceBundle`. */
  function FormatInResourceBundle(isCurrency: bool, isDate: bool, format: Option<string>,
                                  messages: string -> Option<string>, n: Names): Option<string> {
    FormatLookup(isCurrency, isDate, format, messages, n.messagesColumnFormat, n)
  }

  /** `getFormatInProperties`. */
  function FormatInProperties(isCurrency: bool, isDate: bool, format: Option<string>,
                              preference: string -> Option<string>, n: Names): Option<string> {
    FormatLookup(isCurrency, isDate, format, preference, n.columnFormat, n)
  }

  /** `getFormat`: the bundle first, then the properties, then the format as given. */
  function GetFormat(isCurrency: bool, isDate: bool, format: Option<string>, messages: string -> Option<string>,
                     preference: string -> Option<string>, n: Names): (r: Option<string>)
    ensures var bundle := FormatInResourceBundle(isCurrency, isDate, format, messages, n);
            var properties := FormatInProperties(isCurrency, isDate, format, preference, n);
            && (!IsBlank(bundle) ==> r == bundle)
            && (IsBlank(bundle) && !IsBlank(properties) ==> r == properties)
            && (IsBlank(bundle) && IsBlank(properties) ==> r == format)
  {
    var result := FormatInResourceBundle(isCurrency, isDate, format, messages, n);
    var result' := if IsBlank(result) then FormatInProperties(isCurrency, isDate, format, preference, n) else result;
    if !IsBlank(result') then result' else format
  }

  /** An inline pattern (one with `#`, `/` or `-`) is never looked up: it comes back unchanged. */
  lemma InlineFormatUnchanged(isCurrency: bool, isDate: bool, format: string, messages: string -> Option<string>,
                              preference: string -> Option<string>, n: Names)
    requires !IsBlank(Some(format)) && !IsNamedFormat(format)
    ensures GetFormat(isCurrency, isDate, Some(format), messages, preference, n) == Some(format)
  {
  }

  /** A column that is neither currency nor date keeps a blank format. */
  lemma PlainColumnKeepsBlankFormat(format: Option<string>, messages: string -> Option<string>,
                                    preference: string -> Option<string>, n: Names)
    requires IsBlank(format)
    ensures GetFormat(false, false, format, messages, preference, n) == format
  {
  }

  /** `isSortable` and `isFilterable`: the column's own setting, or the table's when it has none. */
  function ColumnFlag(flag: Option<bool>, tableFlag: bool): (r: bool)
    ensures flag.Some? ==> r == flag.value
    ensures flag.None? ==> r == tableFlag
  {
    if flag.None? then tableFlag else flag.value
  }

  /** `getAlias`: the property stands in for a blank alias when it is not blank itself. */
  function GetAlias(alias: Option<string>, property: Option<string>): (r: Option<string>)
    ensures IsBlank(alias) && !IsBlank(property) ==> r == property
    ensures !IsBlank(alias) || IsBlank(property) ==> r == alias
  {
    if IsBlank(alias) && !IsBlank(property) then property else alias
  }

  /** A defaulted alias is not blank when either input is, and defaulting it again changes nothing. */
  lemma AliasDefaulted(alias: Option<string>, property: Option<string>)
    ensures !IsBlank(alias) || !IsBlank(property) ==> !IsBlank(GetAlias(alias, property))
    ensures GetAlias(GetAlias(alias, property), property) == GetAlias(alias, property)
  {
  }

  /**
   * One calc title as `getCalcTitle` treats it: a resource key resolves
   * through the bundle (or stays itself when the bundle has no entry) and
   * is dropped when that is blank; any other title is kept as it is.
   */
  function ResolvedCalcTitle(title: string, isResourceKey: string -> bool, messages: string -> Option<string>): (r: Option<string>)
    ensures !isResourceKey(title) ==> r == Some(title)
    ensures r.None? ==> isResourceKey(title)
    ensures isResourceKey(title) && messages(title).Some? ==>
              (r.None? <==> IsBlank(messages(title))) && (r.Some? ==> r == messages(title))
    ensures isResourceKey(title) && messages(title).None? ==>
              (r.None? <==> IsBlank(Some(title))) && (r.Some? ==> r == Some(title))
  {
    if isResourceKey(title) then
      var resourceValue := if messages(title).None? then title else messages(title).value;
      if !IsBlank(Some(resourceValue)) then Some(resourceValue) else None
    else Some(title)
  }

  /** The titles `getCalcTitle` returns for `titles`, in order. */
  function ResolvedCalcTitles(titles: seq<string>, isResourceKey: string -> bool, messages: string -> Option<string>): (r: seq<string>)
    ensures |r| <= |titles|
  {
    if titles == [] then []
    else
      var last := ResolvedCalcTitle(titles[|titles| - 1], isResourceKey, messages);
      ResolvedCalcTitles(titles[..|titles| - 1], isResourceKey, messages) + (if last.Some? then [last.value] else [])
  }

  /** When no title is dropped, the result has one resolved title per input title, position by position. */
  lemma {:induction false} CalcTitlesKeepPositions(titles: seq<string>, isResourceKey: string -> bool,
                                                   messages: string -> Option<string>)
    requires forall i :: 0 <= i < |titles| ==> ResolvedCalcTitle(titles[i], isResourceKey, messages).Some?
    ensures |ResolvedCalcTitles(titles, isResourceKey, messages)| == |titles|
    ensures forall i :: 0 <= i < |titles| ==>
      ResolvedCalcTitles(titles, isResourceKey, messages)[i] == ResolvedCalcTitle(titles[i], isResourceKey, messages).value
  {
    if titles != [] {
      var init := titles[..|titles| - 1];
      var last := ResolvedCalcTitle(titles[|titles| - 1], isResourceKey, messages);
      assert forall i :: 0 <= i < |init| ==> init[i] == titles[i];
      CalcTitlesKeepPositions(init, isResourceKey, messages);
      assert ResolvedCalcTitles(titles, isResourceKey, messages)
          == ResolvedCalcTitles(init, isResourceKey, messages) + [last.value];
    }
  }

  /** Titles that are no resource keys all survive, unchanged and in order. */
  lemma PlainCalcTitlesUnchanged(titles: seq<string>, isResourceKey: string -> bool, messages: string -> Option<string>)
    requires forall i :: 0 <= i < |titles| ==> !isResourceKey(titles[i])
    ensures ResolvedCalcTitles(titles, isResourceKey, messages) == titles
  {
    CalcTitlesKeepPositions(titles, isResourceKey, messages);
  }

  /** `getCalcTitle`: a null array gives no titles. */
  method GetCalcTitle(calcTitle: Option<seq<string>>, isResourceKey: string -> bool, messages: string -> Option<string>)
    returns (results: seq<string>)
    ensures calcTitle.None? ==> results == []
    ensures calcTitle.Some? ==> results == ResolvedCalcTitles(calcTitle.value, isResourceKey, messages)
  {
    results := [];
    if calcTitle.None? {
      return;
    }
    var titles := calcTitle.value;
    var i := 0;
    while i < |titles|
      invariant 0 <= i <= |titles|
      invariant results == ResolvedCalcTitles(titles[..i], isResourceKey, messages)
    {
      assert titles[..i + 1][..i] == titles[..i];
      var title := titles[i];
      if isResourceKey(title) {
        var resourceValue := messages(title);
        if resourceValue.None? {
          resourceValue := Some(title);
        }
        if !IsBlank(resourceValue) {
          results := results + [resourceValue.value];
        }
      } else {
        results := results + [title];
      }
      i := i + 1;
    }
    assert titles[..|titles|] == titles;
  }
}
