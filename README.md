# extremecomponents table engine — a Dafny model

This project models the request-driven core of the extremecomponents table
engine. Each page request carries a flat map of parameters. The engine
resolves that map into the state of one table and then processes the rows:

* the **parameter registry** (`AbstractRegistry`) splits the request into
  table-scoped parameters and user parameters. When the request has no
  table-scoped parameters it falls back to the persisted state, and user
  parameters are put over the result;
* the **limit factory** (`AbstractLimitFactory`) reads the page, the rows
  displayed, the export flag, the sort and the filter set from the registry.
  Sort and filter keys are resolved through alias parameters. A clear action
  purges the filter parameters from the registry;
* the **filter set** (`FilterSet`) answers `isFiltered`, `isCleared` and the
  lookups by alias;
* **row processing** (`ProcessRowsCallback`, `FilterPredicate`,
  `NullSafeBeanComparator`) keeps the rows the filter predicate accepts and
  sorts the rows in place. The comparator is null-aware, and a dotted
  property is read through the null-safe bean comparator;
* **calculations** (`CalcUtils`, `AverageCalc`) resolve each column
  calculator by name and feed every readable row value to an accumulator.
  The average divides by the number of rows;
* **column and export bookkeeping** (`ColumnHandler`, `ColumnDefaults`,
  `ExportHandler`) covers adding columns per view, flagging the first and last
  column, the lookups by alias and by first calculated column, the defaulting
  rules, and export lookup by view.

Java `null` is `Option`/`Column?`. A thrown exception is a `Result` failure,
or a `Throw` step where the source catches it. Reflection (`PropertyUtils`),
formatters, preferences, messages and the state store are function parameters
or values passed in. HashMap iteration order is an arbitrary choice (`:|`),
and every contract holds for every order. Imperative source stays imperative:

* the registry, the limit factory, the column handler, the export handler and
  the average accumulator are classes with `modifies` clauses;
* sorting is an in-place array sort;
* `evaluate`, `eachRowCalcValue`, `getCalcResults`, `getCalcTitle` and the
  lookups are loops with invariants.

The files are `wrappers.dfy` (Option, Result), `text.dfy` (the string helpers
of `java.lang.String` and commons-lang that the core calls), `names.dfy` (the
constant names), and one file per source class.

## Where the specification and the code differ (the model follows the code)

* Sort selection: the specification asks for a deterministic order of sort
  keys. `getSort` takes the first entry of a `HashMap`. The model chooses an
  arbitrary entry (`LimitFactory.LimitFactory.GetSort`).
* Filter errors: the specification calls filter evaluation fail-closed. On an
  exception `evaluate` returns the `match` accumulated so far, which can be
  true (`FilterPredicates.OutcomeCharacterized`).
* Null placement: the specification says descending order flips the placement
  of nulls. For a dotted property, `NullSafeBeanComparator` places nulls
  before the reversed comparator is consulted, so nulls are last in both
  directions (`ProcessRows.NestedNullsLast`). For a plain property they flip
  (`ProcessRows.PlainAscNullsLast`, `ProcessRows.PlainDescNullsFirst`).
* Page: the specification describes the page as a positive integer. `getPage`
  returns whatever integer parses, including zero and negatives.
* Null filter property: the specification says a null property value makes
  the row fail the filter. `evaluate` skips that column and goes on with the
  next one (`FilterPredicates.ColumnStep`).
* Type mismatch in a sort: the specification says two values of different
  types compare as equal. Only `NullSafeBeanComparator`, used for a dotted
  property, catches the `ClassCastException` and returns 0
  (`Comparators.CompareBothFound`). For a plain property `BeanComparator`
  lets it out of `sortRows` (`Comparators.BeanCompare`,
  `ProcessRows.IncomparableValuesThrow`).

## Model

| member | source | states |
|---|---|---|
| Registry.FirstValue | src/main/java/org/extremecomponents/table/core/AbstractRegistry.java:104-111 | a value comes back iff the name is present with at least one value, and it is the first value |
| Registry.TableParameterIffSegment | src/main/java/org/extremecomponents/table/core/AbstractRegistry.java:52-61 | a name is table-scoped iff it starts with the table prefix followed by one of the eight segment names |
| Registry.ThrowawayNeverCopied | src/main/java/org/extremecomponents/table/core/AbstractRegistry.java:46-50 | the export-table-id and instance parameters enter neither partition; they reach the resolved map only through persisted state |
| Registry.PartitionOfRequestParameter | src/main/java/org/extremecomponents/table/core/AbstractRegistry.java:52-67 | any other request parameter lands in the table partition iff table-scoped, in the user partition iff not table-scoped and auto-include is on, never in both, with its values unchanged |
| Registry.StateOnlyWhenNoTableParameters | src/main/java/org/extremecomponents/table/core/AbstractRegistry.java:74-87 | persisted state replaces the table partition only when that partition is empty (a null state gives an empty map); otherwise the state is ignored, with no merge |
| Registry.UserParametersOverride | src/main/java/org/extremecomponents/table/core/AbstractRegistry.java:68-71 | the resolved map holds exactly the state names and the user names, and a user parameter wins over a same-named state parameter |
| Registry.FallbackVerbatim | src/main/java/org/extremecomponents/table/core/AbstractRegistry.java:38-87 | a request without table-scoped parameters, with auto-include off, resolves to the persisted map verbatim, or to the empty map |
| Registry.GetAfterAdd | src/main/java/org/extremecomponents/table/core/AbstractRegistry.java:92-111 | after adding values under a name, its first value is the first added (null when none); other names read as before |
| Registry.GetAfterRemove | src/main/java/org/extremecomponents/table/core/AbstractRegistry.java:104-128 | after removing a name it reads as null; other names read as before |
| Registry.ParameterRegistry.SetParameterMap | src/main/java/org/extremecomponents/table/core/AbstractRegistry.java:38-72 | saves the state-resolved table partition and stores it with the user partition put over it |
| Registry.ParameterRegistry.AddParameter | src/main/java/org/extremecomponents/table/core/AbstractRegistry.java:92-95 | the map changes only at the given name, which now holds the given values |
| Registry.ParameterRegistry.RemoveParameter | src/main/java/org/extremecomponents/table/core/AbstractRegistry.java:126-128 | the map loses the given name and nothing else |
| FilterSets.GetFilterValue | src/main/java/org/extremecomponents/table/limit/FilterSet.java:58-67 | the value of the first filter with the alias, or "" when no filter has it; the filters must be non-null |
| FilterSets.GetFilter | src/main/java/org/extremecomponents/table/limit/FilterSet.java:75-84 | the first filter with the alias; none iff no filter has it |
| FilterSets.FilterValueOfFilter | src/main/java/org/extremecomponents/table/limit/FilterSet.java:58-84 | `getFilterValue` is the value of the filter `getFilter` finds, and "" when it finds none |
| FilterSets.FilteredExcludesCleared | src/main/java/org/extremecomponents/table/limit/FilterSet.java:36-42 | with distinct action names a set is never both filtered and cleared |
| FilterSets.ClearedEmptyIsNotFiltered | src/main/java/org/extremecomponents/table/limit/FilterSet.java:36-42 | the set a clear action produces is cleared and not filtered |
| LimitFactory.GetExported | src/main/java/org/extremecomponents/table/limit/AbstractLimitFactory.java:42-49 | true iff the export-table-id parameter equals the table id and that id is not blank |
| LimitFactory.GetCurrentRowsDisplayed | src/main/java/org/extremecomponents/table/limit/AbstractLimitFactory.java:51-62 | all rows when exporting or without pagination; otherwise the given default for a blank parameter, the parsed 32-bit integer for a parameter that parses, and a failure iff a non-blank parameter does not parse |
| LimitFactory.RowsDisplayedRoundTrip | src/main/java/org/extremecomponents/table/limit/AbstractLimitFactory.java:51-62 | a rows parameter written from an int reads back as that int |
| LimitFactory.GetPage | src/main/java/org/extremecomponents/table/limit/AbstractLimitFactory.java:64-75 | page 1 when exporting or when the page parameter is null or empty; otherwise the parsed 32-bit integer, and a failure iff the parameter does not parse |
| LimitFactory.PageRoundTrip | src/main/java/org/extremecomponents/table/limit/AbstractLimitFactory.java:64-75 | a page parameter written from an int reads back as that int |
| LimitFactory.ScopedParametersEntries | src/main/java/org/extremecomponents/table/limit/AbstractLimitFactory.java:146-164 | a suffix is an entry iff prefix plus suffix is a registry name with a non-blank first value, and it maps to that value |
| LimitFactory.GetProperty | src/main/java/org/extremecomponents/table/limit/AbstractLimitFactory.java:169-176 | the companion alias parameter's value when that is not blank, otherwise the argument itself; never blank for a non-blank argument |
| LimitFactory.LimitFactory.GetSortedOrFilteredParameters | src/main/java/org/extremecomponents/table/limit/AbstractLimitFactory.java:146-164 | the loop over the registry builds exactly the scoped parameter map and leaves the registry alone |
| LimitFactory.LimitFactory.GetSort | src/main/java/org/extremecomponents/table/limit/AbstractLimitFactory.java:77-96 | a sort is one sort entry with a non-default order and its alias resolved; no sort only when there are no entries or an entry holds the default order |
| LimitFactory.LimitFactory.GetFilterSetFrom | src/main/java/org/extremecomponents/table/limit/AbstractLimitFactory.java:123-144 | the empty set for a null map; otherwise the action from the ACTION key and one filter for each non-ACTION, non-blank entry, alias resolved, none twice and no other |
| LimitFactory.LimitFactory.RemoveFilterParameters | src/main/java/org/extremecomponents/table/limit/AbstractLimitFactory.java:113-121 | exactly the registry names under the filter prefix are removed, and the others keep their values |
| LimitFactory.LimitFactory.GetFilterSet | src/main/java/org/extremecomponents/table/limit/AbstractLimitFactory.java:98-107 | on a clear action the filter parameters are purged and the set keeps the action with no filters; otherwise the registry is unchanged and the set is built from the filter parameters |
| FilterPredicates.ColumnStep | src/main/java/org/extremecomponents/table/callback/FilterPredicate.java:52-80 | a null filter list throws; a column with no alias or an empty filter value is skipped; a null property is skipped; a failed read or a failed formatting throws; otherwise the column passes iff its shown value (formatted date, formatted number or `toString`) matches the filter value, and fails otherwise |
| FilterPredicates.OutcomeCharacterized | src/main/java/org/extremecomponents/table/callback/FilterPredicate.java:46-87 | the result is true iff a compared column matched before the first failing or throwing column, and that column, if any, threw rather than failed |
| FilterPredicates.Evaluate | src/main/java/org/extremecomponents/table/callback/FilterPredicate.java:46-87 | the loop with its short-circuit and catch returns the outcome of the column steps |
| FilterPredicates.NothingComparedRejects | src/main/java/org/extremecomponents/table/callback/FilterPredicate.java:46-87 | a row for which no column was compared is rejected |
| FilterPredicates.AcceptedWithoutExceptions | src/main/java/org/extremecomponents/table/callback/FilterPredicate.java:74-80 | without exceptions a row is accepted iff no compared column failed and at least one was compared |
| FilterPredicates.AcceptedIffAllMatch | src/main/java/org/extremecomponents/table/callback/FilterPredicate.java:46-87 | when no read or formatting fails, a row is accepted iff some column is compared and every compared column's shown value matches its filter value |
| FilterPredicates.PaddingIgnored | src/main/java/org/extremecomponents/table/callback/FilterPredicate.java:89-91 | any run of characters up to U+0020 around the value or the search does not change the match |
| FilterPredicates.NormalizePadded | src/main/java/org/extremecomponents/table/callback/FilterPredicate.java:89-91 | normalising drops any run of characters up to U+0020 on either side |
| FilterPredicates.CaseIgnored | src/main/java/org/extremecomponents/table/callback/FilterPredicate.java:89-91 | lower-casing the value or the search does not change the match |
| FilterPredicates.PlainSearchIsContainment | src/main/java/org/extremecomponents/table/callback/FilterPredicate.java:97-101 | a search without `*` matches iff the normalised value contains the normalised search |
| FilterPredicates.SuffixSearch | src/main/java/org/extremecomponents/table/callback/FilterPredicate.java:93-94 | a leading-`*` search matches iff the normalised value ends with the rest of the search |
| FilterPredicates.PrefixSearch | src/main/java/org/extremecomponents/table/callback/FilterPredicate.java:95-96 | a trailing-`*` search matches iff the normalised value starts with the rest of the search |
| FilterPredicates.NormalizedValueExample | src/main/java/org/extremecomponents/table/callback/FilterPredicate.java:90 | `Acme Corp` normalises to `acme corp` |
| FilterPredicates.SuffixSearchExample | src/main/java/org/extremecomponents/table/callback/FilterPredicate.java:93-94 | `*corp` finds `Acme Corp` |
| FilterPredicates.PrefixSearchExample | src/main/java/org/extremecomponents/table/callback/FilterPredicate.java:95-96 | `acme*` finds `Acme Corp` |
| FilterPredicates.PlainSearchExample | src/main/java/org/extremecomponents/table/callback/FilterPredicate.java:97-101 | `xyz` does not find `Acme Corp` |
| Comparators.NullCompare | src/main/java/org/extremecomponents/table/callback/NullSafeBeanComparator.java:101-113 | two nulls are equal; a single null is greater iff nulls are high and is never equal; two values use the wrapped comparator, and the comparison throws iff that one does |
| Comparators.NullComparePreorder | src/main/java/org/extremecomponents/table/callback/NullSafeBeanComparator.java:101-113 | the null-aware order, exceptions read as 0, is a total preorder whenever the wrapped comparator is one on the values |
| Comparators.Reversed | src/main/java/org/extremecomponents/table/callback/ProcessRowsCallback.java:82-84 | the reversed comparator compares its arguments swapped, exceptions included |
| Comparators.ReversedPreorder | src/main/java/org/extremecomponents/table/callback/ProcessRowsCallback.java:82-84 | reversing a total preorder gives a total preorder |
| Comparators.NullSafeValue | src/main/java/org/extremecomponents/table/callback/NullSafeBeanComparator.java:89-99 | a nested-null failure reads as a null value, and only another exception gives no value |
| Comparators.NewNullSafeBeanComparator | src/main/java/org/extremecomponents/table/callback/NullSafeBeanComparator.java:121-131 | keeps the property and the comparator, with nulls high by default |
| Comparators.Compare | src/main/java/org/extremecomponents/table/callback/NullSafeBeanComparator.java:78-119 | a null property delegates to the wrapped comparator on the objects, whose exception escapes; with a property the comparison never throws, and a failed read gives 0 |
| Comparators.CompareSameValue | src/main/java/org/extremecomponents/table/callback/NullSafeBeanComparator.java:101-103 | identical resolved values, both null included, compare as 0 |
| Comparators.CompareOneNull | src/main/java/org/extremecomponents/table/callback/NullSafeBeanComparator.java:105-111 | a single null side is greater iff nulls are high, and swapping the arguments negates the result |
| Comparators.CompareBothFound | src/main/java/org/extremecomponents/table/callback/NullSafeBeanComparator.java:113-118 | two distinct non-null values compare by the wrapped comparator, and its exception (values it cannot compare) gives 0 |
| Comparators.ComparePreorder | src/main/java/org/extremecomponents/table/callback/NullSafeBeanComparator.java:78-119 | over rows whose reads do not fail, the comparator is a total preorder when the wrapped comparator, exceptions read as 0, is one on the values read |
| Comparators.PlainValue | src/main/java/org/extremecomponents/table/callback/ProcessRowsCallback.java:92-100 | a plain bean read gives the value or null, and a nested-null failure or another exception gives no value |
| Comparators.BeanCompare | src/main/java/org/extremecomponents/table/callback/ProcessRowsCallback.java:92-100 | the bean comparator throws iff a side's read throws or the value comparator throws on the two values; otherwise it is the value comparator on the two values read |
| Columns.FirstCalculated | src/main/java/org/extremecomponents/table/handler/ColumnHandler.java:186-195 | none iff no column is calculated; otherwise the calculated column that no calculated column precedes |
| ProcessRows.FilterRows | src/main/java/org/extremecomponents/table/callback/ProcessRowsCallback.java:51-65 | the rows unchanged when the set is not filtered or is cleared; never more rows than given |
| ProcessRows.FilterRowsExact | src/main/java/org/extremecomponents/table/callback/ProcessRowsCallback.java:59-62 | when filtering, a row is kept iff it is in the input and the predicate accepts it |
| ProcessRows.FilterRowsAppend | src/main/java/org/extremecomponents/table/callback/ProcessRowsCallback.java:59-62 | filtering distributes over concatenation, so the kept rows stay in their original order |
| ProcessRows.Insert | src/main/java/org/extremecomponents/table/callback/ProcessRowsCallback.java:81-98 | one insertion step leaves the array as the sink function of the old contents |
| ProcessRows.SinkKeepsElements | src/main/java/org/extremecomponents/table/callback/ProcessRowsCallback.java:81-98 | an insertion step permutes the rows |
| ProcessRows.SinkSorts | src/main/java/org/extremecomponents/table/callback/ProcessRowsCallback.java:81-98 | an insertion step extends the sorted prefix by one under a total preorder |
| ProcessRows.InsertionSort | src/main/java/org/extremecomponents/table/callback/ProcessRowsCallback.java:81-98 | the in-place sort permutes the rows, and sorts them when the comparator is a total preorder on them |
| ProcessRows.SortRows | src/main/java/org/extremecomponents/table/callback/ProcessRowsCallback.java:67-103 | the rows stay a permutation; unchanged and no exception when not sorted or the order is neither ASC nor DESC; a plain-property sort of two or more rows throws when a read throws; no exception when no pair is incomparable and the row order is a total preorder; sorted by the row order when it succeeds on a total preorder |
| ProcessRows.ReadThrowsPair | src/main/java/org/extremecomponents/table/callback/ProcessRowsCallback.java:92-100 | a row whose read throws makes some pair of rows incomparable |
| ProcessRows.ComparableRowsNeverThrow | src/main/java/org/extremecomponents/table/callback/ProcessRowsCallback.java:92-100 | rows that all read and whose values the natural order compares pairwise have no incomparable pair |
| ProcessRows.IncomparableValuesThrow | src/main/java/org/extremecomponents/table/callback/ProcessRowsCallback.java:92-100 | two rows whose values the natural order cannot compare (a number against a string) make a plain sort throw |
| ProcessRows.NestedNullsLast | src/main/java/org/extremecomponents/table/callback/ProcessRowsCallback.java:78-86 | for a dotted property, in either direction, no row after a null row has a value |
| ProcessRows.PlainAscNullsLast | src/main/java/org/extremecomponents/table/callback/ProcessRowsCallback.java:93-95 | for a plain property in ascending order, no row after a null row has a value |
| ProcessRows.PlainDescNullsFirst | src/main/java/org/extremecomponents/table/callback/ProcessRowsCallback.java:96-98 | for a plain property in descending order, no row before a null row has a value |
| ProcessRows.NestedRowOrderPreorder | src/main/java/org/extremecomponents/table/callback/ProcessRowsCallback.java:78-86 | the dotted-property row order is a total preorder when the natural order is one on the values read |
| ProcessRows.ValueOrderPreorder | src/main/java/org/extremecomponents/table/callback/ProcessRowsCallback.java:92-100 | the null-aware value order, reversed or not, exceptions read as 0, is a total preorder on the values read |
| ProcessRows.PlainRowOrderPreorder | src/main/java/org/extremecomponents/table/callback/ProcessRowsCallback.java:92-100 | the plain-property row order is a total preorder when no read throws |
| CalcHandlers.AverageValue.constructor | src/main/java/org/extremecomponents/table/calc/AverageCalc.java:37-43 | starts with no values, a zero total and the given row count |
| CalcHandlers.AverageValue.ProcessCalcValue | src/main/java/org/extremecomponents/table/calc/AverageCalc.java:45-47 | appends the value and adds it to the total, which stays the sum of all values received |
| CalcHandlers.AverageValue.GetAverageValue | src/main/java/org/extremecomponents/table/calc/AverageCalc.java:49-55 | with a positive row count, the result times the row count is the total; otherwise 0 |
| CalcUtils.GetValue | src/main/java/org/extremecomponents/table/calc/CalcUtils.java:129-141 | a blank or unparsable string contributes 0; otherwise the decimal it denotes |
| CalcUtils.GetValueOfNat | src/main/java/org/extremecomponents/table/calc/CalcUtils.java:129-141 | the decimal text of a number reads back as that number |
| CalcUtils.NullContributesZero | src/main/java/org/extremecomponents/table/calc/CalcUtils.java:119-120 | a null value, stringified as "null", contributes 0 |
| CalcUtils.RowCalcValue | src/main/java/org/extremecomponents/table/calc/CalcUtils.java:108-124 | an unreadable row contributes nothing; a read that throws contributes nothing; a number passes unchanged; any other value contributes the decimal its text denotes, 0 when it does not parse; a null contributes 0 |
| CalcUtils.CalcValuesOfNumbers | src/main/java/org/extremecomponents/table/calc/CalcUtils.java:108-118 | when every row is readable and holds a value, each row contributes exactly its own value, in order |
| CalcUtils.EachRowCalcValue | src/main/java/org/extremecomponents/table/calc/CalcUtils.java:103-127 | a null collection adds nothing; otherwise the handler receives the readable rows' values in iteration order |
| CalcUtils.CalcClassName | src/main/java/org/extremecomponents/table/calc/CalcUtils.java:83-92 | the non-blank `COLUMN_CALC` preference for the calc, otherwise the calc name itself |
| CalcUtils.CalcResultAt | src/main/java/org/extremecomponents/table/calc/CalcUtils.java:54-63 | named by the resolved class name; the value is absent iff that name is not a calculator class |
| CalcUtils.GetCalcResults | src/main/java/org/extremecomponents/table/calc/CalcUtils.java:43-52 | one result per declared calc, in declaration order |
| CalcUtils.GetFirstCalcColumnTitleByPosition | src/main/java/org/extremecomponents/table/calc/CalcUtils.java:77-81 | the title at the position of the first calculated column; a failure iff there is no such column or the position is out of range |
| AverageCalc.GetCalcResult | src/main/java/org/extremecomponents/table/calc/AverageCalc.java:28-35 | the sum of the values the rows contribute, divided by the number of rows (not of values), or 0 for no rows |
| AverageCalc.AverageOfNoRows | src/main/java/org/extremecomponents/table/calc/AverageCalc.java:28-55 | no rows average to 0 |
| AverageCalc.AverageOfOneRow | src/main/java/org/extremecomponents/table/calc/AverageCalc.java:28-55 | one row of 10 averages to 10 |
| AverageCalc.AverageOfTwoRows | src/main/java/org/extremecomponents/table/calc/AverageCalc.java:28-55 | rows of 10 and 20 average to 15 |
| AverageCalc.AverageWithUnparsableRow | src/main/java/org/extremecomponents/table/calc/AverageCalc.java:28-35 | an unparsable row counts in the denominator and contributes 0: 10 and "abc" average to 5 |
| ColumnDefaults.GetCell | src/main/java/org/extremecomponents/table/bean/ColumnDefaults.java:45-88 | a blank name uses the default preference; a non-blank name gives its preference or itself, never blank |
| ColumnDefaults.NamedCellUsesPreference | src/main/java/org/extremecomponents/table/bean/ColumnDefaults.java:45-88 | a non-blank name with a non-blank preference resolves to that preference |
| ColumnDefaults.GetParse | src/main/java/org/extremecomponents/table/bean/ColumnDefaults.java:90-100 | a non-blank parse, or any parse of a non-date column, is kept; a blank parse on a date column becomes the date preference |
| ColumnDefaults.FormatLookup | src/main/java/org/extremecomponents/table/bean/ColumnDefaults.java:119-158 | an inline format (containing `#`, `/` or `-`) finds nothing; a named format is looked up under its prefix; a blank format looks up the currency entry on a currency column, else the date entry on a date column, and finds nothing on a plain column |
| ColumnDefaults.GetFormat | src/main/java/org/extremecomponents/table/bean/ColumnDefaults.java:106-117 | the bundle's non-blank format first, then the properties' non-blank format, else the format as given |
| ColumnDefaults.InlineFormatUnchanged | src/main/java/org/extremecomponents/table/bean/ColumnDefaults.java:106-158 | an inline custom format comes back unchanged |
| ColumnDefaults.PlainColumnKeepsBlankFormat | src/main/java/org/extremecomponents/table/bean/ColumnDefaults.java:106-149 | a blank format on a column that is neither date nor currency comes back unchanged |
| ColumnDefaults.ColumnFlag | src/main/java/org/extremecomponents/table/bean/ColumnDefaults.java:160-174 | the column's own sortable or filterable setting, or the table's only when the column has none |
| ColumnDefaults.GetAlias | src/main/java/org/extremecomponents/table/bean/ColumnDefaults.java:199-205 | the property for a blank alias when the property is not blank; otherwise the alias unchanged |
| ColumnDefaults.AliasDefaulted | src/main/java/org/extremecomponents/table/bean/ColumnDefaults.java:199-205 | the defaulted alias is not blank when either input is not, and defaulting again changes nothing |
| ColumnDefaults.ResolvedCalcTitle | src/main/java/org/extremecomponents/table/bean/ColumnDefaults.java:214-229 | a title that is not a resource key is kept; a resource key becomes its message, or itself when there is none, and is dropped iff that is blank |
| ColumnDefaults.CalcTitlesKeepPositions | src/main/java/org/extremecomponents/table/bean/ColumnDefaults.java:207-232 | when no title is dropped, every title keeps its position |
| ColumnDefaults.PlainCalcTitlesUnchanged | src/main/java/org/extremecomponents/table/bean/ColumnDefaults.java:207-232 | titles without resource keys come back unchanged |
| ColumnDefaults.GetCalcTitle | src/main/java/org/extremecomponents/table/bean/ColumnDefaults.java:207-232 | an empty array for null; otherwise the loop collects the resolved titles in order |
| ExportHandlers.ExportHandler.constructor | src/main/java/org/extremecomponents/table/handler/ExportHandler.java:38-42 | starts with no exports |
| ExportHandlers.ExportHandler.AddExport | src/main/java/org/extremecomponents/table/handler/ExportHandler.java:44-48 | appends the export, so some export serves its view |
| ExportHandlers.ExportHandler.GetExport | src/main/java/org/extremecomponents/table/handler/ExportHandler.java:56-66 | the first export serving the view, or none iff no export serves it |
| ExportHandlers.ExportHandler.GetCurrentExport | src/main/java/org/extremecomponents/table/handler/ExportHandler.java:68-81 | the first export serving the requested view; a failure iff none serves it |
| ExportHandlers.ExportHandler.ShowExports | src/main/java/org/extremecomponents/table/handler/ExportHandler.java:97-103 | true iff the table shows exports and at least one export was added |
| ColumnHandlers.AllowView | src/main/java/org/extremecomponents/table/handler/ColumnHandler.java:156-169 | allowed iff the allow-list is empty or contains the view |
| ColumnHandlers.DenyView | src/main/java/org/extremecomponents/table/handler/ColumnHandler.java:171-184 | denied iff the deny-list contains the view |
| ColumnHandlers.ColumnHandler.constructor | src/main/java/org/extremecomponents/table/handler/ColumnHandler.java:41-47 | starts with no columns and no first or last column |
| ColumnHandlers.ColumnHandler.AddColumn | src/main/java/org/extremecomponents/table/handler/ColumnHandler.java:54-74 | a column not allowed in the view changes nothing; an allowed one is appended and flagged last, the previous last is unflagged, the first column is set and flagged once and otherwise the column's first flag is untouched; the previous last column's first flag never changes |
| ColumnHandlers.ColumnHandler.ColumnCount | src/main/java/org/extremecomponents/table/handler/ColumnHandler.java:86-88 | the number of columns added |
| ColumnHandlers.ColumnHandler.GetColumnByAlias | src/main/java/org/extremecomponents/table/handler/ColumnHandler.java:94-104 | the first column with the alias, or null iff no column has it |
| ColumnHandlers.ColumnHandler.GetFirstCalcColumn | src/main/java/org/extremecomponents/table/handler/ColumnHandler.java:186-195 | the first calculated column, or null iff there is none |
| ColumnHandlers.ColumnHandler.GetCalcResults | src/main/java/org/extremecomponents/table/handler/ColumnHandler.java:197-203 | nothing for a column without calculators; otherwise one result per calculator, in order |

## Left out

- The constant classes (`TableConstants`, `PreferencesConstants`, `MessagesConstants`, `TreeConstants`) are not part of this model. Their values are fields of the `Names` record. A property that needs two of them to differ takes that as a precondition.
- Lower-casing covers ASCII letters only, and trimming follows `String.trim` (characters up to U+0020). Blankness follows `Character.isWhitespace`.
- Text.ParseInt and Text.ParseDecimal accept ASCII digits only. `Integer.parseInt` and `BigDecimal` also accept the decimal digits of other scripts, which the model rejects.
- `BigDecimal` parsing is modelled without the exponent range limits, and `double` is `real`. So rounding in the average and in sums is not modelled.
- Reflection, the date and number formatters, the locale, the preferences, the messages and the calculator-class lookup are function parameters.
- The persisted-state store is a value passed in. Saving is the map `SetParameterMap` returns. `handleStateInternal` and the `State` implementations are not part of this model.
- Registry.ParameterRegistry.SetParameterMap: the saved map is a value, a snapshot of the table partition at the time of saving. In the source the map handed to the state store is the same object that becomes `parameterMap`, which is the fresh table partition or the persisted map itself. A store that keeps that reference also sees the user parameters `putAll` adds and every later `addParameter` and `removeParameter`, the clear-action purge included. The model does not capture this sharing.
- HashMap iteration order is an arbitrary choice.
- ProcessRows.SortRows: stability is not proved, and an insertion sort stands in for the library's merge sort. When the comparator throws, the source may leave a partially sorted list; the model promises only a permutation and leaves the rows untouched.
- ProcessRows.SortRows: the rows are sorted when the row order is a total preorder on them. The lemmas beside it prove that it is one whenever the natural order on the values read is one.
- ProcessRows.SortRows: which pairs the library sort compares depends on its comparison order. The model fails whenever some pair is incomparable, where the library may never meet that pair. The contract promises only what holds for every order: a failed read always fails the sort, and a sort with no incomparable pair under a total preorder succeeds.
- ProcessRows.SortRows: the library's `IllegalArgumentException` for an order that breaks the comparator contract is not modelled. Under a total preorder it cannot occur.
- CalcUtils.CalcResultAt: the calculator is a total function of the class name and the column. A calculator that throws, or a class name missing from the calculator cache, is not modelled.
- `retrieveRows` is left out, because it calls the application's row source.
- `getFilterColumns`, `getHeaderColumns`, `getColumns`, `addAutoGenerateColumn`, `addColumnAttributes` and `modifyColumnAttributes` are left out. They are interceptor and rendering plumbing, outside the table state.
- `hasMetatData` is left out; it is `ColumnCount() > 0`.
- `getTitle`, `getHeaderClass`, `isEscapeAutoFormat` and `getFilterOptions` are left out. They depend on the camel-case conversion and on collection retrieval, which are not part of this model, or they are plain preference fallbacks of the kind `GetCell` shows.
- `getFirstCalcColumnTitles` is left out. `GetFirstCalcColumnTitleByPosition` covers its one-title form.
- `getExports`, `isExported` and `getParameterMap` are plain getters of class fields.
- Interceptors (`DefaultInterceptor`), `column.defaults()`, logging and the PDF, XLS and CSV export views are left out.
- ColumnHandlers.ColumnHandler.AddColumn takes the current view as a string. The null-pointer failure of a null view is not modelled, and neither is the `IllegalStateException` that `getCurrentExport` throws when exporting and no export serves the requested view.
- Other `CalcHandler` implementations are not part of this model. An `Export` is reduced to its view name.
- `Column` is modelled with the fields the core reads, and `Column.property` is assumed non-null. `isCalculated` is taken as having at least one calculator; `Column.java` and `TableModelUtils` are not part of this model.
