/**
 * The column bean as the table engine reads it. `Column.java` itself is
 * not part of this model: the fields below are the ones the engine's
 * callbacks, calculators and handlers read or set, after
 * `ColumnDefaults` has filled them in.
 */
module Columns {
  import opened Wrappers

  class Column {
    /** `getAlias`; may be null. */
    const alias: Option<string>
    /** `getProperty`: the bean property the column shows. */
    const property: string
    const isDate: bool
    const isCurrency: bool
    /** `getParse`/`getFormat`: date parse pattern and display format; may be null. */
    const parse: Option<string>
    const format: Option<string>
    /** `getCalc`/`getCalcTitle`: calculator names and their titles; null reads as empty. */
    const calcs: seq<string>
    const calcTitles: seq<string>
    /** `getViewsAllowed`/`getViewsDenied`; null reads as empty. */
    const viewsAllowed: seq<string>
    const viewsDenied: seq<string>
    /** Set by `ColumnHandler.addColumn`. */
    var isFirstColumn: bool
    var isLastColumn: bool

    constructor (alias: Option<string>, property: string, isDate: bool, isCurrency: bool,
                 parse: Option<string>, format: Option<string>, calcs: seq<string>, calcTitles: seq<string>,
                 viewsAllowed: seq<string>, viewsDenied: seq<string>)
      ensures this.alias == alias && this.property == property
      ensures this.isDate == isDate && this.isCurrency == isCurrency
      ensures this.parse == parse && this.format == format
      ensures this.calcs == calcs && this.calcTitles == calcTitles
      ensures this.viewsAllowed == viewsAllowed && this.viewsDenied == viewsDenied
      ensures !isFirstColumn && !isLastColumn
    {
      this.alias := alias;
      this.property := property;
      this.isDate := isDate;
      this.isCurrency := isCurrency;
      this.parse := parse;
      this.format := format;
      this.calcs := calcs;
      this.calcTitles := calcTitles;
      this.viewsAllowed := viewsAllowed;
      this.viewsDenied := viewsDenied;
      isFirstColumn := false;
      isLastColumn := false;
    }

    /** `isCalculated`: the column declares at least one calculator. */
    predicate IsCalculated() {
      |calcs| > 0
    }
  }

  /** Index of the first calculated column, or `|columns|`. */
  function FirstCalculatedIndex(columns: seq<Column>): (i: nat)
    ensures i <= |columns|
    ensures i < |columns| ==> columns[i].IsCalculated()
    ensures forall j :: 0 <= j < i ==> !columns[j].IsCalculated()
  {
    if columns == [] then 0
    else if columns[0].IsCalculated() then 0
    else 1 + FirstCalculatedIndex(columns[1..])
  }

  /** The first calculated column of `columns`, if any. */
  function FirstCalculated(columns: seq<Column>): (r: Option<Column>)
    ensures r.None? <==> forall i :: 0 <= i < |columns| ==> !columns[i].IsCalculated()
    ensures r.Some? ==> r.value.IsCalculated() && r.value in columns
    ensures r.Some? ==> exists i :: 0 <= i < |columns| && columns[i] == r.value
                                    && forall j :: 0 <= j < i ==> !columns[j].IsCalculated()
  {
    var i := FirstCalculatedIndex(columns);
    if i < |columns| then
      assert columns[i] == columns[i] && forall j :: 0 <= j < i ==> !columns[j].IsCalculated();
      Some(columns[i])
    else None
  }
}
