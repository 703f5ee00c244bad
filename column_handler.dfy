/**
 * `ColumnHandler`: the columns a table accepts for the current view, the
 * first and last column flags, and the lookups over the columns.
 */
module ColumnHandlers {
  import opened Wrappers
  import opened Names
  import opened Columns
  import opened CalcUtils

  /** The view passes a column's lists: allowed when the allow list is empty or names it, and not denied. */
  predicate IsViewAllowed(column: Column, view: string) {
    (|column.viewsAllowed| == 0 || view in column.viewsAllowed) && view !in column.viewsDenied
  }

  /** `allowView`. */
  method AllowView(column: Column, view: string) returns (r: bool)
    ensures r <==> |column.viewsAllowed| == 0 || view in column.viewsAllowed
  {
    var viewsAllowed := column.viewsAllowed;
    if |viewsAllowed| == 0 {
      return true;
    }
    var i := 0;
    while i < |viewsAllowed|
      invariant 0 <= i <= |viewsAllowed|
      invariant view !in viewsAllowed[..i]
    {
      if view == viewsAllowed[i] {
        return true;
      }
      i := i + 1;
    }
    assert viewsAllowed[..i] == viewsAllowed;
    return false;
  }

  /** `denyView`. */
  method DenyView(column: Column, view: string) returns (r: bool)
    ensures r <==> view in column.viewsDenied
  {
    var viewsDenied := column.viewsDenied;
    var i := 0;
    while i < |viewsDenied|
      invariant 0 <= i <= |viewsDenied|
      invariant view !in viewsDenied[..i]
    {
      if view == viewsDenied[i] {
        return true;
      }
      i := i + 1;
    }
    assert viewsDenied[..i] == viewsDenied;
    return false;
  }

  /** Whether a column's alias is the (possibly null) alias asked for. */
  predicate HasAlias(column: Column, alias: Option<string>) {
    column.alias.Some? && column.alias == alias
  }

  class ColumnHandler {
    var columns: seq<Column>
    var firstColumn: Column?
    var lastColumn: Column?

    /**
     * The bookkeeping `addColumn` keeps: the first accepted column is
     * `firstColumn` and flagged first, the latest is `lastColumn` and is
     * the only column flagged last.
     */
    ghost predicate Valid()
      reads this, columns
    {
      && (columns == [] <==> firstColumn == null)
      && (columns == [] <==> lastColumn == null)
      && (columns != [] ==> && firstColumn == columns[0] && firstColumn.isFirstColumn
                            && lastColumn == columns[|columns| - 1] && lastColumn.isLastColumn)
      && (forall i :: 0 <= i < |columns| && columns[i].isLastColumn ==> columns[i] == lastColumn)
    }

    constructor ()
      ensures Valid() && columns == [] && firstColumn == null && lastColumn == null
    {
      columns := [];
      firstColumn := null;
      lastColumn := null;
    }

    /**
     * `addColumn` for the current `view` (the table's view, or the current
     * export's when exporting). A column the view does not allow leaves
     * everything as it was; an accepted one is appended and becomes the
     * last column, and the first column never changes once set.
     */
    method AddColumn(column: Column, view: string)
      requires Valid()
      modifies this, column, lastColumn
      ensures Valid()
      ensures !IsViewAllowed(column, view) ==>
        && columns == old(columns) && firstColumn == old(firstColumn) && lastColumn == old(lastColumn)
        && column.isFirstColumn == old(column.isFirstColumn) && column.isLastColumn == old(column.isLastColumn)
        && (old(lastColumn) != null ==> old(lastColumn).isLastColumn == old(lastColumn.isLastColumn)
                                         && old(lastColumn).isFirstColumn == old(lastColumn.isFirstColumn))
      ensures IsViewAllowed(column, view) ==>
        && columns == old(columns) + [column]
        && firstColumn == (if old(firstColumn) == null then column else old(firstColumn))
        && lastColumn == column && column.isLastColumn
        && (old(firstColumn) == null ==> column.isFirstColumn)
        && (old(firstColumn) != null ==> column.isFirstColumn == old(column.isFirstColumn))
        && (old(lastColumn) != null && old(lastColumn) != column ==> !old(lastColumn).isLastColumn)
        && (old(lastColumn) != null && old(lastColumn) != column
            ==> old(lastColumn).isFirstColumn == old(lastColumn.isFirstColumn))
    {
      var allowView := AllowView(column, view);
      var denyView := DenyView(column, view);
      if !(allowView && !denyView) {
        return;
      }
      if firstColumn == null {
        firstColumn := column;
        column.isFirstColumn := true;
      }
      if lastColumn != null {
        lastColumn.isLastColumn := false;
      }
      lastColumn := column;
      column.isLastColumn := true;
      columns := columns + [column];
    }

    /** `columnCount`. */
    function ColumnCount(): (r: nat)
      reads this
      ensures r == |columns|
    {
      |columns|
    }

    /** `getColumnByAlias`: the first column with that alias, or null; a null alias finds nothing. */
    method GetColumnByAlias(alias: Option<string>) returns (r: Column?)
      ensures r == null <==> forall i :: 0 <= i < |columns| ==> !HasAlias(columns[i], alias)
      ensures r != null ==> exists i :: 0 <= i < |columns| && columns[i] == r && HasAlias(r, alias)
                                        && forall j :: 0 <= j < i ==> !HasAlias(columns[j], alias)
    {
      var i := 0;
      while i < |columns|
        invariant 0 <= i <= |columns|
        invariant forall j :: 0 <= j < i ==> !HasAlias(columns[j], alias)
      {
        var column := columns[i];
        var columnAlias := column.alias;
        if columnAlias.Some? && columnAlias == alias {
          return column;
        }
        i := i + 1;
      }
      return null;
    }

    /** `getFirstCalcColumn`: the first calculated column, or null. */
    method GetFirstCalcColumn() returns (r: Column?)
      ensures r == null <==> FirstCalculated(columns).None?
      ensures r != null ==> r == FirstCalculated(columns).value
    {
      var i := 0;
      while i < |columns|
        invariant 0 <= i <= |columns|
        invariant forall j :: 0 <= j < i ==> !columns[j].IsCalculated()
      {
        if columns[i].IsCalculated() {
          assert FirstCalculatedIndex(columns) == i;
          return columns[i];
        }
        i := i + 1;
      }
      return null;
    }

    /** `getCalcResults`: nothing for a column without calculators, else one result per calculator. */
    method GetCalcResults(column: Column, env: CalcEnv, n: Names) returns (results: seq<CalcResult>)
      ensures !column.IsCalculated() ==> results == []
      ensures |results| == |column.calcs|
      ensures forall i :: 0 <= i < |results| ==> results[i] == CalcResultAt(column, i, env, n)
    {
      if !column.IsCalculated() {
        return [];
      }
      results := CalcUtils.GetCalcResults(column, env, n);
    }
  }
}
