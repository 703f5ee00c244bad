/** `ExportHandler`: the table's declared exports and the one the request asks for. */
module ExportHandlers {
  import opened Wrappers
  import opened Text
  import opened Names
  import opened Registry

  /** An `Export` bean, reduced to the view it renders with. */
  datatype Export = Export(view: string)

  /** The export renders `view` (possibly null): `getView().equals(view)`. */
  predicate ServesView(e: Export, view: Option<string>) {
    view == Some(e.view)
  }

  class ExportHandler {
    var exports: seq<Export>

    constructor ()
      ensures exports == []
    {
      exports := [];
    }

    /** `addExport`: appended at the end. */
    method AddExport(e: Export)
      modifies this
      ensures exports == old(exports) + [e]
      ensures exists i :: 0 <= i < |exports| && ServesView(exports[i], Some(e.view))
    {
      exports := exports + [e];
      assert ServesView(exports[|exports| - 1], Some(e.view));
    }

    /** `getExport`: the first export for `view`, or none. */
    method GetExport(view: Option<string>) returns (r: Option<Export>)
      ensures r.None? <==> forall i :: 0 <= i < |exports| ==> !ServesView(exports[i], view)
      ensures r.Some? ==> exists i :: 0 <= i < |exports| && exports[i] == r.value && ServesView(exports[i], view)
                                      && forall j :: 0 <= j < i ==> !ServesView(exports[j], view)
    {
      var i := 0;
      while i < |exports|
        invariant 0 <= i <= |exports|
        invariant forall j :: 0 <= j < i ==> !ServesView(exports[j], view)
      {
        if ServesView(exports[i], view) {
          return Some(exports[i]);
        }
        i := i + 1;
      }
      return None;
    }

    /**
     * `getCurrentExport`: the export for the registry's export-view
     * parameter; an `IllegalStateException` when there is none.
     */
    method GetCurrentExport(registry: ParameterRegistry, prefixWithTableId: string, n: Names) returns (r: Result<Export>)
      ensures var view := FirstValue(registry.parameterMap, prefixWithTableId + n.exportView);
        && (r.Failure? <==> forall i :: 0 <= i < |exports| ==> !ServesView(exports[i], view))
        && (r.Success? ==> exists i :: 0 <= i < |exports| && exports[i] == r.value && ServesView(exports[i], view)
                                       && forall j :: 0 <= j < i ==> !ServesView(exports[j], view))
    {
      var exportView := registry.GetParameter(prefixWithTableId + n.exportView);
      var found := GetExport(exportView);
      if found.None? {
        return Failure("IllegalStateException");
      }
      return Success(found.value);
    }

    /** `showExports`: false when the table hides exports, otherwise whether any export was added. */
    function ShowExports(tableShowExports: bool): (r: bool)
      reads this
      ensures r <==> tableShowExports && exports != []
    {
      tableShowExports && |exports| > 0
    }
  }
}
