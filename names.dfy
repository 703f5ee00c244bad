/**
 * The parameter-name and preference-key constants the core reads.
 * Their string values live in `TableConstants`, `PreferencesConstants`,
 * `MessagesConstants` and `TreeConstants`, which are not part of this
 * model, so they are carried as an uninterpreted record: every property
 * proved here holds whatever the values are, unless a lemma says what
 * it needs of them.
 */
module Names {

  datatype Names = Names(
    // the eight table-scoped parameter segments that follow `prefixWithTableId`
    page: string,                  // TableConstants.PAGE
    currentRowsDisplayed: string,  // TableConstants.CURRENT_ROWS_DISPLAYED
    sort: string,                  // TableConstants.SORT
    filter: string,                // TableConstants.FILTER
    exportView: string,            // TableConstants.EXPORT_VIEW
    exportFileName: string,        // TableConstants.EXPORT_FILE_NAME
    alias: string,                 // TableConstants.ALIAS
    treeOpen: string,              // TreeConstants.OPEN
    // the two throw-away request parameters
    exportTableId: string,         // TableConstants.EXPORT_TABLE_ID
    instance: string,              // TableConstants.EXTREME_COMPONENTS_INSTANCE
    // filter actions and sort orders
    action: string,                // TableConstants.ACTION
    filterAction: string,          // TableConstants.FILTER_ACTION
    clearAction: string,           // TableConstants.CLEAR_ACTION
    sortAsc: string,               // TableConstants.SORT_ASC
    sortDesc: string,              // TableConstants.SORT_DESC
    sortDefault: string,           // TableConstants.SORT_DEFAULT
    // preference and message keys used by the column defaults and the calc engine
    columnCalc: string,            // PreferencesConstants.COLUMN_CALC
    columnCell: string,            // PreferencesConstants.COLUMN_CELL
    columnFilterCell: string,      // PreferencesConstants.COLUMN_FILTER_CELL
    columnHeaderCell: string,      // PreferencesConstants.COLUMN_HEADER_CELL
    columnParse: string,           // PreferencesConstants.COLUMN_PARSE
    columnFormat: string,          // PreferencesConstants.COLUMN_FORMAT
    messagesColumnFormat: string,  // MessagesConstants.COLUMN_FORMAT
    cellDisplay: string,           // TableConstants.CELL_DISPLAY
    cellFilter: string,            // TableConstants.CELL_FILTER
    cellHeader: string,            // TableConstants.CELL_HEADER
    date: string,                  // TableConstants.DATE
    currency: string               // TableConstants.CURRENCY
  ) {
    /** The eight segments that make a request parameter table-scoped, in the order the registry tests them. */
    function Segments(): seq<string> {
      [page, currentRowsDisplayed, sort, filter, exportView, exportFileName, alias, treeOpen]
    }
  }
}
