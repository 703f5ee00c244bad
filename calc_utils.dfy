/**
 * `CalcUtils`: resolving a column's calculators and feeding each row's
 * value to a calculator's accumulator.
 */
module CalcUtils {
  import opened Wrappers
  import opened Text
  import opened Names
  import opened Beans
  import opened Columns
  import opened CalcHandlers

  /** A property value as the calculators see it: a `Number`, or any other object by its `String.valueOf`. */
  datatype CalcValue = NumberValue(number: real) | OtherValue(text: string)

  /** `ExtremeUtils.isBeanPropertyReadable` and `PropertyUtils.getProperty`. */
  datatype CalcReader<!T> = CalcReader(isReadable: (T, string) -> bool, getProperty: (T, string) -> Access<CalcValue>)

  /** `CalcResult`: the resolved calculator name and its value, `None` for Java's null. */
  datatype CalcResult = CalcResult(name: string, value: Option<real>)

  /**
   * The model's collaborators: the preference lookup, `Class.forName`
   * succeeding, and `TableCache.getCalc(name).getCalcResult(model, column)`.
   */
  datatype CalcEnv = CalcEnv(preference: string -> Option<string>, isCalcClass: string -> bool,
                             runCalc: (string, Column) -> real)

  /** `getValue`: the decimal a value's string form denotes; 0 when it is blank or does not parse. */
  function GetValue(valueAsString: string): (r: real)
    ensures IsBlank(Some(valueAsString)) || ParseDecimal(valueAsString).None? ==> r == 0.0
    ensures !IsBlank(Some(valueAsString)) && ParseDecimal(valueAsString).Some? ==> r == ParseDecimal(valueAsString).value
  {
    if !IsBlank(Some(valueAsString)) then
      var parsed := ParseDecimal(valueAsString);
      if parsed.Some? then parsed.value else 0.0
    else 0.0
  }

  /** A printed whole number contributes its own value. */
  lemma GetValueOfNat(n: nat)
    ensures GetValue(NatToString(n)) == n as real
  {
    ParseDecimalOfNat(n);
    var s := NatToString(n);
    assert !IsWhitespace(s[0]);
  }

  /** `String.valueOf(null)`. */
  const NullText: string := "null"

  /** A null value is stringified to "null", which does not parse: it contributes 0. */
  lemma NullContributesZero()
    ensures GetValue(NullText) == 0.0
  {
    assert IndexOfExponent("null") == 4;
    assert IndexOf("null", '.') == 4;
    assert !AllDigits("null");
  }

  /**
   * What one row hands to the accumulator (lines 112-120): nothing when
   * the property is unreadable or reading it throws; a number as it is;
   * anything else, null included, through `GetValue`.
   */
  function RowCalcValue<T>(row: T, property: string, reader: CalcReader<T>): (r: Option<real>)
    ensures !reader.isReadable(row, property) ==> r.None?
    ensures reader.isReadable(row, property) && reader.getProperty(row, property).Found?
            && reader.getProperty(row, property).value.NumberValue?
            ==> r == Some(reader.getProperty(row, property).value.number)
    ensures reader.isReadable(row, property) && reader.getProperty(row, property).Null? ==> r == Some(0.0)
    ensures reader.isReadable(row, property) && reader.getProperty(row, property).Found?
            && reader.getProperty(row, property).value.OtherValue?
            ==> r == Some(GetValue(reader.getProperty(row, property).value.text))
    ensures reader.isReadable(row, property)
            && (reader.getProperty(row, property).NestedNull? || reader.getProperty(row, property).Error?)
            ==> r.None?
  {
    if !reader.isReadable(row, property) then None
    else
      match reader.getProperty(row, property)
      case Found(NumberValue(x)) => Some(x)
      case Found(OtherValue(s)) => Some(GetValue(s))
      case Null => NullContributesZero(); Some(GetValue(NullText))
      case NestedNull => None
      case Error => None
  }

  /** The values the accumulator receives for `rows`, one per readable row that reads without error, in row order. */
  function CalcValues<T>(rows: seq<T>, property: string, reader: CalcReader<T>): (r: seq<real>)
    ensures |r| <= |rows|
  {
    if rows == [] then []
    else
      var last := RowCalcValue(rows[|rows| - 1], property, reader);
      CalcValues(rows[..|rows| - 1], property, reader) + (if last.Some? then [last.value] else [])
  }

  /** When every row is readable and holds a number, the accumulator receives exactly those numbers. */
  lemma {:induction false} CalcValuesOfNumbers<T>(rows: seq<T>, property: string, reader: CalcReader<T>)
    requires forall i :: 0 <= i < |rows| ==> reader.isReadable(rows[i], property)
    requires forall i :: 0 <= i < |rows| ==> reader.getProperty(rows[i], property).Found?
                                              && reader.getProperty(rows[i], property).value.NumberValue?
    ensures |CalcValues(rows, property, reader)| == |rows|
    ensures forall i :: 0 <= i < |rows| ==>
      CalcValues(rows, property, reader)[i] == reader.getProperty(rows[i], property).value.number
  {
    if rows != [] {
      CalcValuesOfNumbers(rows[..|rows| - 1], property, reader);
    }
  }

  /** `eachRowCalcValue`: a null collection feeds nothing; otherwise each row's value, in order. */
  method EachRowCalcValue<T>(handler: AverageValue, rows: Option<seq<T>>, property: string, reader: CalcReader<T>)
    requires handler.Valid()
    modifies handler
    ensures handler.Valid()
    ensures handler.received
         == old(handler.received) + (if rows.None? then [] else CalcValues(rows.value, property, reader))
  {
    if rows.None? {
      return;
    }
    var list := rows.value;
    var i := 0;
    while i < |list|
      invariant 0 <= i <= |list|
      invariant handler.Valid()
      invariant handler.received == old(handler.received) + CalcValues(list[..i], property, reader)
    {
      var row := list[i];
      ghost var expected := RowCalcValue(row, property, reader);
      assert list[..i + 1][..i] == list[..i];
      assert CalcValues(list[..i + 1], property, reader)
          == CalcValues(list[..i], property, reader) + (if expected.Some? then [expected.value] else []);
      if reader.isReadable(row, property) {
        var value := reader.getProperty(row, property);
        if value.Found? || value.Null? {
          var number := match value
            case Found(NumberValue(x)) => x
            case Found(OtherValue(s)) => GetValue(s)
            case _ => GetValue(NullText);
          assert expected == Some(number);
          handler.ProcessCalcValue(number);
        }
      }
      i := i + 1;
    }
    assert list[..|list|] == list;
  }

  /** `getCalcClassNameByPosition`: the preference for the calc name when it is not blank, else the name. */
  function CalcClassName(column: Column, position: nat, env: CalcEnv, n: Names): (r: string)
    requires position < |column.calcs|
    ensures !IsBlank(env.preference(n.columnCalc + column.calcs[position]))
            ==> Some(r) == env.preference(n.columnCalc + column.calcs[position])
    ensures IsBlank(env.preference(n.columnCalc + column.calcs[position])) ==> r == column.calcs[position]
  {
    var calcName := column.calcs[position];
    var calcClassName := env.preference(n.columnCalc + calcName);
    if IsBlank(calcClassName) then calcName else calcClassName.value
  }

  /** `getCalcResultsByPosition`: a name that is no class yields a result with no value, never 0. */
  function CalcResultAt(column: Column, position: nat, env: CalcEnv, n: Names): (r: CalcResult)
    requires position < |column.calcs|
    ensures r.name == CalcClassName(column, position, env, n)
    ensures r.value.None? <==> !env.isCalcClass(r.name)
  {
    var calcClassName := CalcClassName(column, position, env, n);
    if !env.isCalcClass(calcClassName) then CalcResult(calcClassName, None)
    else CalcResult(calcClassName, Some(env.runCalc(calcClassName, column)))
  }

  /** `getCalcResults`: one result per declared calc, in declaration order. */
  method GetCalcResults(column: Column, env: CalcEnv, n: Names) returns (results: seq<CalcResult>)
    ensures |results| == |column.calcs|
    ensures forall i :: 0 <= i < |results| ==> results[i] == CalcResultAt(column, i, env, n)
  {
    results := [];
    var i := 0;
    while i < |column.calcs|
      invariant 0 <= i <= |column.calcs|
      invariant |results| == i
      invariant forall k :: 0 <= k < i ==> results[k] == CalcResultAt(column, k, env, n)
    {
      results := results + [CalcResultAt(column, i, env, n)];
      i := i + 1;
    }
  }

  /**
   * `getFirstCalcColumnTitleByPosition` over the handler's columns: the
   * title at `position` of the first calculated column. No calculated
   * column (a null dereference) and a position out of range are failures.
   */
  function GetFirstCalcColumnTitleByPosition(columns: seq<Column>, position: int): (r: Result<string>)
    ensures r.Success? <==> FirstCalculated(columns).Some? && 0 <= position < |FirstCalculated(columns).value.calcTitles|
    ensures r.Success? ==> r.value == FirstCalculated(columns).value.calcTitles[position]
  {
    var column := FirstCalculated(columns);
    if column.None? then Failure("NullPointerException")
    else if !(0 <= position < |column.value.calcTitles|) then Failure("ArrayIndexOutOfBoundsException")
    else Success(column.value.calcTitles[position])
  }
}
