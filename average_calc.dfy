/** `AverageCalc`: the mean of a column's values over the filtered rows. */
module AverageCalc {
  import opened Wrappers
  import opened Text
  import opened Beans
  import opened Columns
  import opened CalcHandlers
  import opened CalcUtils

  /** The average `getCalcResult` reports: the sum over the number of rows, 0 when there are none. */
  function Average(values: seq<real>, rowCount: nat): real {
    if rowCount > 0 then Sum(values) / rowCount as real else 0.0
  }

  /**
   * `getCalcResult`: the denominator is the number of filtered rows, not
   * the number of values the accumulator received.
   */
  method GetCalcResult<T>(rows: seq<T>, column: Column, reader: CalcReader<T>) returns (result: real)
    ensures result == Average(CalcValues(rows, column.property, reader), |rows|)
  {
    var totalValue := new AverageValue(|rows| as real);
    EachRowCalcValue(totalValue, Some(rows), column.property, reader);
    assert totalValue.received == CalcValues(rows, column.property, reader);
    result := totalValue.GetAverageValue();
  }

  /** A reader over rows that are the values themselves, all readable. */
  function ValueRows(): CalcReader<CalcValue> {
    CalcReader((row: CalcValue, property: string) => true, (row: CalcValue, property: string) => Found(row))
  }

  lemma AverageOfNoRows()
    ensures Average(CalcValues([], "amount", ValueRows()), 0) == 0.0
  {
  }

  lemma AverageOfOneRow()
    ensures Average(CalcValues([NumberValue(10.0)], "amount", ValueRows()), 1) == 10.0
  {
    assert [NumberValue(10.0)][..0] == [];
  }

  lemma AverageOfTwoRows()
    ensures Average(CalcValues([NumberValue(10.0), NumberValue(20.0)], "amount", ValueRows()), 2) == 15.0
  {
    var rows := [NumberValue(10.0), NumberValue(20.0)];
    CalcValuesOfNumbers(rows, "amount", ValueRows());
    var values := CalcValues(rows, "amount", ValueRows());
    assert values == [10.0, 20.0];
    assert values[..1] == [10.0] && [10.0][..0] == [];
  }

  /** An unparsable value still counts in the denominator: the mean of 10 and "abc" is 5. */
  lemma AverageWithUnparsableRow()
    ensures Average(CalcValues([NumberValue(10.0), OtherValue("abc")], "amount", ValueRows()), 2) == 5.0
  {
    var rows := [NumberValue(10.0), OtherValue("abc")];
    assert GetValue("abc") == 0.0 by {
      assert IndexOfExponent("abc") == 3;
      assert IndexOf("abc", '.') == 3;
      assert !AllDigits("abc");
    }
    assert rows[..1] == [NumberValue(10.0)] && rows[..1][..0] == [];
    var values := CalcValues(rows, "amount", ValueRows());
    assert values == [10.0, 0.0];
    assert values[..1] == [10.0] && [10.0][..0] == [];
  }
}
