/**
 * The accumulator `AverageCalc` hands to `CalcUtils.eachRowCalcValue`
 * (`AverageCalc.AverageValue`, a `CalcHandler`). Java's `double` is
 * modelled as `real`.
 */
module CalcHandlers {
  /** The sum of `values`, added up from the first to the last. */
  function Sum(values: seq<real>): real {
    if values == [] then 0.0 else Sum(values[..|values| - 1]) + values[|values| - 1]
  }

  class AverageValue {
    var total: real
    const rowCount: real
    /** Every value passed to `processCalcValue`, in call order. */
    ghost var received: seq<real>

    /** `total` is the running sum of what was received. */
    ghost predicate Valid()
      reads this
    {
      total == Sum(received)
    }

    constructor (rowCount: real)
      ensures Valid() && received == [] && total == 0.0 && this.rowCount == rowCount
    {
      total := 0.0;
      this.rowCount := rowCount;
      received := [];
    }

    /** `processCalcValue`: adds the value to the total. */
    method ProcessCalcValue(calcValue: real)
      requires Valid()
      modifies this
      ensures Valid() && received == old(received) + [calcValue]
      ensures total == old(total) + calcValue
    {
      received := received + [calcValue];
      assert received[..|received| - 1] == old(received);
      total := total + calcValue;
    }

    /** `getAverageValue`: the total over the row count; 0 when there are no rows, never a division by zero. */
    function GetAverageValue(): (r: real)
      reads this
      ensures rowCount > 0.0 ==> r * rowCount == total
      ensures rowCount <= 0.0 ==> r == 0.0
    {
      if rowCount > 0.0 then total / rowCount else 0.0
    }
  }
}
