/**
 * `FilterPredicate`: whether a row survives the filter set. Each column
 * with a filter value compares the row's (formatted) property value with
 * it; all compared columns must match, the first mismatch rejects the
 * row, and an exception ends the evaluation with the verdict so far.
 */
module FilterPredicates {
  import opened Wrappers
  import opened Text
  import opened Beans
  import opened FilterSets
  import opened Columns

  /**
   * The calls `evaluate` makes outside the engine: `PropertyUtils.getProperty`,
   * `Object.toString`, and `ExtremeUtils.formatDate(parse, format, value, locale)`
   * and `formatNumber(format, value, locale)` with the model's locale
   * fixed. A formatter result of `None` is a null string or an exception.
   */
  datatype RowReader<!T> = RowReader(getProperty: (T, string) -> Access<T>, toString: T -> string,
                                    formatDate: (Option<string>, Option<string>, T) -> Option<string>,
                                    formatNumber: (Option<string>, T) -> Option<string>)

  /**
   * What one column does to the evaluation: `Skip` (no filter value, or a
   * null property), `Pass`/`Fail` (compared, matched or not), `Throw` (an
   * exception leaves the loop).
   */
  datatype Step = Skip | Pass | Fail | Throw

  /** Both sides of `isSearchMatch` are lower-cased and trimmed first. */
  function Normalize(s: string): string {
    Trim(ToLower(s))
  }

  /** The three rules of `isSearchMatch` on normalized strings: `*x` suffix, `x*` prefix, else substring. */
  predicate WildcardMatch(v: string, s: string) {
    || (StartsWith(s, "*") && EndsWith(v, RemoveAll(s, '*')))
    || (EndsWith(s, "*") && StartsWith(v, RemoveAll(s, '*')))
    || Contains(v, s)
  }

  /** `isSearchMatch`. */
  function IsSearchMatch(value: string, search: string): bool {
    WildcardMatch(Normalize(value), Normalize(search))
  }

  /** The filter value a column is compared with: the set's value for its alias, `""` without an alias. */
  function FilterValueOf(column: Column, filterSet: FilterSet): string
    requires filterSet.filters.Some?
  {
    if column.alias.None? then "" else GetFilterValue(filterSet, column.alias.value)
  }

  /** The text a found property value is compared as: formatted for a date or currency column, `toString` otherwise. */
  function Shown<T>(column: Column, reader: RowReader<T>, value: T): Option<string> {
    if column.isDate then reader.formatDate(column.parse, column.format, value)
    else if column.isCurrency then reader.formatNumber(column.format, value)
    else Some(reader.toString(value))
  }

  /** The step one column contributes for `bean` (lines 52-80 of one loop iteration). */
  function ColumnStep<T>(column: Column, filterSet: FilterSet, reader: RowReader<T>, bean: T): (r: Step)
    ensures filterSet.filters.None? ==> r == Throw
    ensures filterSet.filters.Some? && FilterValueOf(column, filterSet) == "" ==> r == Skip
    ensures filterSet.filters.Some? && FilterValueOf(column, filterSet) != "" ==>
      match reader.getProperty(bean, column.property)
      case Null => r == Skip
      case Error => r == Throw
      case NestedNull => r == Throw
      case Found(value) =>
        && (Shown(column, reader, value).None? ==> r == Throw)
        && (Shown(column, reader, value).Some? ==>
              (r == Pass || r == Fail) && (r == Pass <==> IsSearchMatch(Shown(column, reader, value).value,
                                                                       FilterValueOf(column, filterSet))))
  {
    if filterSet.filters.None? then Throw
    else
      var filterValue := FilterValueOf(column, filterSet);
      if filterValue == "" then Skip
      else
        match reader.getProperty(bean, column.property)
        case Error => Throw
        case NestedNull => Throw
        case Null => Skip
        case Found(value) =>
          var shown := Shown(column, reader, value);
          if shown.None? then Throw
          else if IsSearchMatch(shown.value, filterValue) then Pass
          else Fail
  }

  /** The steps of every column, in column order. */
  function Steps<T>(columns: seq<Column>, filterSet: FilterSet, reader: RowReader<T>, bean: T): (r: seq<Step>)
    ensures |r| == |columns|
    ensures forall i :: 0 <= i < |columns| ==> r[i] == ColumnStep(columns[i], filterSet, reader, bean)
  {
    seq(|columns|, i requires 0 <= i < |columns| => ColumnStep(columns[i], filterSet, reader, bean))
  }

  /** The loop's verdict from `steps`, starting with `matched` (the flag's value so far). */
  function Outcome(steps: seq<Step>, matched: bool): bool {
    if steps == [] then matched
    else
      match steps[0]
      case Skip => Outcome(steps[1..], matched)
      case Pass => Outcome(steps[1..], true)
      case Fail => false
      case Throw => matched
  }

  /** Index of the first step that ends the loop (a failed match or an exception), or `|steps|`. */
  function FirstStop(steps: seq<Step>): (k: nat)
    ensures k <= |steps|
    ensures k < |steps| ==> steps[k] == Fail || steps[k] == Throw
    ensures forall i :: 0 <= i < k ==> steps[i] == Skip || steps[i] == Pass
  {
    if steps == [] then 0
    else if steps[0] == Fail || steps[0] == Throw then 0
    else 1 + FirstStop(steps[1..])
  }

  /**
   * The verdict in plain terms: the row is accepted exactly when some
   * column matched before the loop stopped, and the loop did not stop on
   * a mismatch (it ran to the end or an exception cut it short).
   */
  lemma {:induction false} OutcomeCharacterized(steps: seq<Step>, matched: bool)
    ensures Outcome(steps, matched) <==>
      && (matched || exists i :: 0 <= i < FirstStop(steps) && steps[i] == Pass)
      && (FirstStop(steps) == |steps| || steps[FirstStop(steps)] == Throw)
  {
    if steps != [] {
      var rest := steps[1..];
      match steps[0]
      case Skip =>
        OutcomeCharacterized(rest, matched);
        if exists i :: 0 <= i < FirstStop(rest) && rest[i] == Pass {
          var i :| 0 <= i < FirstStop(rest) && rest[i] == Pass;
          assert steps[i + 1] == Pass;
        }
      case Pass =>
        OutcomeCharacterized(rest, true);
        assert steps[0] == Pass;
      case Fail =>
      case Throw =>
    }
  }

  /** `evaluate`: the loop over the columns, with `break` on a mismatch and the catch returning the flag. */
  method Evaluate<T>(columns: seq<Column>, filterSet: FilterSet, reader: RowReader<T>, bean: T) returns (matched: bool)
    ensures matched == Outcome(Steps(columns, filterSet, reader, bean), false)
  {
    ghost var steps := Steps(columns, filterSet, reader, bean);
    matched := false;
    var i := 0;
    while i < |columns|
      invariant 0 <= i <= |columns|
      invariant Outcome(steps, false) == Outcome(steps[i..], matched)
    {
      assert steps[i..][1..] == steps[i + 1..];
      var step := ColumnStep(columns[i], filterSet, reader, bean);
      if step == Throw {
        return;
      } else if step == Fail {
        matched := false;
        return;
      } else if step == Pass {
        matched := true;
      }
      i := i + 1;
    }
  }

  /** A row on which no column was compared is rejected. */
  lemma {:induction false} NothingComparedRejects(steps: seq<Step>)
    requires forall i :: 0 <= i < |steps| ==> steps[i] == Skip || steps[i] == Throw
    ensures !Outcome(steps, false)
  {
    OutcomeCharacterized(steps, false);
  }

  /** With no exception, the row is accepted iff every compared column matched and at least one was compared. */
  lemma AcceptedWithoutExceptions(steps: seq<Step>)
    requires forall i :: 0 <= i < |steps| ==> steps[i] != Throw
    ensures Outcome(steps, false) <==>
      (forall i :: 0 <= i < |steps| ==> steps[i] != Fail) && (exists i :: 0 <= i < |steps| && steps[i] == Pass)
  {
    OutcomeCharacterized(steps, false);
  }

  /** Whether `evaluate` compares `column` on `bean`: it has a filter value and the property is not null. */
  predicate Compared<T>(column: Column, filterSet: FilterSet, reader: RowReader<T>, bean: T)
    requires filterSet.filters.Some?
  {
    FilterValueOf(column, filterSet) != "" && reader.getProperty(bean, column.property).Found?
  }

  /**
   * When no property read or formatting fails, a row is accepted exactly
   * when at least one column is compared and every compared column's
   * shown value matches that column's filter value.
   */
  lemma AcceptedIffAllMatch<T>(columns: seq<Column>, filterSet: FilterSet, reader: RowReader<T>, bean: T)
    requires filterSet.filters.Some?
    requires forall i :: 0 <= i < |columns| && FilterValueOf(columns[i], filterSet) != "" ==>
      match reader.getProperty(bean, columns[i].property)
      case Null => true
      case Found(value) => Shown(columns[i], reader, value).Some?
      case _ => false
    ensures Outcome(Steps(columns, filterSet, reader, bean), false) <==>
      && (exists i :: 0 <= i < |columns| && Compared(columns[i], filterSet, reader, bean))
      && (forall i :: 0 <= i < |columns| && Compared(columns[i], filterSet, reader, bean) ==>
            IsSearchMatch(Shown(columns[i], reader, reader.getProperty(bean, columns[i].property).value).value,
                          FilterValueOf(columns[i], filterSet)))
  {
    var steps := Steps(columns, filterSet, reader, bean);
    forall i | 0 <= i < |columns|
      ensures steps[i] != Throw
      ensures steps[i] != Skip <==> Compared(columns[i], filterSet, reader, bean)
      ensures Compared(columns[i], filterSet, reader, bean) ==>
        (steps[i] == Pass <==> IsSearchMatch(Shown(columns[i], reader, reader.getProperty(bean, columns[i].property).value).value,
                                             FilterValueOf(columns[i], filterSet)))
    {
      assert steps[i] == ColumnStep(columns[i], filterSet, reader, bean);
    }
    AcceptedWithoutExceptions(steps);
  }

  // ---------------------------------------------------------------------
  // Properties of the search match

  /** Characters at or below U+0020 around a string are dropped by normalizing. */
  lemma NormalizePadded(a: string, value: string, b: string)
    requires AllTrimmable(a) && AllTrimmable(b)
    ensures Normalize(a + value + b) == Normalize(value)
  {
    var la, y, lb := ToLower(a), ToLower(value), ToLower(b);
    assert ToLower(a + value + b) == la + y + lb;
    assert AllTrimmable(la) by {
      forall k | 0 <= k < |la| ensures IsTrimmable(la[k]) { assert la[k] == LowerChar(a[k]); }
    }
    assert AllTrimmable(lb) by {
      forall k | 0 <= k < |lb| ensures IsTrimmable(lb[k]) { assert lb[k] == LowerChar(b[k]); }
    }
    TrimIgnoresPadding(la, y, lb);
  }

  /** Blanks and control characters around the value or the search do not change the verdict. */
  lemma PaddingIgnored(a: string, value: string, search: string, b: string)
    requires AllTrimmable(a) && AllTrimmable(b)
    ensures IsSearchMatch(a + value + b, search) == IsSearchMatch(value, search)
    ensures IsSearchMatch(value, a + search + b) == IsSearchMatch(value, search)
  {
    NormalizePadded(a, value, b);
    NormalizePadded(a, search, b);
  }

  lemma ToLowerIdempotent(s: string)
    ensures ToLower(ToLower(s)) == ToLower(s)
  {
  }

  /** Case does not matter: lower-casing the value or the search first gives the same verdict. */
  lemma CaseIgnored(value: string, search: string)
    ensures IsSearchMatch(ToLower(value), search) == IsSearchMatch(value, search)
    ensures IsSearchMatch(value, ToLower(search)) == IsSearchMatch(value, search)
  {
    ToLowerIdempotent(value);
    ToLowerIdempotent(search);
  }

  /** Normalizing introduces no `*`. */
  lemma NormalizeKeepsNoStar(search: string)
    requires forall i :: 0 <= i < |search| ==> search[i] != '*'
    ensures forall i :: 0 <= i < |Normalize(search)| ==> Normalize(search)[i] != '*'
  {
    var lower := ToLower(search);
    var lo, hi :| 0 <= lo <= hi <= |lower| && Trim(lower) == lower[lo..hi];
    forall i | 0 <= i < hi - lo ensures lower[lo..hi][i] != '*' {
      assert lower[lo..hi][i] == LowerChar(search[lo + i]);
    }
  }

  /** A search without `*` matches exactly when its normalized form occurs in the value's. */
  lemma PlainSearchIsContainment(value: string, search: string)
    requires forall i :: 0 <= i < |search| ==> search[i] != '*'
    ensures IsSearchMatch(value, search) <==> Contains(Normalize(value), Normalize(search))
  {
    var s := Normalize(search);
    NormalizeKeepsNoStar(search);
    if StartsWith(s, "*") {
      assert false;
    }
    if EndsWith(s, "*") {
      assert false;
    }
  }

  /** A string already in lower case and without blank ends is its own normal form. */
  lemma NormalizeNormal(s: string)
    requires forall i :: 0 <= i < |s| ==> !('A' <= s[i] <= 'Z')
    requires |s| > 0 ==> s[0] > ' ' && s[|s| - 1] > ' '
    ensures Normalize(s) == s
  {
    assert ToLower(s) == s;
    assert [] + s + [] == s;
    TrimOfPadded([], s, []);
  }

  lemma NormalizedValueExample()
    ensures Normalize("Acme Corp") == "acme corp"
  {
    assert ToLower("Acme Corp") == "acme corp";
    NormalizeNormal("acme corp");
  }

  /** `*corp` finds `Acme Corp`: its normal form ends with `corp`. */
  lemma SuffixSearchExample()
    ensures IsSearchMatch("Acme Corp", "*corp")
  {
    NormalizedValueExample();
    assert IsPlainTerm("*corp"[1..]);
    SuffixSearch("Acme Corp", "*corp");
    assert "acme corp"[5..] == "*corp"[1..];
  }

  /** `acme*` finds `Acme Corp`: its normal form starts with `acme`. */
  lemma PrefixSearchExample()
    ensures IsSearchMatch("Acme Corp", "acme*")
  {
    NormalizedValueExample();
    assert IsPlainTerm("acme*"[..4]);
    PrefixSearch("Acme Corp", "acme*");
    assert "acme corp"[..4] == "acme*"[..4];
  }

  /** `xyz` does not find `Acme Corp`: it occurs nowhere in its normal form. */
  lemma PlainSearchExample()
    ensures !IsSearchMatch("Acme Corp", "xyz")
  {
    var v := "acme corp";
    NormalizedValueExample();
    NormalizeNormal("xyz");
    PlainSearchIsContainment("Acme Corp", "xyz");
    forall i | 0 <= i <= |v| - 3 ensures !OccursAt(v, "xyz", i) {
      assert v[i] != 'x';
    }
  }

  /** A normal form: lower case, no `*`, and no blank at either end. */
  predicate IsPlainTerm(x: string) {
    && (forall i :: 0 <= i < |x| ==> !('A' <= x[i] <= 'Z') && x[i] != '*')
    && (|x| > 0 ==> x[0] > ' ' && x[|x| - 1] > ' ')
  }

  lemma {:induction false} RemoveAllAbsent(s: string, c: char)
    requires forall i :: 0 <= i < |s| ==> s[i] != c
    ensures RemoveAll(s, c) == s
  {
    if s != [] {
      RemoveAllAbsent(s[1..], c);
      assert s == [s[0]] + s[1..];
    }
  }

  /** A value without `*` never contains a search term that has one. */
  lemma StarNeverContained(v: string, s: string, k: nat)
    requires forall i :: 0 <= i < |v| ==> v[i] != '*'
    requires k < |s| && s[k] == '*'
    ensures !Contains(v, s)
  {
  }

  lemma {:induction false} RemoveAllSplit(a: string, b: string, c: char)
    ensures RemoveAll(a + b, c) == RemoveAll(a, c) + RemoveAll(b, c)
  {
    if a == [] {
      assert a + b == b;
    } else {
      assert (a + b)[1..] == a[1..] + b;
      RemoveAllSplit(a[1..], b, c);
    }
  }

  /** On normalized strings, `*x` tests for the suffix `x`. */
  lemma SuffixWildcard(v: string, search: string)
    requires forall i :: 0 <= i < |v| ==> v[i] != '*'
    requires |search| > 1 && search[0] == '*' && IsPlainTerm(search[1..])
    ensures WildcardMatch(v, search) <==> EndsWith(v, search[1..])
  {
    var x := search[1..];
    assert search == "*" + x;
    RemoveAllAbsent(x, '*');
    RemoveAllSplit("*", x, '*');
    assert RemoveAll("*", '*') == [];
    assert search[|search| - 1] == x[|x| - 1];
    StarNeverContained(v, search, 0);
  }

  /** On normalized strings, `x*` tests for the prefix `x`. */
  lemma PrefixWildcard(v: string, search: string)
    requires forall i :: 0 <= i < |v| ==> v[i] != '*'
    requires |search| > 1 && search[|search| - 1] == '*' && IsPlainTerm(search[..|search| - 1])
    ensures WildcardMatch(v, search) <==> StartsWith(v, search[..|search| - 1])
  {
    var x := search[..|search| - 1];
    assert search == x + "*";
    RemoveAllAbsent(x, '*');
    RemoveAllSplit(x, "*", '*');
    assert RemoveAll("*", '*') == [];
    assert search[0] == x[0];
    StarNeverContained(v, search, |x|);
  }

  lemma StarredIsNormal(search: string)
    requires |search| > 1 && search[0] == '*' && IsPlainTerm(search[1..])
    ensures Normalize(search) == search
  {
    forall i | 0 <= i < |search| ensures !('A' <= search[i] <= 'Z') {
      if i > 0 {
        assert search[i] == search[1..][i - 1];
      }
    }
    NormalizeNormal(search);
  }

  lemma SearchOfNormal(value: string, search: string)
    requires Normalize(search) == search
    ensures IsSearchMatch(value, search) == WildcardMatch(Normalize(value), search)
  {
  }

  /** A search `*x` is a suffix search: it matches exactly the values whose normal form ends with `x`. */
  lemma SuffixSearch(value: string, search: string)
    requires forall i :: 0 <= i < |value| ==> value[i] != '*'
    requires |search| > 1 && search[0] == '*' && IsPlainTerm(search[1..])
    ensures IsSearchMatch(value, search) <==> EndsWith(Normalize(value), search[1..])
  {
    StarredIsNormal(search);
    SearchOfNormal(value, search);
    NormalizeKeepsNoStar(value);
    SuffixWildcard(Normalize(value), search);
  }

  /** A search `x*` is a prefix search: it matches exactly the values whose normal form starts with `x`. */
  lemma PrefixSearch(value: string, search: string)
    requires forall i :: 0 <= i < |value| ==> value[i] != '*'
    requires |search| > 1 && search[|search| - 1] == '*' && IsPlainTerm(search[..|search| - 1])
    ensures IsSearchMatch(value, search) <==> StartsWith(Normalize(value), search[..|search| - 1])
  {
    NormalizeNormal(search);
    SearchOfNormal(value, search);
    NormalizeKeepsNoStar(value);
    PrefixWildcard(Normalize(value), search);
  }
}
