/**
  The crawl plan: the page-select option values whose numeric coercion is
  truthy, in the order the control lists them (`.map(o => o.value).filter(v => +v)`).
 */
module PageOptions {
  import opened JsSemantics

  /** `values.filter(keep)` */
  function Filter(values: seq<string>, keep: string -> bool): (kept: seq<string>)
    ensures |kept| <= |values|
  {
    if values == [] then []
    else (if keep(values[0]) then [values[0]] else []) + Filter(values[1..], keep)
  }

  function Plan(options: seq<string>): seq<string> {
    Filter(options, IsTruthyNumber)
  }

  /** A value is kept exactly when it is listed and passes the test. */
  lemma {:induction false} FilterMembers(values: seq<string>, keep: string -> bool, v: string)
    ensures v in Filter(values, keep) <==> v in values && keep(v)
  {
    if values != [] {
      FilterMembers(values[1..], keep, v);
      assert values == [values[0]] + values[1..];
    }
  }

  /** Filtering distributes over concatenation: the original order is preserved. */
  lemma {:induction false} FilterAppend(a: seq<string>, b: seq<string>, keep: string -> bool)
    ensures Filter(a + b, keep) == Filter(a, keep) + Filter(b, keep)
  {
    if a == [] {
      assert a + b == b;
    } else {
      var head := if keep(a[0]) then [a[0]] else [];
      assert (a + b)[0] == a[0];
      assert (a + b)[1..] == a[1..] + b;
      FilterAppend(a[1..], b, keep);
      calc {
        Filter(a + b, keep);
        head + Filter(a[1..] + b, keep);
        head + (Filter(a[1..], keep) + Filter(b, keep));
        (head + Filter(a[1..], keep)) + Filter(b, keep);
        Filter(a, keep) + Filter(b, keep);
      }
    }
  }

  lemma FilterSingleton(v: string, keep: string -> bool)
    ensures Filter([v], keep) == if keep(v) then [v] else []
  {
    assert [v][1..] == [];
  }

  /** Each kept value occurs as often as in the input; each dropped one not at all. */
  lemma {:induction false} FilterCounts(values: seq<string>, keep: string -> bool, v: string)
    ensures multiset(Filter(values, keep))[v] == if keep(v) then multiset(values)[v] else 0
  {
    if values != [] {
      var head := if keep(values[0]) then [values[0]] else [];
      FilterCounts(values[1..], keep, v);
      assert values == [values[0]] + values[1..];
      assert multiset(values) == multiset([values[0]]) + multiset(values[1..]);
      assert multiset(Filter(values, keep)) == multiset(head) + multiset(Filter(values[1..], keep));
    }
  }

  /** Filtering an already-filtered list changes nothing. */
  lemma {:induction false} FilterIdempotent(values: seq<string>, keep: string -> bool)
    ensures Filter(Filter(values, keep), keep) == Filter(values, keep)
  {
    if values != [] {
      var head := if keep(values[0]) then [values[0]] else [];
      FilterAppend(head, Filter(values[1..], keep), keep);
      FilterIdempotent(values[1..], keep);
      if keep(values[0]) {
        FilterSingleton(values[0], keep);
      }
    }
  }

  /** The crawl plan holds exactly the listed values that coerce to a truthy number. */
  lemma PlanMembers(options: seq<string>, v: string)
    ensures v in Plan(options) <==> v in options && IsTruthyNumber(v)
  {
    FilterMembers(options, IsTruthyNumber, v);
  }

  lemma AllIsFalsy()
    ensures !IsTruthyNumber("All")
  {
    var s := "All";
    assert IsTrimmed(s);
    TrimmedIsOwnTrim(s);
    assert Unsigned(s) == s;
    assert s != "Infinity" by { assert |s| == 3; }
    assert !IsDigit(s[0]);
  }

  lemma FilterFour(a: string, b: string, c: string, d: string, keep: string -> bool)
    requires !keep(a) && keep(b) && keep(c) && !keep(d)
    ensures Filter([a, b, c, d], keep) == [b, c]
  {
    FilterSingleton(a, keep);
    FilterSingleton(b, keep);
    FilterSingleton(c, keep);
    FilterSingleton(d, keep);
    FilterAppend([c], [d], keep);
    assert [c] + [d] == [c, d];
    FilterAppend([b], [c, d], keep);
    assert [b] + [c, d] == [b, c, d];
    FilterAppend([a], [b, c, d], keep);
    assert [a] + [b, c, d] == [a, b, c, d];
  }

  /** The blank and "All" sentinels of the listing's page control are dropped. */
  lemma SentinelsDropped()
    ensures Plan(["", "1", "2", "All"]) == ["1", "2"]
  {
    BlankIsFalsy("");
    PositiveNumeralIsTruthy(1);
    PositiveNumeralIsTruthy(2);
    assert DecimalString(1) == "1" && DecimalString(2) == "2";
    AllIsFalsy();
    FilterFour("", "1", "2", "All", IsTruthyNumber);
  }
}
