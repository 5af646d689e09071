/**
 * The field-by-field comparison of an extracted record against a ground
 * truth: a detail row per expected field, the count of matching fields and
 * the accuracy, precision, recall and F1 ratios derived from that count.
 * Ratios are exact reals.
 */
module Evaluation {
  import opened Wrappers

  /** A dictionary in insertion order: its members as (key, value) pairs. */
  predicate DistinctKeys<V>(d: seq<(string, V)>) {
    forall i, j :: 0 <= i < j < |d| ==> d[i].0 != d[j].0
  }

  /** A Python dictionary: no key appears twice. */
  type Dict<V> = d: seq<(string, V)> | DistinctKeys(d) witness []

  /** `d.get(key)`: the value stored under `key`, `None` when the key is absent. */
  function Get<V>(d: seq<(string, V)>, key: string): (r: Option<V>)
    ensures r.None? <==> forall i :: 0 <= i < |d| ==> d[i].0 != key
    ensures r.Some? ==> (key, r.value) in d
  {
    if d == [] then None
    else if d[0].0 == key then Some(d[0].1)
    else
      var r := Get(d[1..], key);
      assert forall i :: 1 <= i < |d| ==> d[i] == d[1..][i - 1];
      r
  }

  /** In a dictionary, every member's key looks up that member's value. */
  lemma {:induction false} GetMember<V>(d: seq<(string, V)>, i: nat)
    requires DistinctKeys(d) && i < |d|
    ensures Get(d, d[i].0) == Some(d[i].1)
  {
    if i > 0 {
      assert d[i] == d[1..][i - 1];
      GetMember(d[1..], i - 1);
    }
  }

  /** `field in actual and expected[field] == actual[field]`. */
  predicate Matches<V(==)>(member: (string, V), actual: seq<(string, V)>) {
    Get(actual, member.0) == Some(member.1)
  }

  /** One row of `details`: the field, its expected value, its actual value (`None` for "Missing") and whether they match. */
  datatype Detail<V> = Detail(field: string, expected: V, actual: Option<V>, matched: bool)

  /** What `evaluate_results` returns. */
  datatype Results<V> = Results(accuracy: real, precision: real, recall: real, f1: real, details: seq<Detail<V>>)

  /** The row appended for an expected member. */
  function Row<V(==)>(member: (string, V), actual: seq<(string, V)>): Detail<V> {
    Detail(member.0, member.1, Get(actual, member.0), Matches(member, actual))
  }

  /** The rows for `expected`, one per member in order. */
  function Details<V(==)>(expected: seq<(string, V)>, actual: seq<(string, V)>): seq<Detail<V>> {
    if expected == [] then []
    else Details(expected[..|expected| - 1], actual) + [Row(expected[|expected| - 1], actual)]
  }

  /** How many elements of `s` satisfy `keep`. */
  function Count<T>(s: seq<T>, keep: T -> bool): (n: nat)
    ensures n <= |s|
  {
    if s == [] then 0
    else Count(s[..|s| - 1], keep) + (if keep(s[|s| - 1]) then 1 else 0)
  }

  /** Matching against `actual`, as a test on expected members. */
  function MatchesIn<V(==)>(actual: seq<(string, V)>): ((string, V)) -> bool {
    (member: (string, V)) => Matches(member, actual)
  }

  /** The number of expected members that match. */
  function Correct<V(==)>(expected: seq<(string, V)>, actual: seq<(string, V)>): nat {
    Count(expected, MatchesIn(actual))
  }

  /** `n / d if d > 0 else 0`. */
  function Ratio(n: nat, d: nat): real {
    if d > 0 then n as real / d as real else 0.0
  }

  /** `2 * (p * r) / (p + r) if (p + r) > 0 else 0`. */
  function F1(p: real, r: real): real {
    if p + r > 0.0 then 2.0 * (p * r) / (p + r) else 0.0
  }

  /** `evaluate_results`: one pass over the expected fields, counting and recording matches. */
  method EvaluateResults<V(==)>(expected: Dict<V>, actual: Dict<V>) returns (r: Results<V>)
    ensures r.details == Details(expected, actual)
    ensures r.accuracy == Ratio(Correct(expected, actual), |expected|)
    ensures r.precision == Ratio(Correct(expected, actual), |actual|)
    ensures r.recall == Ratio(Correct(expected, actual), |expected|)
    ensures r.f1 == F1(r.precision, r.recall)
  {
    var metrics: seq<Detail<V>> := [];
    var totalFields := 0;
    var correctFields := 0;
    for i := 0 to |expected|
      invariant totalFields == i
      invariant metrics == Details(expected[..i], actual)
      invariant correctFields == Correct(expected[..i], actual)
    {
      assert expected[..i + 1][..i] == expected[..i];
      var field := expected[i].0;
      totalFields := totalFields + 1;
      var actualValue := Get(actual, field);
      var matched := actualValue == Some(expected[i].1);
      metrics := metrics + [Detail(field, expected[i].1, actualValue, matched)];
      if matched {
        correctFields := correctFields + 1;
      }
    }
    assert expected[..|expected|] == expected;
    var accuracy := Ratio(correctFields, totalFields);
    var precision := Ratio(correctFields, |actual|);
    var recall := Ratio(correctFields, |expected|);
    var f1 := F1(precision, recall);
    r := Results(accuracy, precision, recall, f1, metrics);
  }

  /**
   * `details` has one row per expected field, in the expected order, carrying
   * the field, its expected value, the actual value or "Missing", and whether
   * the field is present in `actual` with an equal value.
   */
  lemma DetailsSpec<V>(expected: seq<(string, V)>, actual: Dict<V>)
    ensures |Details(expected, actual)| == |expected|
    ensures forall i :: 0 <= i < |expected| ==>
      var d := Details(expected, actual)[i];
      d.field == expected[i].0 && d.expected == expected[i].1 && d.actual == Get(actual, expected[i].0)
      && (d.matched <==> exists j :: 0 <= j < |actual| && actual[j] == expected[i])
  {
    DetailsRows(expected, actual);
    forall i | 0 <= i < |expected|
      ensures Details(expected, actual)[i].matched <==> exists j :: 0 <= j < |actual| && actual[j] == expected[i]
    {
      MatchesIffMember(expected[i], actual);
    }
  }

  /** The rows of `Details`, position by position. */
  lemma {:induction false} DetailsRows<V>(expected: seq<(string, V)>, actual: seq<(string, V)>)
    ensures |Details(expected, actual)| == |expected|
    ensures forall i :: 0 <= i < |expected| ==> Details(expected, actual)[i] == Row(expected[i], actual)
  {
    if expected != [] {
      var init := expected[..|expected| - 1];
      DetailsRows(init, actual);
      forall i | 0 <= i < |init|
        ensures Details(expected, actual)[i] == Row(expected[i], actual)
      {
        assert init[i] == expected[i];
      }
    }
  }

  /** In a dictionary a field matches exactly when the same (key, value) member is present. */
  lemma MatchesIffMember<V>(member: (string, V), actual: seq<(string, V)>)
    requires DistinctKeys(actual)
    ensures Matches(member, actual) <==> exists j :: 0 <= j < |actual| && actual[j] == member
  {
    if j :| 0 <= j < |actual| && actual[j] == member {
      GetMember(actual, j);
    }
  }

  /** The keys of a dictionary. */
  function KeySet<V>(d: seq<(string, V)>): set<string> {
    set i | 0 <= i < |d| :: d[i].0
  }

  /** A dictionary has as many keys as members. */
  lemma {:induction false} KeySetSize<V>(d: seq<(string, V)>)
    requires DistinctKeys(d)
    ensures |KeySet(d)| == |d|
  {
    if d != [] {
      var init := d[..|d| - 1];
      KeySetSize(init);
      assert KeySet(d) == KeySet(init) + {d[|d| - 1].0} by {
        forall i | 0 <= i < |init| ensures init[i].0 == d[i].0 { }
        assert forall i :: 0 <= i < |d| - 1 ==> d[i].0 in KeySet(init) by {
          forall i | 0 <= i < |d| - 1 ensures d[i].0 in KeySet(init) { assert init[i] == d[i]; }
        }
      }
      assert d[|d| - 1].0 !in KeySet(init);
    }
  }

  /** The keys of the members that satisfy `keep`. */
  function KeysWhere<V>(d: seq<(string, V)>, keep: ((string, V)) -> bool): set<string> {
    set i | 0 <= i < |d| && keep(d[i]) :: d[i].0
  }

  /** The keys satisfying `keep` after appending a member: those before, plus its key if it satisfies `keep`. */
  lemma KeysWhereSnoc<V>(init: seq<(string, V)>, last: (string, V), keep: ((string, V)) -> bool)
    requires DistinctKeys(init + [last])
    ensures KeysWhere(init + [last], keep) == KeysWhere(init, keep) + (if keep(last) then {last.0} else {})
    ensures last.0 !in KeysWhere(init, keep)
  {
    var d := init + [last];
    forall f | f in KeysWhere(d, keep) ensures f in KeysWhere(init, keep) + (if keep(last) then {last.0} else {}) {
      var i :| 0 <= i < |d| && keep(d[i]) && d[i].0 == f;
      if i < |init| {
        assert init[i] == d[i];
      }
    }
    assert d[|init|] == last;
    forall f | f in KeysWhere(init, keep) ensures f in KeysWhere(d, keep) && f != last.0 {
      var i :| 0 <= i < |init| && keep(init[i]) && init[i].0 == f;
      assert d[i] == init[i];
    }
    if keep(last) {
      assert d[|init|].0 in KeysWhere(d, keep);
    }
  }

  /** With distinct keys, as many keys satisfy `keep` as members do. */
  lemma {:induction false} KeysWhereSize<V>(d: seq<(string, V)>, keep: ((string, V)) -> bool)
    requires DistinctKeys(d)
    ensures |KeysWhere(d, keep)| == Count(d, keep)
  {
    if d != [] {
      var init := d[..|d| - 1];
      var last := d[|d| - 1];
      KeysWhereSize(init, keep);
      KeysWhereSnoc(init, last, keep);
      assert d == init + [last];
    }
  }

  /** Every matched field is a key of `actual`. */
  lemma MatchedAreKeys<V>(expected: seq<(string, V)>, actual: seq<(string, V)>)
    ensures KeysWhere(expected, MatchesIn(actual)) <= KeySet(actual)
  {
    forall f | f in KeysWhere(expected, MatchesIn(actual)) ensures f in KeySet(actual) {
      var i :| 0 <= i < |expected| && MatchesIn(actual)(expected[i]) && expected[i].0 == f;
      var j :| 0 <= j < |actual| && actual[j] == (f, expected[i].1);
    }
  }

  /** A subset is no larger than its superset. */
  lemma SubsetSize<T>(a: set<T>, b: set<T>)
    requires a <= b
    ensures |a| <= |b|
  {
    assert b == a + (b - a);
  }

  /** The matches never outnumber the actual fields. */
  lemma CorrectAtMostActual<V>(expected: Dict<V>, actual: Dict<V>)
    ensures Correct(expected, actual) <= |actual|
  {
    KeysWhereSize(expected, MatchesIn(actual));
    KeySetSize(actual);
    MatchedAreKeys(expected, actual);
    SubsetSize(KeysWhere(expected, MatchesIn(actual)), KeySet(actual));
  }

  /** The count is the whole sequence exactly when every element satisfies `keep`. */
  lemma {:induction false} CountAllIff<T>(s: seq<T>, keep: T -> bool)
    ensures Count(s, keep) == |s| <==> forall i :: 0 <= i < |s| ==> keep(s[i])
  {
    if s != [] {
      var init := s[..|s| - 1];
      CountAllIff(init, keep);
      assert forall i :: 0 <= i < |init| ==> init[i] == s[i];
    }
  }

  /** A count out of a total it does not exceed gives a ratio between 0 and 1, and 1 only for the whole. */
  lemma RatioBounds(n: nat, d: nat)
    requires n <= d
    ensures 0.0 <= Ratio(n, d) <= 1.0
    ensures d > 0 ==> (Ratio(n, d) == 1.0 <==> n == d)
  {
    if d > 0 {
      assert n as real / d as real <= d as real / d as real;
      if n as real / d as real == 1.0 {
        assert n as real == d as real * (n as real / d as real);
      }
    }
  }

  /** A quotient of a part by a positive whole lies between 0 and 1. */
  lemma PartOfWhole(x: real, w: real)
    requires 0.0 <= x <= w && w > 0.0
    ensures 0.0 <= x / w <= 1.0
  {
    var q := x / w;
    assert q * w == x;
    assert (q - 1.0) * w == x - w;
  }

  /** The product of two non-negative reals is non-negative. */
  lemma NonnegativeProduct(x: real, y: real)
    requires 0.0 <= x && 0.0 <= y
    ensures 0.0 <= x * y
  {
  }

  /** Twice the product of two ratios between 0 and 1 is at most their sum. */
  lemma ProductAtMostMean(p: real, r: real)
    requires 0.0 <= p <= 1.0 && 0.0 <= r <= 1.0
    ensures 0.0 <= 2.0 * (p * r) <= p + r
  {
    NonnegativeProduct(p, r);
    NonnegativeProduct(p, 1.0 - r);
    NonnegativeProduct(1.0 - p, r);
    assert p * (1.0 - r) == p - p * r;
    assert (1.0 - p) * r == r - p * r;
  }

  /** F1 of two ratios between 0 and 1 is between 0 and 1, and is 1 when both are. */
  lemma F1Bounds(p: real, r: real)
    requires 0.0 <= p <= 1.0 && 0.0 <= r <= 1.0
    ensures 0.0 <= F1(p, r) <= 1.0
    ensures p == 1.0 && r == 1.0 ==> F1(p, r) == 1.0
  {
    if p + r > 0.0 {
      ProductAtMostMean(p, r);
      PartOfWhole(2.0 * (p * r), p + r);
    }
  }

  /**
   * All four measures lie between 0 and 1; accuracy equals recall; an empty
   * `expected` gives accuracy and recall 0, an empty `actual` precision 0.
   */
  lemma MetricsBounded<V>(expected: Dict<V>, actual: Dict<V>)
    ensures var n := Correct(expected, actual);
      var p := Ratio(n, |actual|);
      var r := Ratio(n, |expected|);
      0.0 <= r <= 1.0 && 0.0 <= p <= 1.0 && 0.0 <= F1(p, r) <= 1.0
      && (|expected| == 0 ==> r == 0.0)
      && (|actual| == 0 ==> p == 0.0)
  {
    var n := Correct(expected, actual);
    CorrectAtMostActual(expected, actual);
    RatioBounds(n, |actual|);
    RatioBounds(n, |expected|);
    F1Bounds(Ratio(n, |actual|), Ratio(n, |expected|));
  }

  /** Accuracy is 1 exactly when every expected field is present with an equal value. */
  lemma PerfectAccuracyIff<V>(expected: seq<(string, V)>, actual: seq<(string, V)>)
    requires expected != []
    ensures Ratio(Correct(expected, actual), |expected|) == 1.0
      <==> forall i :: 0 <= i < |expected| ==> Matches(expected[i], actual)
  {
    CountAllIff(expected, MatchesIn(actual));
    RatioBounds(Correct(expected, actual), |expected|);
  }

  /** Comparing a non-empty record with itself scores 1 on every measure. */
  lemma IdenticalScoresOne<V>(d: Dict<V>)
    requires d != []
    ensures var n := Correct(d, d);
      Ratio(n, |d|) == 1.0 && F1(Ratio(n, |d|), Ratio(n, |d|)) == 1.0
  {
    forall i | 0 <= i < |d| ensures Matches(d[i], d) {
      GetMember(d, i);
    }
    PerfectAccuracyIff(d, d);
    F1Bounds(1.0, 1.0);
  }
}
