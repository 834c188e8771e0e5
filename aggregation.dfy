/** The aggregators `process_vacancies_hh` and `process_vacancies_sj` of main.py: a walk
    over the collected pages that sums the truthy rouble estimates, counts them, keeps a
    found count, and finally divides the sum by the count. */
module Aggregation {
  import opened Wrappers
  import opened Salary
  import opened Vacancies

  /** The `language_params` record an aggregator returns. */
  datatype LanguageStats = LanguageStats(average: int, processed: nat, found: int)

  /** The exception the final division raises when nothing was processed. */
  datatype ProcessError = DivisionByZero

  /** Sum of a sequence of salaries, added left to right. */
  function Sum(s: seq<real>): real
  {
    if s == [] then 0.0 else Sum(s[..|s| - 1]) + s[|s| - 1]
  }

  /** Python's `int()` on a float: truncation toward zero. */
  function Trunc(x: real): (r: int)
    ensures 0.0 <= x ==> r as real <= x < r as real + 1.0
    ensures x < 0.0 ==> r as real - 1.0 < x <= r as real
  {
    if x >= 0.0 then x.Floor else -((-x).Floor)
  }

  /** The values of the truthy estimates, in order: what an aggregator adds to its sum
      for one page. */
  function TruthyValues(estimates: seq<Option<real>>): (r: seq<real>)
    ensures |r| <= |estimates|
    ensures forall x | x in r :: x != 0.0 && Some(x) in estimates
  {
    if estimates == [] then []
    else
      var last := estimates[|estimates| - 1];
      TruthyValues(estimates[..|estimates| - 1]) + (if Truthy(last) then [last.value] else [])
  }

  /** Number of records over all pages. */
  function Count(estimates: seq<seq<Option<real>>>): nat
  {
    if estimates == [] then 0 else Count(estimates[..|estimates| - 1]) + |estimates[|estimates| - 1]|
  }

  /** The truthy estimates of all pages, page by page. */
  function Salaries(estimates: seq<seq<Option<real>>>): (r: seq<real>)
    ensures |r| <= Count(estimates)
  {
    if estimates == [] then []
    else Salaries(estimates[..|estimates| - 1]) + TruthyValues(estimates[|estimates| - 1])
  }

  /** The rouble estimate of every vacancy of one HeadHunter page. */
  function HhItemEstimates(items: seq<HhVacancy>): seq<Option<real>>
  {
    seq(|items|, j requires 0 <= j < |items| => RubSalaryHh(items[j]))
  }

  /** The rouble estimate of every HeadHunter vacancy, page by page. */
  function HhEstimates(pages: seq<HhPage>): seq<seq<Option<real>>>
  {
    seq(|pages|, i requires 0 <= i < |pages| => HhItemEstimates(pages[i].items))
  }

  /** The rouble estimate of every vacancy of one SuperJob page. */
  function SjItemEstimates(objects: seq<SjVacancy>): seq<Option<real>>
  {
    seq(|objects|, j requires 0 <= j < |objects| => RubSalarySj(objects[j]))
  }

  /** The rouble estimate of every SuperJob vacancy, page by page. */
  function SjEstimates(pages: seq<SjPage>): seq<seq<Option<real>>>
  {
    seq(|pages|, i requires 0 <= i < |pages| => SjItemEstimates(pages[i].objects))
  }

  /** HeadHunter's found count: the `found` of the last page, 0 before any page. */
  function LastFound(pages: seq<HhPage>): int
  {
    if pages == [] then 0 else pages[|pages| - 1].found
  }

  /** `total` added once for each of `n` processed records. */
  function AddedPerRecord(total: int, n: nat): int
  {
    if n == 0 then 0 else AddedPerRecord(total, n - 1) + total
  }

  /** SuperJob's found count: every processed record adds its page's `total`. */
  function SjFound(pages: seq<SjPage>): int
  {
    if pages == [] then 0
    else
      var last := pages[|pages| - 1];
      SjFound(pages[..|pages| - 1]) + AddedPerRecord(last.total, |TruthyValues(SjItemEstimates(last.objects))|)
  }

  lemma SumAppend(s: seq<real>, x: real)
    ensures Sum(s + [x]) == Sum(s) + x
  {
    assert (s + [x])[..|s|] == s;
  }

  /** One more vacancy of the page being walked: what the inner loop adds to the count
      and to the sum, if anything. */
  lemma PageStep(estimates: seq<Option<real>>, j: nat)
    requires j < |estimates|
    ensures var before, after := TruthyValues(estimates[..j]), TruthyValues(estimates[..j + 1]);
      |after| == |before| + (if Truthy(estimates[j]) then 1 else 0) &&
      Sum(after) == Sum(before) + (if Truthy(estimates[j]) then estimates[j].value else 0.0)
  {
    assert estimates[..j + 1][..j] == estimates[..j];
    if Truthy(estimates[j]) {
      SumAppend(TruthyValues(estimates[..j]), estimates[j].value);
    } else {
      assert TruthyValues(estimates[..j + 1]) == TruthyValues(estimates[..j]) + [];
      assert TruthyValues(estimates[..j]) + [] == TruthyValues(estimates[..j]);
    }
  }

  lemma {:induction false} SumConcat(a: seq<real>, b: seq<real>)
    ensures Sum(a + b) == Sum(a) + Sum(b)
    decreases |b|
  {
    if b != [] {
      var n := |b| - 1;
      assert (a + b)[..|a| + n] == a + b[..n];
      SumConcat(a, b[..n]);
    } else {
      assert a + b == a;
    }
  }

  /** One more page walked: what the outer loop has added to the count and to the sum. */
  lemma SalariesStep(estimates: seq<seq<Option<real>>>, i: nat)
    requires i < |estimates|
    ensures var before, after := Salaries(estimates[..i]), Salaries(estimates[..i + 1]);
      |after| == |before| + |TruthyValues(estimates[i])| &&
      Sum(after) == Sum(before) + Sum(TruthyValues(estimates[i]))
  {
    assert estimates[..i + 1][..i] == estimates[..i];
    SumConcat(Salaries(estimates[..i]), TruthyValues(estimates[i]));
  }

  lemma SjFoundStep(pages: seq<SjPage>, i: nat)
    requires i < |pages|
    ensures SjFound(pages[..i + 1]) ==
              SjFound(pages[..i]) +
              AddedPerRecord(pages[i].total, |TruthyValues(SjItemEstimates(pages[i].objects))|)
  {
    assert pages[..i + 1][..i] == pages[..i];
  }

  /** `process_vacancies_hh`. Fails with division by zero when no vacancy yields a truthy
      rouble estimate; otherwise `processed` counts those vacancies, `average` is their
      sum divided by that count and truncated, and `found` is the last page's `found`. */
  method ProcessHh(pages: seq<HhPage>) returns (r: Result<LanguageStats, ProcessError>)
    ensures var s := Salaries(HhEstimates(pages));
      (r.Failure? <==> |s| == 0) &&
      (r.Success? ==>
         r.value.processed == |s| &&
         r.value.average == Trunc(Sum(s) / |s| as real) &&
         r.value.found == LastFound(pages))
  {
    ghost var estimates := HhEstimates(pages);
    var sum := 0.0;
    var processed := 0;
    var found := 0;
    for i := 0 to |pages|
      invariant processed == |Salaries(estimates[..i])|
      invariant sum == Sum(Salaries(estimates[..i]))
      invariant found == LastFound(pages[..i])
    {
      var vacancies := pages[i].items;
      var totalVacancies := pages[i].found;
      ghost var pageEstimates := estimates[i];
      assert pageEstimates == HhItemEstimates(vacancies);
      for j := 0 to |vacancies|
        invariant processed == |Salaries(estimates[..i])| + |TruthyValues(pageEstimates[..j])|
        invariant sum == Sum(Salaries(estimates[..i])) + Sum(TruthyValues(pageEstimates[..j]))
      {
        var salary := RubSalaryHh(vacancies[j]);
        assert salary == pageEstimates[j];
        PageStep(pageEstimates, j);
        if Truthy(salary) {
          sum := sum + salary.value;
          processed := processed + 1;
        }
      }
      assert pageEstimates[..|vacancies|] == pageEstimates;
      SalariesStep(estimates, i);
      assert LastFound(pages[..i + 1]) == totalVacancies;
      found := totalVacancies;
    }
    assert estimates[..|pages|] == estimates;
    assert pages[..|pages|] == pages;
    if processed == 0 {
      return Failure(DivisionByZero);
    }
    r := Success(LanguageStats(Trunc(sum / processed as real), processed, found));
  }

  /** `process_vacancies_sj`. As `process_vacancies_hh`, except that `found` grows by the
      page's `total` once per processed vacancy instead of being set once per page. */
  method ProcessSj(pages: seq<SjPage>) returns (r: Result<LanguageStats, ProcessError>)
    ensures var s := Salaries(SjEstimates(pages));
      (r.Failure? <==> |s| == 0) &&
      (r.Success? ==>
         r.value.processed == |s| &&
         r.value.average == Trunc(Sum(s) / |s| as real) &&
         r.value.found == SjFound(pages))
  {
    ghost var estimates := SjEstimates(pages);
    var sum := 0.0;
    var processed := 0;
    var found := 0;
    for i := 0 to |pages|
      invariant processed == |Salaries(estimates[..i])|
      invariant sum == Sum(Salaries(estimates[..i]))
      invariant found == SjFound(pages[..i])
    {
      var vacancies := pages[i].objects;
      var totalVacancies := pages[i].total;
      ghost var pageEstimates := estimates[i];
      assert pageEstimates == SjItemEstimates(vacancies);
      for j := 0 to |vacancies|
        invariant processed == |Salaries(estimates[..i])| + |TruthyValues(pageEstimates[..j])|
        invariant sum == Sum(Salaries(estimates[..i])) + Sum(TruthyValues(pageEstimates[..j]))
        invariant found == SjFound(pages[..i]) + AddedPerRecord(totalVacancies, |TruthyValues(pageEstimates[..j])|)
      {
        var salary := RubSalarySj(vacancies[j]);
        assert salary == pageEstimates[j];
        PageStep(pageEstimates, j);
        if Truthy(salary) {
          sum := sum + salary.value;
          processed := processed + 1;
          found := found + totalVacancies;
        }
      }
      assert pageEstimates[..|vacancies|] == pageEstimates;
      SalariesStep(estimates, i);
      SjFoundStep(pages, i);
    }
    assert estimates[..|pages|] == estimates;
    assert pages[..|pages|] == pages;
    if processed == 0 {
      return Failure(DivisionByZero);
    }
    r := Success(LanguageStats(Trunc(sum / processed as real), processed, found));
  }

  /** Adding `total` once per processed record amounts to `total` times their number. */
  lemma {:induction false} AddedPerRecordIsProduct(total: int, n: nat)
    ensures AddedPerRecord(total, n) == total * n
  {
    if n > 0 {
      AddedPerRecordIsProduct(total, n - 1);
    }
  }

  lemma HhEstimatesPrefix(pages: seq<HhPage>, k: nat)
    requires k <= |pages|
    ensures HhEstimates(pages[..k]) == HhEstimates(pages)[..k]
  {
  }

  lemma SjEstimatesPrefix(pages: seq<SjPage>, k: nat)
    requires k <= |pages|
    ensures SjEstimates(pages[..k]) == SjEstimates(pages)[..k]
  {
  }

  /** When every page reports the same `total`, SuperJob's found count is that total
      multiplied by the number of processed vacancies, not the total itself. */
  lemma {:induction false} SjFoundConstantTotal(pages: seq<SjPage>, total: int)
    requires forall k | 0 <= k < |pages| :: pages[k].total == total
    ensures SjFound(pages) == total * |Salaries(SjEstimates(pages))|
  {
    if pages != [] {
      var n := |pages| - 1;
      var before := |Salaries(SjEstimates(pages[..n]))|;
      SjFoundConstantTotal(pages[..n], total);
      assert SjFound(pages[..n]) == total * before;
      var here := SjLastPage(pages);
      assert pages[n].total == total;
      assert SjFound(pages) == SjFound(pages[..n]) + AddedPerRecord(total, here);
      assert |Salaries(SjEstimates(pages))| == before + here;
      AddedPerRecordIsProduct(total, here);
      assert AddedPerRecord(total, here) == total * here;
      Distribute(total, before, here);
      assert total * (before + here) == total * before + total * here;
    }
  }

  /** The last SuperJob page's contribution to the found count and to the processed
      count; `here` is the number of vacancies it processes. */
  lemma SjLastPage(pages: seq<SjPage>) returns (here: nat)
    requires pages != []
    ensures var n := |pages| - 1;
      SjFound(pages) == SjFound(pages[..n]) + AddedPerRecord(pages[n].total, here) &&
      |Salaries(SjEstimates(pages))| == |Salaries(SjEstimates(pages[..n]))| + here
  {
    var n := |pages| - 1;
    var e := SjEstimates(pages);
    here := |TruthyValues(e[n])|;
    SjEstimatesPrefix(pages, n);
    SjFoundStep(pages, n);
    assert pages[..n + 1] == pages;
    SalariesStep(e, n);
    assert e[..n + 1] == e;
  }

  lemma Distribute(t: int, a: int, b: int)
    ensures t * (a + b) == t * a + t * b
  {
  }

  lemma {:induction false} SumPositive(s: seq<real>)
    requires forall x | x in s :: x > 0.0
    ensures s != [] ==> Sum(s) > 0.0
    ensures Sum(s) >= 0.0
  {
    if s != [] {
      var init := s[..|s| - 1];
      assert forall x | x in init :: x in s;
      assert s[|s| - 1] in s;
      SumPositive(init);
    }
  }

  /** When every present estimate is positive, every summed salary is positive. */
  lemma {:induction false} SalariesPositive(estimates: seq<seq<Option<real>>>)
    requires forall i, j | 0 <= i < |estimates| && 0 <= j < |estimates[i]| ::
               estimates[i][j].Some? ==> estimates[i][j].value > 0.0
    ensures forall x | x in Salaries(estimates) :: x > 0.0
  {
    if estimates != [] {
      var n := |estimates| - 1;
      SalariesPositive(estimates[..n]);
      forall x | x in TruthyValues(estimates[n]) ensures x > 0.0 {
        var j :| 0 <= j < |estimates[n]| && estimates[n][j] == Some(x);
      }
    }
  }

  /** No salary is summed when no estimate is truthy. */
  lemma {:induction false} SalariesNoneTruthy(estimates: seq<seq<Option<real>>>)
    requires forall i, j | 0 <= i < |estimates| && 0 <= j < |estimates[i]| :: !Truthy(estimates[i][j])
    ensures Salaries(estimates) == []
  {
    if estimates != [] {
      var n := |estimates| - 1;
      SalariesNoneTruthy(estimates[..n]);
      TruthyValuesNoneTruthy(estimates[n]);
    }
  }

  lemma {:induction false} TruthyValuesNoneTruthy(estimates: seq<Option<real>>)
    requires forall j | 0 <= j < |estimates| :: !Truthy(estimates[j])
    ensures TruthyValues(estimates) == []
  {
    if estimates != [] {
      TruthyValuesNoneTruthy(estimates[..|estimates| - 1]);
    }
  }

  lemma {:induction false} TruthyValuesAllTruthy(estimates: seq<Option<real>>)
    requires forall j | 0 <= j < |estimates| :: Truthy(estimates[j])
    ensures |TruthyValues(estimates)| == |estimates|
  {
    if estimates != [] {
      TruthyValuesAllTruthy(estimates[..|estimates| - 1]);
    }
  }

  /** Every record is processed when every estimate is truthy. */
  lemma {:induction false} SalariesAllTruthy(estimates: seq<seq<Option<real>>>)
    requires forall i, j | 0 <= i < |estimates| && 0 <= j < |estimates[i]| :: Truthy(estimates[i][j])
    ensures |Salaries(estimates)| == Count(estimates)
  {
    if estimates != [] {
      var n := |estimates| - 1;
      SalariesAllTruthy(estimates[..n]);
      TruthyValuesAllTruthy(estimates[n]);
    }
  }

  /** `a` is the floor of `sum / n`, stated without division. */
  predicate IsFloorOfMean(a: int, sum: real, n: nat)
  {
    a as real * n as real <= sum < (a + 1) as real * n as real
  }

  /** For a sum that is not negative, truncation is the floor of the average. */
  lemma TruncatedAverage(sum: real, n: nat)
    requires n > 0 && sum >= 0.0
    ensures IsFloorOfMean(Trunc(sum / n as real), sum, n)
  {
    var k := n as real;
    var a := Trunc(sum / k);
    QuotientTimesDivisor(sum, k);
    FloorScaled(a as real, sum / k, k, sum);
    assert (a + 1) as real == a as real + 1.0;
  }

  lemma QuotientTimesDivisor(sum: real, k: real)
    requires k != 0.0
    ensures (sum / k) * k == sum
  {
  }

  lemma FloorScaled(a: real, q: real, k: real, sum: real)
    requires k > 0.0
    requires a <= q < a + 1.0
    requires q * k == sum
    ensures a * k <= sum
    ensures sum < (a + 1.0) * k
  {
    ScaleBelow(a, q, k);
    ScaleBelow(q, a + 1.0, k);
    calc {
      sum;
    ==
      q * k;
    <
      (a + 1.0) * k;
    }
  }

  lemma ScaleBelow(x: real, y: real, k: real)
    requires k > 0.0
    ensures x <= y ==> x * k <= y * k
    ensures x < y ==> x * k < y * k
  {
  }

  /** Bounds that are not negative make every present HeadHunter estimate positive. */
  lemma HhEstimatesPositive(pages: seq<HhPage>)
    requires forall p | p in pages :: forall v | v in p.items :: HhNonNegative(v)
    ensures var e := HhEstimates(pages);
      forall i, j | 0 <= i < |e| && 0 <= j < |e[i]| :: e[i][j].Some? ==> e[i][j].value > 0.0
  {
    forall i, j | 0 <= i < |pages| && 0 <= j < |pages[i].items|
      ensures RubSalaryHh(pages[i].items[j]).Some? ==> RubSalaryHh(pages[i].items[j]).value > 0.0
    {
      var v := pages[i].items[j];
      assert v in pages[i].items;
      if v.salary.Some? {
        EstimatePositive(v.salary.value.from, v.salary.value.to);
      }
    }
  }

  /** Bounds that are not negative make every present SuperJob estimate positive. */
  lemma SjEstimatesPositive(pages: seq<SjPage>)
    requires forall p | p in pages :: forall v | v in p.objects :: SjNonNegative(v)
    ensures var e := SjEstimates(pages);
      forall i, j | 0 <= i < |e| && 0 <= j < |e[i]| :: e[i][j].Some? ==> e[i][j].value > 0.0
  {
    forall i, j | 0 <= i < |pages| && 0 <= j < |pages[i].objects|
      ensures RubSalarySj(pages[i].objects[j]).Some? ==> RubSalarySj(pages[i].objects[j]).value > 0.0
    {
      var v := pages[i].objects[j];
      assert v in pages[i].objects;
      EstimatePositive(v.paymentFrom, v.paymentTo);
    }
  }

  /** With salaries that are not negative, HeadHunter's average is the floor of the
      mean of the processed estimates. */
  lemma HhAverageIsFloor(pages: seq<HhPage>)
    requires forall p | p in pages :: forall v | v in p.items :: HhNonNegative(v)
    requires Salaries(HhEstimates(pages)) != []
    ensures var s := Salaries(HhEstimates(pages));
      IsFloorOfMean(Trunc(Sum(s) / |s| as real), Sum(s), |s|)
  {
    var e: seq<seq<Option<real>>> := HhEstimates(pages);
    HhEstimatesPositive(pages);
    SalariesPositive(e);
    var s := Salaries(e);
    SumPositive(s);
    TruncatedAverage(Sum(s), |s|);
  }

  /** The same for SuperJob. */
  lemma SjAverageIsFloor(pages: seq<SjPage>)
    requires forall p | p in pages :: forall v | v in p.objects :: SjNonNegative(v)
    requires Salaries(SjEstimates(pages)) != []
    ensures var s := Salaries(SjEstimates(pages));
      IsFloorOfMean(Trunc(Sum(s) / |s| as real), Sum(s), |s|)
  {
    var e: seq<seq<Option<real>>> := SjEstimates(pages);
    SjEstimatesPositive(pages);
    SalariesPositive(e);
    var s := Salaries(e);
    SumPositive(s);
    TruncatedAverage(Sum(s), |s|);
  }

  /** Pages that hold no rouble salary leave nothing processed, so `process_vacancies_hh`
      divides by zero although the page list is not empty. */
  lemma HhNoRoubleSalaries(pages: seq<HhPage>)
    requires forall p | p in pages :: forall v | v in p.items ::
               v.salary.None? || v.salary.value.currency != HhRouble
    ensures Salaries(HhEstimates(pages)) == []
  {
    var e: seq<seq<Option<real>>> := HhEstimates(pages);
    forall i: nat, j: nat | i < |e| && j < |e[i]| ensures !Truthy(e[i][j]) {
      assert pages[i].items[j] in pages[i].items;
    }
    SalariesNoneTruthy(e);
  }

  lemma SjNoRoubleSalaries(pages: seq<SjPage>)
    requires forall p | p in pages :: forall v | v in p.objects :: v.currency != SjRouble
    ensures Salaries(SjEstimates(pages)) == []
  {
    var e: seq<seq<Option<real>>> := SjEstimates(pages);
    forall i: nat, j: nat | i < |e| && j < |e[i]| ensures !Truthy(e[i][j]) {
      assert pages[i].objects[j] in pages[i].objects;
    }
    SalariesNoneTruthy(e);
  }

  /** The positions of one page's vacancies whose estimate is truthy. */
  function TruthyIndices(estimates: seq<Option<real>>): set<nat>
  {
    set j: nat | j < |estimates| && Truthy(estimates[j])
  }

  /** Number of vacancies with a truthy estimate over all pages, page by page. */
  function TruthyCount(estimates: seq<seq<Option<real>>>): nat
  {
    if estimates == [] then 0
    else TruthyCount(estimates[..|estimates| - 1]) + |TruthyIndices(estimates[|estimates| - 1])|
  }

  /** One page adds exactly as many salaries as it has vacancies with a truthy estimate. */
  lemma {:induction false} TruthyValuesCount(estimates: seq<Option<real>>)
    ensures |TruthyValues(estimates)| == |TruthyIndices(estimates)|
  {
    if estimates != [] {
      var n := |estimates| - 1;
      TruthyValuesCount(estimates[..n]);
      var before := TruthyIndices(estimates[..n]);
      if Truthy(estimates[n]) {
        assert TruthyIndices(estimates) == before + {n};
        assert n !in before;
      } else {
        assert TruthyIndices(estimates) == before;
      }
    }
  }

  /** Every truthy estimate of a page is added to the sum. */
  lemma {:induction false} TruthyValuesComplete(estimates: seq<Option<real>>)
    ensures forall j | 0 <= j < |estimates| && Truthy(estimates[j]) ::
              estimates[j].value in TruthyValues(estimates)
  {
    if estimates != [] {
      var n := |estimates| - 1;
      TruthyValuesComplete(estimates[..n]);
      forall j | 0 <= j < n && Truthy(estimates[j])
        ensures estimates[j].value in TruthyValues(estimates)
      {
        assert estimates[..n][j] == estimates[j];
      }
    }
  }

  /** The processed count over all pages is the number of vacancies with a truthy
      estimate. */
  lemma {:induction false} SalariesCount(estimates: seq<seq<Option<real>>>)
    ensures |Salaries(estimates)| == TruthyCount(estimates)
  {
    if estimates != [] {
      var n := |estimates| - 1;
      SalariesCount(estimates[..n]);
      TruthyValuesCount(estimates[n]);
    }
  }

  /** Every truthy estimate of every page is added to the sum. */
  lemma {:induction false} SalariesComplete(estimates: seq<seq<Option<real>>>)
    ensures forall i, j | 0 <= i < |estimates| && 0 <= j < |estimates[i]| && Truthy(estimates[i][j]) ::
              estimates[i][j].value in Salaries(estimates)
  {
    if estimates != [] {
      var n := |estimates| - 1;
      SalariesComplete(estimates[..n]);
      TruthyValuesComplete(estimates[n]);
      forall i, j | 0 <= i < n && 0 <= j < |estimates[i]| && Truthy(estimates[i][j])
        ensures estimates[i][j].value in Salaries(estimates)
      {
        assert estimates[..n][i] == estimates[i];
      }
    }
  }

  /** Number of HeadHunter vacancies over all pages. */
  function HhItemCount(pages: seq<HhPage>): nat
  {
    if pages == [] then 0 else HhItemCount(pages[..|pages| - 1]) + |pages[|pages| - 1].items|
  }

  /** When every HeadHunter vacancy has a rouble salary with a positive bound and no
      negative one, every vacancy is processed. */
  lemma {:induction false} HhAllProcessed(pages: seq<HhPage>)
    requires forall p | p in pages :: forall v | v in p.items ::
               HhNonNegative(v) && v.salary.Some? && v.salary.value.currency == HhRouble &&
               (Truthy(v.salary.value.from) || Truthy(v.salary.value.to))
    ensures |Salaries(HhEstimates(pages))| == HhItemCount(pages)
  {
    var e: seq<seq<Option<real>>> := HhEstimates(pages);
    forall i: nat, j: nat | i < |e| && j < |e[i]| ensures Truthy(e[i][j]) {
      var v := pages[i].items[j];
      assert v in pages[i].items;
      EstimatePositive(v.salary.value.from, v.salary.value.to);
    }
    SalariesAllTruthy(e);
    HhCountIsItemCount(pages);
  }

  lemma {:induction false} HhCountIsItemCount(pages: seq<HhPage>)
    ensures Count(HhEstimates(pages)) == HhItemCount(pages)
  {
    if pages != [] {
      var n := |pages| - 1;
      HhCountIsItemCount(pages[..n]);
      HhEstimatesPrefix(pages, n);
      assert HhEstimates(pages)[..n] == HhEstimates(pages[..n]);
    }
  }

  /** Number of SuperJob vacancies over all pages. */
  function SjItemCount(pages: seq<SjPage>): nat
  {
    if pages == [] then 0 else SjItemCount(pages[..|pages| - 1]) + |pages[|pages| - 1].objects|
  }

  /** When every SuperJob vacancy is in roubles with a positive bound and no negative
      one, every vacancy is processed. */
  lemma {:induction false} SjAllProcessed(pages: seq<SjPage>)
    requires forall p | p in pages :: forall v | v in p.objects ::
               SjNonNegative(v) && v.currency == SjRouble &&
               (Truthy(v.paymentFrom) || Truthy(v.paymentTo))
    ensures |Salaries(SjEstimates(pages))| == SjItemCount(pages)
  {
    var e: seq<seq<Option<real>>> := SjEstimates(pages);
    forall i: nat, j: nat | i < |e| && j < |e[i]| ensures Truthy(e[i][j]) {
      var v := pages[i].objects[j];
      assert v in pages[i].objects;
      EstimatePositive(v.paymentFrom, v.paymentTo);
    }
    SalariesAllTruthy(e);
    SjCountIsItemCount(pages);
  }

  lemma {:induction false} SjCountIsItemCount(pages: seq<SjPage>)
    ensures Count(SjEstimates(pages)) == SjItemCount(pages)
  {
    if pages != [] {
      var n := |pages| - 1;
      SjCountIsItemCount(pages[..n]);
      SjEstimatesPrefix(pages, n);
      assert SjEstimates(pages)[..n] == SjEstimates(pages[..n]);
    }
  }
}
