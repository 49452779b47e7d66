/**
 * The vacancy records both providers return, the server's replies, and the
 * per-page step that turns one page of vacancies into the list of usable
 * salary estimates (`predicted_salaries_per_page`).
 */
module Vacancies {
  import opened Wrappers
  import opened Salary

  /** The `salary` block of a first-provider vacancy. */
  datatype HhSalary = HhSalary(salaryFrom: Option<int>, salaryTo: Option<int>, currency: string)

  /** A first-provider vacancy; its `salary` block may be missing. */
  datatype HhVacancy = HhVacancy(salary: Option<HhSalary>)

  /** One page of first-provider results: `items`, `pages` and `found`. */
  datatype HhPage = HhPage(items: seq<HhVacancy>, pages: int, found: int)

  /** A second-provider vacancy: `payment_from` and `payment_to`. */
  datatype SjVacancy = SjVacancy(paymentFrom: int, paymentTo: int)

  /** One page of second-provider results: `objects`, `total` and `more`. */
  datatype SjPage = SjPage(objects: seq<SjVacancy>, total: int, more: bool)

  /** What one request yields: an HTTP error or a decoded page. */
  datatype Response<P> = HttpError | Ok(page: P)

  /** The vacancy's estimate can be computed without a `TypeError`. */
  predicate HhVacancySane(v: HhVacancy) {
    v.salary.Some? && v.salary.value.currency == LOCAL_CURRENCY ==>
      Computable(v.salary.value.salaryFrom, v.salary.value.salaryTo)
  }

  predicate HhPageSane(items: seq<HhVacancy>) {
    forall k :: 0 <= k < |items| ==> HhVacancySane(items[k])
  }

  /** A vacancy without a salary block has no estimate. */
  function HhEstimate(v: HhVacancy): (r: Option<real>)
    requires HhVacancySane(v)
    ensures v.salary.None? ==> r.None?
    ensures v.salary.Some? ==>
              r == PredictRubSalaryHh(v.salary.value.salaryFrom, v.salary.value.salaryTo, v.salary.value.currency)
  {
    match v.salary
    case None => None
    case Some(s) => PredictRubSalaryHh(s.salaryFrom, s.salaryTo, s.currency)
  }

  function SjEstimate(v: SjVacancy): Option<real> {
    PredictRubSalarySj(v.paymentFrom, v.paymentTo)
  }

  function HhEstimates(items: seq<HhVacancy>): (es: seq<Option<real>>)
    requires HhPageSane(items)
    ensures |es| == |items| && forall k :: 0 <= k < |items| ==> es[k] == HhEstimate(items[k])
  {
    seq(|items|, k requires 0 <= k < |items| => HhEstimate(items[k]))
  }

  function SjEstimates(objects: seq<SjVacancy>): (es: seq<Option<real>>)
    ensures |es| == |objects| && forall k :: 0 <= k < |objects| ==> es[k] == SjEstimate(objects[k])
  {
    seq(|objects|, k requires 0 <= k < |objects| => SjEstimate(objects[k]))
  }

  /** Python truthiness of an estimate: present and not zero. */
  predicate Usable(e: Option<real>) {
    e.Some? && e.value != 0.0
  }

  /** The usable estimates, in order: what `if salary: append(salary)` keeps. */
  function Kept(es: seq<Option<real>>): seq<real> {
    if es == [] then []
    else (if Usable(es[0]) then [es[0].value] else []) + Kept(es[1..])
  }

  /** Python's `sum` over a list of estimates. */
  function Sum(xs: seq<real>): real {
    if xs == [] then 0.0 else xs[0] + Sum(xs[1..])
  }

  /** The number of usable estimates. */
  function CountUsable(es: seq<Option<real>>): nat {
    if es == [] then 0 else (if Usable(es[0]) then 1 else 0) + CountUsable(es[1..])
  }

  /** The sum of the usable estimates, taken directly over the estimates. */
  function SumUsable(es: seq<Option<real>>): real {
    if es == [] then 0.0 else (if Usable(es[0]) then es[0].value else 0.0) + SumUsable(es[1..])
  }

  lemma {:induction false} KeptAppend(a: seq<Option<real>>, b: seq<Option<real>>)
    ensures Kept(a + b) == Kept(a) + Kept(b)
  {
    if a == [] {
      assert a + b == b;
    } else {
      var ab := a + b;
      assert ab[0] == a[0] && ab[1..] == a[1..] + b;
      KeptAppend(a[1..], b);
      var head := if Usable(a[0]) then [a[0].value] else [];
      assert Kept(ab) == head + Kept(ab[1..]);
      assert Kept(a) == head + Kept(a[1..]);
      assert head + (Kept(a[1..]) + Kept(b)) == (head + Kept(a[1..])) + Kept(b);
    }
  }

  /** As many estimates are kept as are usable. */
  lemma {:induction false} KeptCount(es: seq<Option<real>>)
    ensures |Kept(es)| == CountUsable(es)
  {
    if es != [] {
      KeptCount(es[1..]);
    }
  }

  /** The kept estimates add up to the usable ones. */
  lemma {:induction false} KeptSum(es: seq<Option<real>>)
    ensures Sum(Kept(es)) == SumUsable(es)
  {
    if es != [] {
      KeptSum(es[1..]);
      if Usable(es[0]) {
        assert Kept(es) == [es[0].value] + Kept(es[1..]);
        assert Kept(es)[1..] == Kept(es[1..]);
      } else {
        assert Kept(es) == Kept(es[1..]);
      }
    }
  }

  /** Each non-zero value is kept exactly as often as it was estimated, and no zero is kept. */
  lemma {:induction false} KeptMultiset(es: seq<Option<real>>)
    ensures forall x :: x != 0.0 ==> multiset(Kept(es))[x] == multiset(es)[Some(x)]
    ensures multiset(Kept(es))[0.0] == 0
  {
    if es != [] {
      KeptMultiset(es[1..]);
      assert es == [es[0]] + es[1..];
      var head := if Usable(es[0]) then [es[0].value] else [];
      assert Kept(es) == head + Kept(es[1..]);
      assert multiset(Kept(es)) == multiset(head) + multiset(Kept(es[1..]));
      assert multiset(es) == multiset([es[0]]) + multiset(es[1..]);
    }
  }

  predicate AllNonNegative(es: seq<Option<real>>) {
    forall k :: 0 <= k < |es| ==> es[k].Some? ==> es[k].value >= 0.0
  }

  /** Non-negative estimates add up to a non-negative running sum. */
  lemma {:induction false} KeptSumNonNegative(es: seq<Option<real>>)
    requires AllNonNegative(es)
    ensures Sum(Kept(es)) >= 0.0
  {
    SumUsableNonNegative(es);
    KeptSum(es);
  }

  lemma {:induction false} SumUsableNonNegative(es: seq<Option<real>>)
    requires AllNonNegative(es)
    ensures SumUsable(es) >= 0.0
  {
    if es != [] {
      assert AllNonNegative(es[1..]) by {
        forall k | 0 <= k < |es[1..]| ensures es[1..][k].Some? ==> es[1..][k].value >= 0.0 {
          assert es[1..][k] == es[k + 1];
        }
      }
      SumUsableNonNegative(es[1..]);
    }
  }

  /** Vacancies whose every bound is non-negative get non-negative estimates. */
  lemma HhEstimatesNonNegative(items: seq<HhVacancy>)
    requires HhPageSane(items)
    requires forall k :: 0 <= k < |items| ==> items[k].salary.Some? ==>
               NonNegative(items[k].salary.value.salaryFrom) && NonNegative(items[k].salary.value.salaryTo)
    ensures AllNonNegative(HhEstimates(items))
  {
  }

  lemma SjEstimatesNonNegative(objects: seq<SjVacancy>)
    requires forall k :: 0 <= k < |objects| ==> objects[k].paymentFrom >= 0 && objects[k].paymentTo >= 0
    ensures AllNonNegative(SjEstimates(objects))
  {
  }

  /** `Kept` of one more estimate, used by the page loops below. */
  lemma KeptSnoc(es: seq<Option<real>>, i: nat)
    requires i < |es|
    ensures Kept(es[..i + 1]) == Kept(es[..i]) + (if Usable(es[i]) then [es[i].value] else [])
  {
    assert es[..i + 1] == es[..i] + [es[i]];
    KeptAppend(es[..i], [es[i]]);
    assert Kept([es[i]]) == (if Usable(es[i]) then [es[i].value] else []) + Kept([]);
  }

  /**
   * The first provider's per-page step: skip vacancies without a salary
   * block, keep every truthy estimate.
   */
  method CollectHhEstimates(items: seq<HhVacancy>) returns (kept: seq<real>)
    requires HhPageSane(items)
    ensures kept == Kept(HhEstimates(items))
  {
    ghost var es := HhEstimates(items);
    kept := [];
    for i := 0 to |items|
      invariant kept == Kept(es[..i])
    {
      KeptSnoc(es, i);
      if items[i].salary.Some? {
        var s := items[i].salary.value;
        var salary := PredictRubSalaryHh(s.salaryFrom, s.salaryTo, s.currency);
        if salary.Some? && salary.value != 0.0 {
          kept := kept + [salary.value];
        }
      }
    }
    assert es[..|items|] == es;
  }

  /** The second provider's per-page step: keep every truthy estimate. */
  method CollectSjEstimates(objects: seq<SjVacancy>) returns (kept: seq<real>)
    ensures kept == Kept(SjEstimates(objects))
  {
    ghost var es := SjEstimates(objects);
    kept := [];
    for i := 0 to |objects|
      invariant kept == Kept(es[..i])
    {
      KeptSnoc(es, i);
      var salary := PredictRubSalarySj(objects[i].paymentFrom, objects[i].paymentTo);
      if salary.Some? && salary.value != 0.0 {
        kept := kept + [salary.value];
      }
    }
    assert es[..|objects|] == es;
  }
}
