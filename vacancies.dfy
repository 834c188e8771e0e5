/** The records the two listing services return, and the per-source currency filters
    `calculate_rub_salary_hh` and `calculate_rub_salary_sj` of main.py. */
module Vacancies {
  import opened Wrappers
  import opened Salary

  /** Currency codes the two services use for roubles. */
  const HhRouble: string := "RUR"
  const SjRouble: string := "rub"

  /** The `salary` object of a HeadHunter vacancy. */
  datatype HhSalary = HhSalary(currency: string, from: Bound, to: Bound)

  /** A HeadHunter vacancy; its `salary` may be null. */
  datatype HhVacancy = HhVacancy(salary: Option<HhSalary>)

  /** One HeadHunter response page: the total `found`, the page count `pages`, and `items`. */
  datatype HhPage = HhPage(found: int, pages: int, items: seq<HhVacancy>)

  /** A SuperJob vacancy: `payment_from`, `payment_to` and `currency`. */
  datatype SjVacancy = SjVacancy(paymentFrom: Bound, paymentTo: Bound, currency: string)

  /** One SuperJob response page: the total count `total`, the flag `more`, and `objects`. */
  datatype SjPage = SjPage(total: int, more: bool, objects: seq<SjVacancy>)

  /** `calculate_rub_salary_hh`: no estimate for a vacancy without a salary or with a
      salary in another currency; otherwise the estimate of its bounds. */
  function RubSalaryHh(v: HhVacancy): (r: Option<real>)
    ensures v.salary.None? ==> r.None?
    ensures v.salary.Some? && v.salary.value.currency != HhRouble ==> r.None?
    ensures v.salary.Some? && v.salary.value.currency == HhRouble ==>
              r == Estimate(v.salary.value.from, v.salary.value.to)
  {
    match v.salary
    case None => None
    case Some(s) => if s.currency == HhRouble then Estimate(s.from, s.to) else None
  }

  /** `calculate_rub_salary_sj`: no estimate for a vacancy in another currency;
      otherwise the estimate of its bounds. */
  function RubSalarySj(v: SjVacancy): (r: Option<real>)
    ensures v.currency != SjRouble ==> r.None?
    ensures v.currency == SjRouble ==> r == Estimate(v.paymentFrom, v.paymentTo)
  {
    if v.currency == SjRouble then Estimate(v.paymentFrom, v.paymentTo) else None
  }

  /** The bounds of a HeadHunter vacancy, where it has a salary, are not negative. */
  predicate HhNonNegative(v: HhVacancy)
  {
    v.salary.None? || (NonNegative(v.salary.value.from) && NonNegative(v.salary.value.to))
  }

  /** The bounds of a SuperJob vacancy are not negative. */
  predicate SjNonNegative(v: SjVacancy)
  {
    NonNegative(v.paymentFrom) && NonNegative(v.paymentTo)
  }

  /** A rouble estimate is produced exactly for rouble vacancies with a truthy bound. */
  lemma RubSalaryHhPresent(v: HhVacancy)
    ensures RubSalaryHh(v).Some? <==>
              v.salary.Some? && v.salary.value.currency == HhRouble &&
              (Truthy(v.salary.value.from) || Truthy(v.salary.value.to))
  {
  }

  lemma RubSalarySjPresent(v: SjVacancy)
    ensures RubSalarySj(v).Some? <==>
              v.currency == SjRouble && (Truthy(v.paymentFrom) || Truthy(v.paymentTo))
  {
  }
}
