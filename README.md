# HeadHunter and SuperJob salary statistics, modelled in Dafny

The program asks two job-listing services (HeadHunter and SuperJob) for the vacancies
of a few programming languages in Moscow. It estimates one rouble salary per vacancy
and reports, per language and service, the number of vacancies found, the number
processed and their average salary. This project models the logic of `main.py` that
does not touch the network:

- `wrappers.dfy` (`Wrappers`): `Option` and `Result`.
- `salary.dfy` (`Salary`): `calculate_salary` as `Estimate`. A bound is an
  `Option<real>`. `None` is JSON `null`. Python truthiness is the predicate
  `Truthy`: a bound that is absent or 0 counts as missing.
- `vacancies.dfy` (`Vacancies`): the vacancy and page records of both services, and
  the currency filters `calculate_rub_salary_hh` (`"RUR"`) and
  `calculate_rub_salary_sj` (`"rub"`).
- `aggregation.dfy` (`Aggregation`): `process_vacancies_hh` and
  `process_vacancies_sj` as methods with nested loops. Each is proved against
  specification functions: `Salaries` (the truthy estimates, page by page), `Sum`,
  `Trunc` (Python's `int()`), `LastFound` and `SjFound`. The `ZeroDivisionError` of
  the final division is the result `Failure(DivisionByZero)`.
- `pagination.dfy` (`Pagination`): the page-collection loops of `get_vacancies_hh` and
  `get_vacancies_sj`. The remote service is a parameter: `responses[k]` is the page
  returned for page index `k`. A request for an index past the end of `responses`
  stands for a failed request, which `raise_for_status` turns into an exception.
  `HhCollect` and `SjCollect` give what each loop returns.
- `report.dfy` (`Report`): the rows `make_clever_print` builds before rendering.

Behaviour of `main.py` that the model keeps as written:

- When no vacancy yields a truthy rouble estimate, the final division divides by zero
  (main.py:131, main.py:150). The model returns `Failure(DivisionByZero)`.
- `__main__` (main.py:168, main.py:171) skips only an empty page list. A non-empty
  page list without any rouble salary still divides by zero (`HhNoRoubleSalaries`,
  `SjNoRoubleSalaries`).
- `int()` truncates toward zero. For salaries that are not negative this is the floor
  of the mean (`HhAverageIsFloor`, `SjAverageIsFloor`).
- SuperJob adds the page's `total` to the found count once per processed vacancy
  (main.py:149), so a constant `total` is multiplied by the processed count
  (`SjFoundConstantTotal`). HeadHunter assigns the page's `found` once per page
  (main.py:130).
- When the first page reports nothing found, the page list is empty, and `__main__`
  leaves the language out of the table (main.py:24-26, main.py:52-54,
  main.py:168-172).

## Model

| member | source | states |
|---|---|---|
| `Salary.Estimate` | main.py:80-88 | no estimate exactly when neither bound is truthy (0 counts as absent); with both truthy, the point equidistant from them; with only `from`, 20% above it; with only `to`, 20% below it |
| `Salary.EstimateBetweenBounds` | main.py:82-83 | with both bounds present, the estimate lies between the smaller and the larger bound |
| `Salary.EstimatePositive` | main.py:80-88 | bounds that are not negative give a positive estimate whenever they give one |
| `Salary.EstimateExamples` | main.py:80-88 | sample values: (None, None) and (0, 0) give None; (100, None) and (100, 0) give 120; (None, 100) gives 80; (100, 200) gives 150 |
| `Vacancies.RubSalaryHh` | main.py:63-69 | no estimate for a null salary or a currency other than "RUR"; otherwise the estimate of the salary's bounds |
| `Vacancies.RubSalarySj` | main.py:72-77 | no estimate for a currency other than "rub"; otherwise the estimate of `payment_from` and `payment_to` |
| `Vacancies.RubSalaryHhPresent` | main.py:63-69 | a HeadHunter estimate exists exactly for a "RUR" salary with a truthy bound |
| `Vacancies.RubSalarySjPresent` | main.py:72-77 | a SuperJob estimate exists exactly for a "rub" vacancy with a truthy bound |
| `Aggregation.Trunc` | main.py:131 | `int()` truncates toward zero: the result is within 1 of its argument, on the side of zero |
| `Aggregation.TruthyValues` | main.py:125-129 | the salaries added for one page are at most as many as its vacancies, are nonzero, and each is the estimate of one of its vacancies |
| `Aggregation.Salaries` | main.py:122-129 | the salaries summed over all pages are at most as many as the vacancies |
| `Aggregation.TruthyValuesCount` | main.py:125-129 | one page adds exactly as many salaries as it has vacancies whose estimate is truthy (counted as a set of positions) |
| `Aggregation.TruthyValuesComplete` | main.py:125-129 | every truthy estimate of a page is among the salaries it adds, so no truthy salary is skipped |
| `Aggregation.SalariesCount` | main.py:122-129 | the salaries summed over all pages are exactly as many as the vacancies with a truthy estimate, counted page by page |
| `Aggregation.SalariesComplete` | main.py:122-129 | every truthy estimate of every page is among the summed salaries |
| `Aggregation.HhEstimatesPositive` | main.py:63-69 | when no HeadHunter salary bound is negative, every rouble estimate that exists is positive |
| `Aggregation.SjEstimatesPositive` | main.py:72-77 | when no SuperJob payment bound is negative, every rouble estimate that exists is positive |
| `Aggregation.ProcessHh` | main.py:116-132 | fails with division by zero exactly when no vacancy has a truthy rouble estimate; otherwise `vacancies_processed` is the number of such vacancies, `average` their sum divided by that number and truncated, and `vacancies_found` the last page's `found` |
| `Aggregation.ProcessSj` | main.py:135-151 | as for HeadHunter, except that `vacancies_found` is the page's `total` added once per processed vacancy |
| `Aggregation.AddedPerRecordIsProduct` | main.py:146-149 | adding a page's `total` once per processed vacancy amounts to `total` times the number of processed vacancies on that page |
| `Aggregation.SjFoundConstantTotal` | main.py:143-149 | when every page reports the same `total`, SuperJob's found count is that total times the number of processed vacancies |
| `Aggregation.SumPositive` | main.py:127-128 | a sum of positive salaries is not negative, and is positive when there is at least one |
| `Aggregation.SalariesPositive` | main.py:125-129 | when every present estimate is positive, every summed salary is positive |
| `Aggregation.SalariesNoneTruthy` | main.py:125-129 | when no estimate is truthy, nothing is summed or counted |
| `Aggregation.SalariesAllTruthy` | main.py:125-129 | when every estimate is truthy, every vacancy is counted |
| `Aggregation.TruncatedAverage` | main.py:131 | for a sum that is not negative, the truncated average `a` satisfies `a*n <= sum < (a+1)*n` |
| `Aggregation.HhAverageIsFloor` | main.py:125-131 | with salaries that are not negative, HeadHunter's average is the floor of the mean of the processed estimates |
| `Aggregation.SjAverageIsFloor` | main.py:144-150 | with salaries that are not negative, SuperJob's average is the floor of the mean of the processed estimates |
| `Aggregation.HhNoRoubleSalaries` | main.py:125-131 | pages that hold no "RUR" salary leave nothing processed, so the final division fails even for a non-empty page list |
| `Aggregation.SjNoRoubleSalaries` | main.py:144-150 | pages that hold no "rub" vacancy leave nothing processed, so the final division fails |
| `Aggregation.HhAllProcessed` | main.py:122-129 | when every vacancy has a "RUR" salary with a truthy bound and no negative bound, every vacancy is processed |
| `Aggregation.SjAllProcessed` | main.py:144-148 | when every vacancy is a "rub" vacancy with a truthy payment bound and no negative bound, every vacancy is processed |
| `Pagination.GetVacanciesHh` | main.py:10-32 | the pages the HeadHunter loop collects, or the failed request, are those given by `HhCollect` |
| `Pagination.GetVacanciesSj` | main.py:35-60 | the pages the SuperJob loop collects, or the failed request, are those given by `SjCollect` |
| `Pagination.HhCollectSound` | main.py:14-29 | the collected pages are the responses in page order; none has `found` 0; no page before the last reaches the page count; the loop stopped at a zero `found` or at the page count, so an empty result means the first page's `found` was 0 |
| `Pagination.HhCollectFails` | main.py:14-29 | the loop runs past the responses, to request index `len(responses)`, exactly when every response has a nonzero `found` and lies before its page count |
| `Pagination.HhCollectConstantPages` | main.py:24-29 | with nonzero `found` everywhere and a constant page count `n`, the loop collects exactly the first `max(n, 1)` pages |
| `Pagination.SjCollectSound` | main.py:42-57 | the collected pages are the responses in page order; none has `total` 0; all but the last have `more`; the loop stopped after a page without `more` or before a page with `total` 0, so an empty result means the first page's `total` was 0 |
| `Pagination.SjCollectFails` | main.py:42-57 | the loop runs past the responses exactly when every response has a nonzero `total` and `more` set |
| `Report.TableData` | main.py:91-109 | one header row with the four column titles, then one row per language, in order, with its found, processed and average values |

## Left out

- HTTP requests, query parameters, headers, `raise_for_status` and JSON decoding
  (main.py:11-23, main.py:36-51). The answers of the services are a parameter.
- Logging (main.py:25, 31, 53, 59). It only has side effects.
- Table rendering by `AsciiTable`, the table title and the right-justification of
  column 2 (main.py:111-113). The rendering library is not part of this model.
- Loading the SuperJob key with `dotenv_values`, the `__main__` loop over the
  languages, `print`, and `exit` on `HTTPError` (main.py:154-186). This is process
  plumbing.
- Floating point: `* 1.2`, `* 0.8`, `/ 2`, the running sum and the final division are
  exact `real` arithmetic, and IEEE-754 rounding is not modelled.
- `Pagination.GetVacanciesHh`, `Pagination.GetVacanciesSj`: `count(0)` is unbounded.
  The model bounds it by the given responses. A service that never signals the end
  becomes a failed request once the responses run out.
- Malformed records: missing keys, non-numeric bounds and an empty `salary`
  dictionary. The records are typed, so these cases cannot occur.
