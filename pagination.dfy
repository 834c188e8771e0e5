/** The page-collection loops of `get_vacancies_hh` and `get_vacancies_sj` in main.py,
    with the remote service replaced by the sequence of its answers: `responses[k]` is
    the page the service returns for page index `k`. A request for an index the sequence
    does not hold stands for a failed request, which `raise_for_status` turns into an
    exception that ends the whole run. */
module Pagination {
  import opened Wrappers
  import opened Vacancies

  /** A request that did not return a page. */
  datatype FetchError = RequestFailed(page: nat)

  /** The collected pages `prefix` followed by what the rest of the loop collects. */
  function Prepend<T>(prefix: seq<T>, rest: Result<seq<T>, FetchError>): Result<seq<T>, FetchError>
  {
    match rest
    case Success(pages) => Success(prefix + pages)
    case Failure(e) => Failure(e)
  }

  lemma PrependNothing<T>(rest: Result<seq<T>, FetchError>)
    ensures Prepend([], rest) == rest
  {
    if rest.Success? {
      assert [] + rest.value == rest.value;
    }
  }

  lemma PrependTwice<T>(a: seq<T>, b: seq<T>, rest: Result<seq<T>, FetchError>)
    ensures Prepend(a, Prepend(b, rest)) == Prepend(a + b, rest)
  {
    if rest.Success? {
      assert a + (b + rest.value) == (a + b) + rest.value;
    }
  }

  /** What the HeadHunter loop collects from page index `page` on: it stops without the
      page when `found` is 0, and after the page once `page >= pages - 1`. */
  function HhCollect(responses: seq<HhPage>, page: nat): Result<seq<HhPage>, FetchError>
    decreases |responses| - page
  {
    if page >= |responses| then Failure(RequestFailed(page))
    else if responses[page].found == 0 then Success([])
    else if page >= responses[page].pages - 1 then Success([responses[page]])
    else Prepend([responses[page]], HhCollect(responses, page + 1))
  }

  /** What the SuperJob loop collects from page index `page` on: it stops without the
      page when `total` is 0, and after the page when `more` is false. */
  function SjCollect(responses: seq<SjPage>, page: nat): Result<seq<SjPage>, FetchError>
    decreases |responses| - page
  {
    if page >= |responses| then Failure(RequestFailed(page))
    else if responses[page].total == 0 then Success([])
    else if !responses[page].more then Success([responses[page]])
    else Prepend([responses[page]], SjCollect(responses, page + 1))
  }

  /** `get_vacancies_hh`: the pages the loop appends to `vacancies_pages`. */
  method GetVacanciesHh(responses: seq<HhPage>) returns (r: Result<seq<HhPage>, FetchError>)
    ensures r == HhCollect(responses, 0)
  {
    var vacanciesPages: seq<HhPage> := [];
    var page: nat := 0;
    PrependNothing(HhCollect(responses, 0));
    while page < |responses|
      invariant page <= |responses|
      invariant HhCollect(responses, 0) == Prepend(vacanciesPages, HhCollect(responses, page))
      decreases |responses| - page
    {
      var vacanciesPage := responses[page];
      if vacanciesPage.found == 0 {
        assert vacanciesPages + [] == vacanciesPages;
        return Success(vacanciesPages);
      }
      PrependTwice(vacanciesPages, [vacanciesPage], HhCollect(responses, page + 1));
      vacanciesPages := vacanciesPages + [vacanciesPage];
      if page >= vacanciesPage.pages - 1 {
        return Success(vacanciesPages);
      }
      page := page + 1;
    }
    return Failure(RequestFailed(page));
  }

  /** `get_vacancies_sj`: the pages the loop appends to `vacancies_pages`. */
  method GetVacanciesSj(responses: seq<SjPage>) returns (r: Result<seq<SjPage>, FetchError>)
    ensures r == SjCollect(responses, 0)
  {
    var vacanciesPages: seq<SjPage> := [];
    var page: nat := 0;
    PrependNothing(SjCollect(responses, 0));
    while page < |responses|
      invariant page <= |responses|
      invariant SjCollect(responses, 0) == Prepend(vacanciesPages, SjCollect(responses, page))
      decreases |responses| - page
    {
      var vacanciesPage := responses[page];
      if vacanciesPage.total == 0 {
        assert vacanciesPages + [] == vacanciesPages;
        return Success(vacanciesPages);
      }
      PrependTwice(vacanciesPages, [vacanciesPage], SjCollect(responses, page + 1));
      vacanciesPages := vacanciesPages + [vacanciesPage];
      if !vacanciesPage.more {
        return Success(vacanciesPages);
      }
      page := page + 1;
    }
    return Failure(RequestFailed(page));
  }

  /** The HeadHunter loop appends responses in page order from `page` on, never a page
      whose `found` is 0, does not stop at the page count before its last page, and
      stops where `found` is 0 or the page count is reached. */
  lemma {:induction false} HhCollectSound(responses: seq<HhPage>, page: nat, pages: seq<HhPage>)
    requires HhCollect(responses, page) == Success(pages)
    ensures page + |pages| <= |responses|
    ensures pages == responses[page..page + |pages|]
    ensures forall k | page <= k < page + |pages| :: responses[k].found != 0
    ensures forall k | page <= k < page + |pages| - 1 :: k < responses[k].pages - 1
    ensures (pages != [] && page + |pages| - 1 >= responses[page + |pages| - 1].pages - 1) ||
            (page + |pages| < |responses| && responses[page + |pages|].found == 0)
    decreases |responses| - page
  {
    assert page < |responses|;
    if responses[page].found != 0 && page < responses[page].pages - 1 {
      var after := HhCollect(responses, page + 1);
      assert HhCollect(responses, page) == Prepend([responses[page]], after);
      var rest := after.value;
      assert pages == [responses[page]] + rest;
      HhCollectSound(responses, page + 1, rest);
      assert responses[page..page + |pages|] == [responses[page]] + responses[page + 1..page + 1 + |rest|];
    } else {
      assert |pages| <= 1;
    }
  }

  /** The HeadHunter loop runs past the last response exactly when every response from
      `page` on has a nonzero `found` and lies before its page count. */
  lemma {:induction false} HhCollectFails(responses: seq<HhPage>, page: nat)
    requires page <= |responses|
    ensures HhCollect(responses, page).Failure? <==>
              forall k | page <= k < |responses| :: responses[k].found != 0 && k < responses[k].pages - 1
    ensures HhCollect(responses, page).Failure? ==>
              HhCollect(responses, page).error == RequestFailed(|responses|)
    decreases |responses| - page
  {
    if page < |responses| {
      HhCollectFails(responses, page + 1);
    }
  }

  /** When every response has a nonzero `found` and the same page count `count`, the
      loop collects exactly the first `max(count, 1)` responses. */
  lemma {:induction false} HhCollectConstantPages(responses: seq<HhPage>, count: int, page: nat)
    requires forall k | 0 <= k < |responses| :: responses[k].found != 0 && responses[k].pages == count
    requires page < (if count < 1 then 1 else count) <= |responses|
    ensures HhCollect(responses, page) == Success(responses[page..if count < 1 then 1 else count])
    decreases |responses| - page
  {
    var last := if count < 1 then 1 else count;
    if page < count - 1 {
      HhCollectConstantPages(responses, count, page + 1);
      assert responses[page..last] == [responses[page]] + responses[page + 1..last];
    } else {
      assert responses[page..last] == [responses[page]];
    }
  }

  /** The SuperJob loop appends responses in page order from `page` on, never a page whose
      `total` is 0; every appended page but the last has `more` set, and the loop stops
      after a page without `more` or before a page whose `total` is 0. */
  lemma {:induction false} SjCollectSound(responses: seq<SjPage>, page: nat, pages: seq<SjPage>)
    requires SjCollect(responses, page) == Success(pages)
    ensures page + |pages| <= |responses|
    ensures pages == responses[page..page + |pages|]
    ensures forall k | page <= k < page + |pages| :: responses[k].total != 0
    ensures forall k | page <= k < page + |pages| - 1 :: responses[k].more
    ensures (pages != [] && !responses[page + |pages| - 1].more) ||
            (page + |pages| < |responses| && responses[page + |pages|].total == 0)
    decreases |responses| - page
  {
    assert page < |responses|;
    if responses[page].total != 0 && responses[page].more {
      var after := SjCollect(responses, page + 1);
      assert SjCollect(responses, page) == Prepend([responses[page]], after);
      var rest := after.value;
      assert pages == [responses[page]] + rest;
      SjCollectSound(responses, page + 1, rest);
      assert responses[page..page + |pages|] == [responses[page]] + responses[page + 1..page + 1 + |rest|];
    } else {
      assert |pages| <= 1;
    }
  }

  /** The SuperJob loop runs past the last response exactly when every response from
      `page` on has a nonzero `total` and `more` set. */
  lemma {:induction false} SjCollectFails(responses: seq<SjPage>, page: nat)
    requires page <= |responses|
    ensures SjCollect(responses, page).Failure? <==>
              forall k | page <= k < |responses| :: responses[k].total != 0 && responses[k].more
    ensures SjCollect(responses, page).Failure? ==>
              SjCollect(responses, page).error == RequestFailed(|responses|)
    decreases |responses| - page
  {
    if page < |responses| {
      SjCollectFails(responses, page + 1);
    }
  }
}
