/** The browse page of frontend/src/pages/ItemsPage.jsx: the query string
    it writes when filters are applied or reset, the page change, and
    which page numbers the pagination bar shows. */
module ItemsPage {
  import opened Common
  import opened Strings
  import Ordering

  /** A `URLSearchParams`: name/value pairs in insertion order. */
  type Params = seq<(string, string)>

  /** `params.get(name)`: the value of the first pair with that name. */
  function Get(ps: Params, name: string): (r: Option<string>)
    ensures r.None? <==> forall k :: 0 <= k < |ps| ==> ps[k].0 != name
    ensures r.Some? ==> (name, r.value) in ps
    decreases |ps|
  {
    if |ps| == 0 then None
    else if ps[0].0 == name then Some(ps[0].1)
    else Get(ps[1..], name)
  }

  function Occurrences(ps: Params, name: string): nat {
    Ordering.Count(ps, (e: (string, string)) => e.0 == name)
  }

  function Others(ps: Params, name: string): Params {
    Ordering.Filter(ps, (e: (string, string)) => e.0 != name)
  }

  /** `params.set(name, value)`: the first pair with that name takes the
      value and the later ones go; without one the pair is appended. */
  function Set(ps: Params, name: string, value: string): (r: Params)
    decreases |ps|
  {
    if |ps| == 0 then [(name, value)]
    else if ps[0].0 == name then [(name, value)] + Others(ps[1..], name)
    else [ps[0]] + Set(ps[1..], name, value)
  }

  /** After `set` the name occurs once, with the new value, and every other
      pair is still there in its order. */
  lemma {:induction false} SetSpec(ps: Params, name: string, value: string)
    ensures Get(Set(ps, name, value), name) == Some(value)
    ensures Occurrences(Set(ps, name, value), name) == 1
    ensures Others(Set(ps, name, value), name) == Others(ps, name)
    decreases |ps|
  {
    var r := Set(ps, name, value);
    if |ps| == 0 {
      assert r == [(name, value)];
      assert r[1..] == [];
    } else if ps[0].0 == name {
      var rest := Others(ps[1..], name);
      assert r[1..] == rest;
      Ordering.CountIsFilterLength(rest, (e: (string, string)) => e.0 == name);
      NoNameLeft(ps[1..], name);
      assert Ordering.Count(rest, (e: (string, string)) => e.0 == name) == 0;
      OthersIdempotent(ps[1..], name);
    } else {
      SetSpec(ps[1..], name, value);
      assert r[1..] == Set(ps[1..], name, value);
    }
  }

  lemma NoNameLeft(ps: Params, name: string)
    ensures forall k :: 0 <= k < |Others(ps, name)| ==> Others(ps, name)[k].0 != name
  {
  }

  lemma {:induction false} OthersIdempotent(ps: Params, name: string)
    ensures Others(Others(ps, name), name) == Others(ps, name)
    decreases |ps|
  {
    if |ps| > 0 {
      OthersIdempotent(ps[1..], name);
      var rest := Others(ps[1..], name);
      if ps[0].0 != name {
        assert Others(ps, name) == [ps[0]] + rest;
        assert ([ps[0]] + rest)[1..] == rest;
      }
    }
  }

  /** The inputs of the filter form. */
  datatype FilterForm = FilterForm(search: string, category: string, minPrice: string, maxPrice: string, condition: string)

  /** What the page holds: the form, the current page and the query string. */
  datatype PageState = PageState(form: FilterForm, currentPage: int, totalPages: int, params: Params)

  function SetIf(ps: Params, name: string, value: string): Params {
    if value != "" then Set(ps, name, value) else ps
  }

  /** The query string `applyFilters` writes: each non-empty filter, in the
      order search, category, minPrice, maxPrice, condition, then page 1. */
  function FilterParams(f: FilterForm): (ps: Params)
  {
    var p1 := SetIf([], "search", f.search);
    var p2 := SetIf(p1, "category", f.category);
    var p3 := SetIf(p2, "minPrice", f.minPrice);
    var p4 := SetIf(p3, "maxPrice", f.maxPrice);
    var p5 := SetIf(p4, "condition", f.condition);
    Set(p5, "page", "1")
  }

  /** The pair a filled-in filter contributes, none for an empty one. */
  function Opt(name: string, value: string): Params {
    if value != "" then [(name, value)] else []
  }

  /** The pairs of the filters that are filled in, in form order. */
  function Filled(f: FilterForm): Params {
    Opt("search", f.search) + Opt("category", f.category) + Opt("minPrice", f.minPrice)
    + Opt("maxPrice", f.maxPrice) + Opt("condition", f.condition)
  }

  predicate Absent(ps: Params, name: string) {
    forall k :: 0 <= k < |ps| ==> ps[k].0 != name
  }

  /** Setting a name that is not yet present appends the pair. */
  lemma {:induction false} SetFreshAppends(ps: Params, name: string, value: string)
    requires Absent(ps, name)
    ensures Set(ps, name, value) == ps + [(name, value)]
    decreases |ps|
  {
    if |ps| > 0 {
      SetFreshAppends(ps[1..], name, value);
      assert ps == [ps[0]] + ps[1..];
    }
  }

  lemma SetIfFresh(ps: Params, name: string, value: string)
    requires Absent(ps, name)
    ensures SetIf(ps, name, value) == ps + Opt(name, value)
  {
    if value != "" {
      SetFreshAppends(ps, name, value);
    }
  }

  lemma AbsentAfter(ps: Params, name: string, other: string, value: string)
    requires Absent(ps, name) && name != other
    ensures Absent(ps + Opt(other, value), name)
  {
  }

  /** `applyFilters` emits exactly the filled-in filters followed by
      page=1: empty filters leave no trace in the query string. */
  lemma ApplyFiltersParams(f: FilterForm)
    ensures FilterParams(f) == Filled(f) + [("page", "1")]
  {
    var p0: Params := [];
    SetIfFresh(p0, "search", f.search);
    var p1 := p0 + Opt("search", f.search);
    AbsentAfter(p0, "category", "search", f.search);
    SetIfFresh(p1, "category", f.category);
    var p2 := p1 + Opt("category", f.category);
    AbsentAfter(p0, "minPrice", "search", f.search);
    AbsentAfter(p1, "minPrice", "category", f.category);
    SetIfFresh(p2, "minPrice", f.minPrice);
    var p3 := p2 + Opt("minPrice", f.minPrice);
    AbsentAfter(p0, "maxPrice", "search", f.search);
    AbsentAfter(p1, "maxPrice", "category", f.category);
    AbsentAfter(p2, "maxPrice", "minPrice", f.minPrice);
    SetIfFresh(p3, "maxPrice", f.maxPrice);
    var p4 := p3 + Opt("maxPrice", f.maxPrice);
    AbsentAfter(p0, "condition", "search", f.search);
    AbsentAfter(p1, "condition", "category", f.category);
    AbsentAfter(p2, "condition", "minPrice", f.minPrice);
    AbsentAfter(p3, "condition", "maxPrice", f.maxPrice);
    SetIfFresh(p4, "condition", f.condition);
    var p5 := p4 + Opt("condition", f.condition);
    AbsentAfter(p0, "page", "search", f.search);
    AbsentAfter(p1, "page", "category", f.category);
    AbsentAfter(p2, "page", "minPrice", f.minPrice);
    AbsentAfter(p3, "page", "maxPrice", f.maxPrice);
    AbsentAfter(p4, "page", "condition", f.condition);
    SetFreshAppends(p5, "page", "1");
    assert p5 == Filled(f);
  }

  /** `applyFilters`: back to page one with the new query string. */
  function ApplyFilters(s: PageState): (r: PageState)
    ensures r.currentPage == 1 && r.form == s.form && r.totalPages == s.totalPages
    ensures r.params == Filled(s.form) + [("page", "1")]
    ensures Get(r.params, "page") == Some("1")
  {
    ApplyFiltersParams(s.form);
    SetSpec(SetIf(SetIf(SetIf(SetIf(SetIf([], "search", s.form.search), "category", s.form.category),
      "minPrice", s.form.minPrice), "maxPrice", s.form.maxPrice), "condition", s.form.condition), "page", "1");
    s.(currentPage := 1, params := FilterParams(s.form))
  }

  /** `resetFilters`: every filter emptied, page one, and page=1 the only
      parameter. */
  function ResetFilters(s: PageState): (r: PageState)
    ensures r.form == FilterForm("", "", "", "", "")
    ensures r.currentPage == 1 && r.params == [("page", "1")]
    ensures r.totalPages == s.totalPages
    ensures FilterParams(r.form) == r.params
  {
    ApplyFiltersParams(FilterForm("", "", "", "", ""));
    PageState(FilterForm("", "", "", "", ""), 1, s.totalPages, [("page", "1")])
  }

  /** `handlePageChange`: a page inside 1..totalPages becomes current and
      replaces the page parameter, keeping the others; anything else is
      ignored. */
  function HandlePageChange(s: PageState, newPage: int): (r: PageState)
    ensures !(1 <= newPage <= s.totalPages) ==> r == s
    ensures 1 <= newPage <= s.totalPages ==>
      && r.currentPage == newPage
      && r.form == s.form && r.totalPages == s.totalPages
      && Get(r.params, "page") == Some(NatToString(newPage))
      && Others(r.params, "page") == Others(s.params, "page")
  {
    if 1 <= newPage <= s.totalPages then
      SetSpec(s.params, "page", NatToString(newPage));
      s.(currentPage := newPage, params := Set(s.params, "page", NatToString(newPage)))
    else s
  }

  /** What the pagination bar renders for one page number. */
  datatype PageElement = Button | Gap | Nothing

  /** The rule of the page-number list: the first page, the last page and
      the current page's neighbours get a button, the pages two away from
      the current one an ellipsis, and the rest nothing. */
  function ElementFor(p: int, current: int, total: int): (e: PageElement)
    ensures e == Button <==> p == 1 || p == total || current - 1 <= p <= current + 1
    ensures e == Gap <==> e != Button && (p == current - 2 || p == current + 2)
  {
    if p == 1 || p == total || (p >= current - 1 && p <= current + 1) then Button
    else if p == current - 2 || p == current + 2 then Gap
    else Nothing
  }

  /** The bar for pages 1..total; it is drawn only when there is more than
      one page. */
  function PageBar(current: int, total: int): (bar: seq<PageElement>)
    ensures total > 1 ==> |bar| == total
    ensures total <= 1 ==> bar == []
    ensures forall k :: 0 <= k < |bar| ==> bar[k] == ElementFor(k + 1, current, total)
  {
    if total > 1 then seq(total, k requires 0 <= k < total => ElementFor(k + 1, current, total)) else []
  }

  /** The first and the last page always get a button. */
  lemma EndsAreButtons(current: int, total: int)
    requires total > 1
    ensures PageBar(current, total)[0] == Button
    ensures PageBar(current, total)[total - 1] == Button
  {
  }

  /** At most five page buttons are drawn, whatever the page count. */
  lemma AtMostFiveButtons(current: int, total: int)
    ensures |set p | 1 <= p <= total && ElementFor(p, current, total) == Button| <= 5
  {
    var buttons := set p | 1 <= p <= total && ElementFor(p, current, total) == Button;
    var candidates := {1, total, current - 1, current, current + 1};
    assert buttons <= candidates;
    SubsetCard(buttons, candidates);
  }

  lemma SubsetCard(a: set<int>, b: set<int>)
    requires a <= b
    ensures |a| <= |b|
  {
    assert b == a + (b - a);
  }

  /** At most two ellipses are drawn. */
  lemma AtMostTwoGaps(current: int, total: int)
    ensures |set p | 1 <= p <= total && ElementFor(p, current, total) == Gap| <= 2
  {
    var gaps := set p | 1 <= p <= total && ElementFor(p, current, total) == Gap;
    assert gaps <= {current - 2, current + 2};
    SubsetCard(gaps, {current - 2, current + 2});
  }
}
