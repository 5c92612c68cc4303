/** The filter panel state of frontend/src/components/FilterSidebar.jsx:
    category and condition check-box toggles and the reset. */
module FilterSidebar {
  import opened Common
  import Ordering

  datatype SidebarFilters = SidebarFilters(
    categories: seq<string>,
    conditions: seq<string>,
    priceMin: string,
    priceMax: string)

  /** The check-box toggle: a ticked value is removed everywhere it occurs,
      an unticked one is appended at the end. */
  function Toggle(xs: seq<string>, v: string): (r: seq<string>)
    ensures v !in xs ==> r == xs + [v]
    ensures v in xs ==> v !in r && forall x :: x in r <==> x in xs && x != v
  {
    if v in xs then
      Ordering.FilterMembers(xs, (c: string) => c != v);
      Ordering.Filter(xs, (c: string) => c != v)
    else xs + [v]
  }

  /** Unticking keeps the remaining values in their order. */
  lemma UntickKeepsOrder(xs: seq<string>, v: string)
    requires v in xs
    ensures Ordering.IsSubsequence(Toggle(xs, v), xs)
  {
    Ordering.FilterIsSubsequence(xs, (c: string) => c != v);
  }

  /** Ticking and then unticking a value restores the list exactly. */
  lemma {:induction false} ToggleTwiceRestores(xs: seq<string>, v: string)
    requires v !in xs
    ensures Toggle(Toggle(xs, v), v) == xs
  {
    var ys := xs + [v];
    assert v in ys;
    FilterAppendDrops(xs, v);
  }

  lemma {:induction false} FilterAppendDrops(xs: seq<string>, v: string)
    requires v !in xs
    ensures Ordering.Filter(xs + [v], (c: string) => c != v) == xs
    decreases |xs|
  {
    if |xs| == 0 {
      assert xs + [v] == [v];
    } else {
      assert (xs + [v])[1..] == xs[1..] + [v];
      assert v !in xs[1..];
      FilterAppendDrops(xs[1..], v);
    }
  }

  predicate NoDuplicates(xs: seq<string>) {
    forall i, j :: 0 <= i < j < |xs| ==> xs[i] != xs[j]
  }

  /** A list without repeats keeps that property under every toggle. */
  lemma ToggleKeepsNoDuplicates(xs: seq<string>, v: string)
    requires NoDuplicates(xs)
    ensures NoDuplicates(Toggle(xs, v))
  {
    if v in xs {
      FilterKeepsNoDuplicates(xs, (c: string) => c != v);
    }
  }

  lemma {:induction false} FilterKeepsNoDuplicates(xs: seq<string>, p: string -> bool)
    requires NoDuplicates(xs)
    ensures NoDuplicates(Ordering.Filter(xs, p))
    decreases |xs|
  {
    if |xs| > 0 {
      var tail := xs[1..];
      assert NoDuplicates(tail) by {
        forall i, j | 0 <= i < j < |tail| ensures tail[i] != tail[j] {
          assert tail[i] == xs[i + 1] && tail[j] == xs[j + 1];
        }
      }
      FilterKeepsNoDuplicates(tail, p);
      var rest := Ordering.Filter(tail, p);
      if p(xs[0]) {
        assert xs[0] !in tail;
        var r := [xs[0]] + rest;
        forall i, j | 0 <= i < j < |r| ensures r[i] != r[j] {
          assert r[j] == rest[j - 1] && r[j] in tail;
          if i > 0 {
            assert r[i] == rest[i - 1];
          }
        }
      }
    }
  }

  /** `handleCategoryChange`: toggles the category, nothing else. */
  function ToggleCategory(f: SidebarFilters, category: string): (r: SidebarFilters)
    ensures r.categories == Toggle(f.categories, category)
    ensures r.conditions == f.conditions && r.priceMin == f.priceMin && r.priceMax == f.priceMax
  {
    f.(categories := Toggle(f.categories, category))
  }

  /** `handleConditionChange`: toggles the condition, nothing else. */
  function ToggleCondition(f: SidebarFilters, condition: string): (r: SidebarFilters)
    ensures r.conditions == Toggle(f.conditions, condition)
    ensures r.categories == f.categories && r.priceMin == f.priceMin && r.priceMax == f.priceMax
  {
    f.(conditions := Toggle(f.conditions, condition))
  }

  /** The `initialFilters` prop; a field the caller leaves out is None. */
  datatype InitialFilters = InitialFilters(
    categories: Option<seq<string>>,
    conditions: Option<seq<string>>,
    priceMin: Option<string>,
    priceMax: Option<string>)

  const NoInitialFilters: InitialFilters := InitialFilters(None, None, None, None)

  /** The state the sidebar starts from (and resets to whenever the prop
      changes): each list as given or empty, each price as given when it is
      a non-empty text, otherwise empty. */
  function FromInitial(i: InitialFilters): (r: SidebarFilters)
    ensures i.categories.Some? ==> r.categories == i.categories.value
    ensures i.categories.None? ==> r.categories == []
    ensures i.conditions.Some? ==> r.conditions == i.conditions.value
    ensures i.conditions.None? ==> r.conditions == []
    ensures r.priceMin == (if Truthy(i.priceMin) then i.priceMin.value else "")
    ensures r.priceMax == (if Truthy(i.priceMax) then i.priceMax.value else "")
  {
    SidebarFilters(
      if i.categories.Some? then i.categories.value else [],
      if i.conditions.Some? then i.conditions.value else [],
      Or(i.priceMin, ""),
      Or(i.priceMax, ""))
  }

  /** `handleReset`: whatever was set before, the sidebar returns to the
      state it starts from without initial filters, so the next tick of a
      category or a condition leaves exactly that one value ticked. */
  function Reset(f: SidebarFilters): (r: SidebarFilters)
    ensures r == FromInitial(NoInitialFilters)
    ensures forall c :: ToggleCategory(r, c).categories == [c]
    ensures forall c :: ToggleCondition(r, c).conditions == [c]
  {
    SidebarFilters([], [], "", "")
  }

  /** Resetting forgets the previous filters entirely. */
  lemma ResetForgets(f: SidebarFilters, g: SidebarFilters)
    ensures Reset(f) == Reset(g)
  {
  }

  /** Toggles of a category and of a condition commute: the two lists are
      independent. */
  lemma CategoryAndConditionCommute(f: SidebarFilters, category: string, condition: string)
    ensures ToggleCondition(ToggleCategory(f, category), condition)
      == ToggleCategory(ToggleCondition(f, condition), category)
  {
  }
}
