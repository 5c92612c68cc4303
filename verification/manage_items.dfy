/** The item-moderation list of frontend/src/components/admin/ManageItems.jsx:
    the search and status filter over the loaded items and the local list
    updates that follow a confirmed delete, approve or reject. */
module ManageItems {
  import opened Common
  import opened Strings
  import Ordering

  /** The tri-state `approved` the screen reads: null is pending, true
      approved, false rejected. */
  datatype Approval = Pending | Approved | Rejected

  datatype ListedItem = ListedItem(
    id: int,
    title: string,
    description: string,
    category: string,
    approved: Approval)

  /** The search box: a non-empty term must occur, ignoring case, in the
      title, the description or the category. */
  predicate MatchesSearch(it: ListedItem, term: string) {
    term == ""
    || Contains(Lower(it.title), Lower(term))
    || Contains(Lower(it.description), Lower(term))
    || Contains(Lower(it.category), Lower(term))
  }

  /** The approval a status filter keeps; "all" and unknown values keep
      every item. */
  function StatusWanted(filterType: string): (r: Option<Approval>)
    ensures r.Some? <==> filterType in ["pending", "approved", "rejected"]
  {
    if filterType == "all" then None
    else if filterType == "pending" then Some(Pending)
    else if filterType == "approved" then Some(Approved)
    else if filterType == "rejected" then Some(Rejected)
    else None
  }

  predicate MatchesStatus(it: ListedItem, filterType: string) {
    StatusWanted(filterType).None? || it.approved == StatusWanted(filterType).value
  }

  function SearchFilter(term: string): ListedItem -> bool {
    it => MatchesSearch(it, term)
  }

  function StatusFilter(filterType: string): ListedItem -> bool {
    it => MatchesStatus(it, filterType)
  }

  /** `applyFilters`: the search first (when a term is typed), then the
      status filter (when one is chosen). */
  function ApplyFilters(items: seq<ListedItem>, term: string, filterType: string): (r: seq<ListedItem>)
    ensures |r| <= |items|
    ensures forall k :: 0 <= k < |r| ==> MatchesSearch(r[k], term) && MatchesStatus(r[k], filterType)
  {
    var searched := if term != "" then Ordering.Filter(items, SearchFilter(term)) else items;
    if StatusWanted(filterType).Some? then Ordering.Filter(searched, StatusFilter(filterType)) else searched
  }

  /** The filtered list keeps the loaded order and drops items only. */
  lemma ApplyFiltersIsSubsequence(items: seq<ListedItem>, term: string, filterType: string)
    ensures Ordering.IsSubsequence(ApplyFilters(items, term, filterType), items)
  {
    var searched := if term != "" then Ordering.Filter(items, SearchFilter(term)) else items;
    if term != "" {
      Ordering.FilterIsSubsequence(items, SearchFilter(term));
    } else {
      SubsequenceRefl(items);
    }
    if StatusWanted(filterType).Some? {
      Ordering.FilterIsSubsequence(searched, StatusFilter(filterType));
      SubsequenceTrans(Ordering.Filter(searched, StatusFilter(filterType)), searched, items);
    }
  }

  /** An item is shown iff it was loaded and passes both the search and the
      status filter. */
  lemma ApplyFiltersMembers(items: seq<ListedItem>, term: string, filterType: string)
    ensures forall it :: it in ApplyFilters(items, term, filterType) <==>
      it in items && MatchesSearch(it, term) && MatchesStatus(it, filterType)
  {
    var searched := if term != "" then Ordering.Filter(items, SearchFilter(term)) else items;
    if term != "" {
      Ordering.FilterMembers(items, SearchFilter(term));
    }
    if StatusWanted(filterType).Some? {
      Ordering.FilterMembers(searched, StatusFilter(filterType));
    }
  }

  /** An empty search with the "all" filter shows the whole list. */
  lemma NoFilterShowsAll(items: seq<ListedItem>)
    ensures ApplyFilters(items, "", "all") == items
  {
  }

  lemma {:induction false} SubsequenceRefl<T>(xs: seq<T>)
    ensures Ordering.IsSubsequence(xs, xs)
    decreases |xs|
  {
    if |xs| > 0 {
      SubsequenceRefl(xs[1..]);
    }
  }

  lemma {:induction false} SubsequenceTrans<T>(a: seq<T>, b: seq<T>, c: seq<T>)
    requires Ordering.IsSubsequence(a, b) && Ordering.IsSubsequence(b, c)
    ensures Ordering.IsSubsequence(a, c)
    decreases |c|
  {
    if |a| > 0 && |c| > 0 {
      if b[0] == c[0] {
        if a[0] == b[0] {
          SubsequenceTrans(a[1..], b[1..], c[1..]);
        } else {
          SubsequenceTrans(a, b[1..], c[1..]);
        }
      } else {
        SubsequenceTrans(a, b, c[1..]);
        if a[0] == c[0] {
          Ordering.SubsequenceDropHead(a, c[1..]);
        }
      }
    }
  }

  /** The three status filters split every list: each item is pending,
      approved or rejected, so the three counts add up to the whole. */
  lemma {:induction false} StatusFiltersPartition(items: seq<ListedItem>)
    ensures |ApplyFilters(items, "", "pending")| + |ApplyFilters(items, "", "approved")|
      + |ApplyFilters(items, "", "rejected")| == |items|
  {
    Ordering.CountIsFilterLength(items, StatusFilter("pending"));
    Ordering.CountIsFilterLength(items, StatusFilter("approved"));
    Ordering.CountIsFilterLength(items, StatusFilter("rejected"));
    CountsPartition(items);
  }

  lemma {:induction false} CountsPartition(items: seq<ListedItem>)
    ensures Ordering.Count(items, StatusFilter("pending")) + Ordering.Count(items, StatusFilter("approved"))
      + Ordering.Count(items, StatusFilter("rejected")) == |items|
    decreases |items|
  {
    if |items| > 0 {
      CountsPartition(items[1..]);
    }
  }

  /** Sets `approved` on every item with the selected id. */
  function SetApproval(items: seq<ListedItem>, selectedId: int, a: Approval): (r: seq<ListedItem>)
    ensures |r| == |items|
    ensures forall k :: 0 <= k < |items| ==>
      if items[k].id == selectedId then r[k] == items[k].(approved := a) else r[k] == items[k]
  {
    seq(|items|, k requires 0 <= k < |items| =>
      if items[k].id == selectedId then items[k].(approved := a) else items[k])
  }

  function WithoutId(items: seq<ListedItem>, selectedId: int): (r: seq<ListedItem>)
    ensures forall k :: 0 <= k < |r| ==> r[k].id != selectedId
  {
    Ordering.Filter(items, (it: ListedItem) => it.id != selectedId)
  }

  /** The list update `confirmAction` makes: the `try` branch makes it
      after the service call returns, and the `catch` branch makes the same
      one although the call failed. */
  function ListUpdate(items: seq<ListedItem>, action: string, selectedId: int): seq<ListedItem> {
    if action == "delete" then WithoutId(items, selectedId)
    else if action == "approve" then SetApproval(items, selectedId, Approved)
    else if action == "reject" then SetApproval(items, selectedId, Rejected)
    else items
  }

  /** `confirmAction`'s effect on the loaded list. */
  function ConfirmAction(items: seq<ListedItem>, action: string, selectedId: int, serviceOk: bool): (r: seq<ListedItem>)
    ensures action == "delete" ==> forall it :: it in r <==> it in items && it.id != selectedId
    ensures action == "approve" || action == "reject" ==>
      && |r| == |items|
      && forall k :: 0 <= k < |items| ==>
        && r[k].id == items[k].id && r[k].title == items[k].title
        && r[k].description == items[k].description && r[k].category == items[k].category
        && (items[k].id != selectedId ==> r[k] == items[k])
        && (items[k].id == selectedId ==> r[k].approved == (if action == "approve" then Approved else Rejected))
    ensures action !in ["delete", "approve", "reject"] ==> r == items
  {
    var r := ListUpdate(items, action, selectedId);
    if action == "delete" then
      Ordering.FilterMembers(items, (it: ListedItem) => it.id != selectedId);
      r
    else r
  }

  /** The screen shows the same list whether the service call succeeded or
      failed. */
  lemma ConfirmIgnoresService(items: seq<ListedItem>, action: string, selectedId: int)
    ensures ConfirmAction(items, action, selectedId, true) == ConfirmAction(items, action, selectedId, false)
  {
  }

  /** Deleting keeps the other items in their order. */
  lemma DeleteKeepsOrder(items: seq<ListedItem>, selectedId: int, serviceOk: bool)
    ensures Ordering.IsSubsequence(ConfirmAction(items, "delete", selectedId, serviceOk), items)
  {
    Ordering.FilterIsSubsequence(items, (it: ListedItem) => it.id != selectedId);
  }
}
