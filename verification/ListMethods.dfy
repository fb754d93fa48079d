/**
 The list as it is computed step by step: paginated_requests of
 request_app/repository.py and groupSortedItems of request_app/static/app.js.
 */
module ListMethods {
  import opened Wrappers
  import opened RequestStatus
  import opened ListPipeline
  import opened ListTheorems
  import opened ListContracts

  method FilterByStatus(rows: seq<Item>, filter: Option<Status>) returns (items: seq<Item>)
    ensures items == Filtered(rows, filter)
  {
    items := [];
    for i := 0 to |rows|
      invariant items == Filtered(rows[..i], filter)
    {
      assert rows[..i + 1][..i] == rows[..i];
      if filter.None? || rows[i].status == filter.value {
        items := items + [rows[i]];
      }
    }
    assert rows[..|rows|] == rows;
  }

  /** The list is re-sorted in place, from the least significant key on: the same rows,
      in the one order by the mode's key, then creation time, then id. */
  method SortItems(rows: seq<Item>, mode: Mode) returns (items: seq<Item>)
    ensures multiset(items) == multiset(rows) && Sorted(items, By(mode))
    ensures DistinctIds(rows) ==>
      forall ordered | multiset(ordered) == multiset(rows) && Sorted(ordered, By(mode)) :: ordered == items
    ensures items == ServerSorted(rows, mode)
  {
    items := StableSort(rows, IdDescending);
    items := StableSort(items, CreatedDescending);
    match mode {
      case Newest =>
      case Oldest => items := StableSort(items, CreatedThenId);
      case LikesDesc => items := StableSort(items, LikesDescending);
      case LikesAsc => items := StableSort(items, LikesAscending);
      case ByStatus => items := StableSort(items, StatusAscending);
    }
    ServerSortIsSorted(rows, mode);
    if DistinctIds(rows) {
      forall ordered | multiset(ordered) == multiset(rows) && Sorted(ordered, By(mode)) ensures ordered == items {
        SortsGiveTheTotalOrder(rows, mode, ordered);
      }
    }
  }

  method SelectItems(items: seq<Item>, selected: set<GroupKey>) returns (chosen: seq<Item>)
    ensures chosen == Restrict(items, selected)
  {
    chosen := [];
    for i := 0 to |items|
      invariant chosen == Restrict(items[..i], selected)
    {
      assert items[..i + 1][..i] == items[..i];
      if GroupOf(items[i]) in selected {
        chosen := chosen + [items[i]];
      }
    }
    assert items[..|items|] == items;
  }

  method PaginatedRequests(rows: seq<Item>, page: int, size: int, mode: Mode, filter: Option<Status>)
    returns (result: Option<Page>)
    ensures result == Paginated(rows, page, size, mode, filter)
    ensures Listed(rows, page, size, mode, filter, result)
    ensures result.Some? ==> PassesValidation(result.value)
  {
    PageIsListed(rows, page, size, mode, filter);
    hide Listed;
    if size !in {25, 50, 100} {
      return None;
    }
    PagesPassValidation(rows, page, size, mode, filter);
    var all := OrderedGroups(rows);
    var items := FilterByStatus(rows, filter);
    items := SortItems(items, mode);
    var ordered := OrderedGroups(items);
    var pages := TotalPages(|ordered|, size);
    var current := CurrentPage(page, pages);
    var chosen := SelectItems(items, AsSet(Slice(ordered, current, size)));
    result := Some(Page(chosen, current, size, |ordered|, |AsSet(all)|, pages));
  }

  method OrderedGroups(items: seq<Item>) returns (keys: seq<GroupKey>)
    ensures keys == FirstKeys(items)
  {
    keys := [];
    for i := 0 to |items|
      invariant keys == FirstKeys(items[..i])
    {
      assert items[..i + 1][..i] == items[..i];
      if GroupOf(items[i]) !in keys {
        keys := keys + [GroupOf(items[i])];
      }
    }
    assert items[..|items|] == items;
  }

  lemma RowsAreShown(items: seq<Item>)
    ensures Rows(items) ==> ShowsGroups(items, ClientGroups(items))
  {
    if Rows(items) {
      BrowserShowsGroups(items);
    }
  }

  method GroupSortedItems(items: seq<Item>) returns (groups: seq<Group>)
    ensures groups == ClientGroups(items)
    ensures Rows(items) ==> ShowsGroups(items, groups)
  {
    hide ShowsGroups, Rows;
    RowsAreShown(items);
    groups := [];
    for i := 0 to |items|
      invariant groups == Grouped(items[..i])
    {
      assert items[..i + 1][..i] == items[..i];
      var item := items[i];
      var at := |groups|;
      if item.tv {
        at := IndexOf(groups, GroupOf(item));
      }
      if at < |groups| {
        groups := groups[at := Group(groups[at].key, groups[at].items + [item])];
      } else {
        groups := groups + [Group(GroupOf(item), [item])];
      }
    }
    assert items[..|items|] == items;
    ghost var grouped := groups;
    for i := 0 to |groups|
      invariant |groups| == |grouped|
      invariant forall j :: 0 <= j < i ==> groups[j] == WithSeasonsSorted(grouped[j])
      invariant forall j :: i <= j < |groups| ==> groups[j] == grouped[j]
    {
      if |groups[i].items| > 1 {
        groups := groups[i := Group(groups[i].key, StableSort(groups[i].items, SeasonAscending))];
      }
    }
  }
}
