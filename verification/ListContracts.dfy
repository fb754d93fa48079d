/**
 What the list shows, told from the rows: which rows a page holds, how often, in
 which order, and what the browser makes of any list. Filters, groups and ranks are
 spelled out here on the fields of the rows.
 */
module ListContracts {
  import opened Wrappers
  import opened Arithmetic
  import opened RequestStatus
  import opened ListPipeline
  import opened ListTheorems

  predicate Matches(item: Item, filter: Option<Status>) {
    filter == None || filter == Some(item.status)
  }

  /** The seasons of one series belong together; a film stands alone. */
  predicate Together(a: Item, b: Item) {
    if a.tv then b.tv && a.tmdb == b.tmdb else !b.tv && a.id == b.id
  }

  /** The groups of the matching rows, as the pairs the server compares. */
  function GroupsOf(rows: seq<Item>, filter: Option<Status>): (groups: set<(bool, int)>) {
    set item | item in rows && Matches(item, filter) :: (item.tv, if item.tv then item.tmdb else item.id)
  }

  /** In progress, waiting, translation, missing. */
  predicate EarlierStatus(a: Status, b: Status) {
    match a
    case InProgress => b != InProgress
    case Waiting => b == Translation || b == Missing
    case Translation => b == Missing
    case Missing => false
  }

  predicate Newer(a: Item, b: Item) {
    a.createdAt > b.createdAt
  }

  /** The mode's first key puts `a` in front of `b`, or does not tell them apart. */
  predicate InFront(mode: Mode, a: Item, b: Item) {
    match mode
    case Newest => Newer(a, b)
    case Oldest => Newer(b, a)
    case LikesDesc => a.likes > b.likes || (a.likes == b.likes && Newer(a, b))
    case LikesAsc => a.likes < b.likes || (a.likes == b.likes && Newer(a, b))
    case ByStatus => EarlierStatus(a.status, b.status) || (a.status == b.status && Newer(a, b))
  }

  /** Nothing stands in front of what it should follow; rows the mode does not tell
      apart come with the higher id first, oldest first with the lower one. */
  ghost predicate InOrder(items: seq<Item>, mode: Mode) {
    forall i, j | 0 <= i < j < |items| ::
      && !InFront(mode, items[j], items[i])
      && (!InFront(mode, items[i], items[j]) ==>
            if mode == Oldest then items[i].id <= items[j].id else items[i].id >= items[j].id)
  }

  /** The numbers of a page: as many pages as `size` groups each need, at least one. */
  predicate Numbered(page: Page, groups: nat, all: nat) {
    && page.totalItems == groups
    && page.totalAllItems == all
    && (if groups == 0 then page.totalPages == 1
        else (page.totalPages - 1) * page.pageSize < groups <= page.totalPages * page.pageSize)
  }

  /** Whole groups of matching rows, each row as often as in the table. */
  ghost predicate Shows(items: seq<Item>, rows: seq<Item>, filter: Option<Status>) {
    && (forall item | item in items :: item in rows && Matches(item, filter))
    && (forall item, row | item in items && row in rows && Together(item, row) && Matches(row, filter) ::
          multiset(items)[row] == multiset(rows)[row])
  }

  ghost predicate Listed(
    rows: seq<Item>, page: int, size: int, mode: Mode, filter: Option<Status>, result: Option<Page>)
  {
    && (result.Some? <==> size == 25 || size == 50 || size == 100)
    && (result.Some? ==>
          && result.value.pageSize == size
          && Numbered(result.value, |GroupsOf(rows, filter)|, |GroupsOf(rows, None)|)
          && Clamped(page, result.value.page, result.value.totalPages)
          && Shows(result.value.items, rows, filter)
          && InOrder(result.value.items, mode))
  }

  // ---- Rows and groups ------------------------------------------------------

  lemma {:induction false} FilterKeepsMatches(rows: seq<Item>, filter: Option<Status>, item: Item)
    ensures multiset(Filtered(rows, filter))[item] == if Matches(item, filter) then multiset(rows)[item] else 0
  {
    if rows != [] {
      FilterKeepsMatches(rows[..|rows| - 1], filter, item);
      assert rows == rows[..|rows| - 1] + [rows[|rows| - 1]];
    }
  }

  lemma {:induction false} RestrictKeepsGroups(items: seq<Item>, keys: set<GroupKey>, item: Item)
    ensures multiset(Restrict(items, keys))[item] == if GroupOf(item) in keys then multiset(items)[item] else 0
  {
    if items != [] {
      RestrictKeepsGroups(items[..|items| - 1], keys, item);
      assert items == items[..|items| - 1] + [items[|items| - 1]];
    }
  }

  lemma TogetherIsOneGroup(a: Item, b: Item)
    ensures Together(a, b) <==> GroupOf(a) == GroupOf(b)
  {
  }

  /** What the sorted matching rows hold. */
  lemma SortedMatches(rows: seq<Item>, mode: Mode, filter: Option<Status>, item: Item)
    ensures var items := ServerSorted(Filtered(rows, filter), mode);
      && multiset(items)[item] == (if Matches(item, filter) then multiset(rows)[item] else 0)
      && (item in items <==> item in rows && Matches(item, filter))
  {
    var items := ServerSorted(Filtered(rows, filter), mode);
    ServerSortIsSorted(Filtered(rows, filter), mode);
    FilterKeepsMatches(rows, filter, item);
    assert item in items <==> item in multiset(items);
    assert item in rows <==> item in multiset(rows);
  }

  function PairOf(key: GroupKey): (pair: (bool, int)) {
    match key
    case Series(tmdb) => (true, tmdb)
    case Single(id) => (false, id)
  }

  function PairsOf(keys: seq<GroupKey>): (pairs: set<(bool, int)>) {
    set key | key in keys :: PairOf(key)
  }

  lemma OneMorePair(keys: seq<GroupKey>, last: GroupKey)
    requires last !in keys
    ensures PairsOf(keys + [last]) == PairsOf(keys) + {PairOf(last)} && PairOf(last) !in PairsOf(keys)
  {
    assert PairsOf(keys + [last]) == PairsOf(keys) + {PairOf(last)};
  }

  lemma {:induction false} PairsCount(keys: seq<GroupKey>)
    requires NoRepeats(keys)
    ensures |PairsOf(keys)| == |keys|
  {
    if keys != [] {
      hide PairsOf;
      var front, last := keys[..|keys| - 1], keys[|keys| - 1];
      PairsCount(front);
      assert keys == front + [last];
      OneMorePair(front, last);
    }
  }

  /** As many keys as groups of the rows that the list was made of. */
  lemma KeysAreGroups(items: seq<Item>, rows: seq<Item>, filter: Option<Status>)
    requires forall item :: item in items <==> item in rows && Matches(item, filter)
    ensures |FirstKeys(items)| == |GroupsOf(rows, filter)|
  {
    var keys := FirstKeys(items);
    FirstKeysList(items);
    PairsCount(keys);
    var pairs := PairsOf(keys);
    forall pair | pair in pairs ensures pair in GroupsOf(rows, filter) {
      var key :| key in keys && PairOf(key) == pair;
      var item :| item in items && GroupOf(item) == key;
      assert item in rows && Matches(item, filter);
    }
    forall pair | pair in GroupsOf(rows, filter) ensures pair in pairs {
      var item :| item in rows && Matches(item, filter) && pair == (item.tv, if item.tv then item.tmdb else item.id);
      assert item in items && GroupOf(item) in keys && PairOf(GroupOf(item)) == pair;
    }
    assert pairs == GroupsOf(rows, filter);
  }

  lemma SortedIsInOrder(items: seq<Item>, mode: Mode)
    requires Sorted(items, By(mode))
    ensures InOrder(items, mode)
  {
    forall i, j | 0 <= i < j < |items|
      ensures !InFront(mode, items[j], items[i])
      ensures !InFront(mode, items[i], items[j]) ==>
        if mode == Oldest then items[i].id <= items[j].id else items[i].id >= items[j].id
    {
      assert Precedes(By(mode), items[i], items[j]);
    }
  }

  // ---- A page ---------------------------------------------------------------

  lemma PageShows(rows: seq<Item>, mode: Mode, filter: Option<Status>, keys: set<GroupKey>)
    ensures Shows(Restrict(ServerSorted(Filtered(rows, filter), mode), keys), rows, filter)
  {
    var items := ServerSorted(Filtered(rows, filter), mode);
    var sent := Restrict(items, keys);
    RestrictLists(items, keys);
    hide ServerSorted, Filtered, Restrict;
    forall item | item in sent ensures item in rows && Matches(item, filter) {
      SortedMatches(rows, mode, filter, item);
    }
    forall item, row | item in sent && row in rows && Together(item, row) && Matches(row, filter)
      ensures multiset(sent)[row] == multiset(rows)[row]
    {
      TogetherIsOneGroup(item, row);
      RestrictKeepsGroups(items, keys, row);
      SortedMatches(rows, mode, filter, row);
    }
  }

  lemma PageIsNumbered(rows: seq<Item>, page: int, size: nat, mode: Mode, filter: Option<Status>)
    requires size in {25, 50, 100}
    ensures Numbered(Paginated(rows, page, size, mode, filter).value, |GroupsOf(rows, filter)|, |GroupsOf(rows, None)|)
  {
    var items := ServerSorted(Filtered(rows, filter), mode);
    forall item ensures item in items <==> item in rows && Matches(item, filter) {
      SortedMatches(rows, mode, filter, item);
    }
    KeysAreGroups(items, rows, filter);
    KeysAreGroups(rows, rows, None);
    FirstKeysList(rows);
    DistinctKeysCount(FirstKeys(rows));
    PageCount(|FirstKeys(items)|, size);
  }

  lemma PageIsListed(rows: seq<Item>, page: int, size: int, mode: Mode, filter: Option<Status>)
    ensures Listed(rows, page, size, mode, filter, Paginated(rows, page, size, mode, filter))
  {
    if size in {25, 50, 100} {
      var items := ServerSorted(Filtered(rows, filter), mode);
      var sent := Paginated(rows, page, size, mode, filter).value;
      var keys := AsSet(Slice(FirstKeys(items), sent.page, size));
      PageShows(rows, mode, filter, keys);
      PageIsNumbered(rows, page, size, mode, filter);
      ServerSortIsSorted(Filtered(rows, filter), mode);
      RestrictKeepsOrder(items, keys, By(mode));
      SortedIsInOrder(sent.items, mode);
    }
  }

  lemma RowOnPage(rows: seq<Item>, page: int, size: int, mode: Mode, filter: Option<Status>, row: Item, home: nat)
    requires size in {25, 50, 100} && row in rows && Matches(row, filter)
    requires var items := ServerSorted(Filtered(rows, filter), mode);
      1 <= page <= PagesOf(items, size) ==> (row in ItemsOnPage(items, page, size) <==> page == home)
    ensures var sent := Paginated(rows, page, size, mode, filter).value;
      1 <= page <= sent.totalPages ==>
        multiset(sent.items)[row] == if page == home then multiset(rows)[row] else 0
  {
    var items := ServerSorted(Filtered(rows, filter), mode);
    var sent := Paginated(rows, page, size, mode, filter).value;
    if 1 <= page <= sent.totalPages {
      var keys := AsSet(GroupsOnPage(items, page, size));
      RestrictKeepsGroups(items, keys, row);
      SortedMatches(rows, mode, filter, row);
      assert sent.items == Restrict(items, keys) == ItemsOnPage(items, page, size);
      assert row in sent.items <==> multiset(sent.items)[row] > 0;
    }
  }

  /** Every matching row is on exactly one of the pages 1..totalPages, as often as in
      the table, and on no other. */
  lemma EveryRowIsOnOnePage(rows: seq<Item>, size: int, mode: Mode, filter: Option<Status>, row: Item)
    returns (home: nat)
    requires size in {25, 50, 100} && row in rows && Matches(row, filter)
    ensures forall page :: var sent := Paginated(rows, page, size, mode, filter).value;
      && 1 <= home <= sent.totalPages
      && (1 <= page <= sent.totalPages ==>
            multiset(sent.items)[row] == if page == home then multiset(rows)[row] else 0)
  {
    hide ServerSorted, Filtered, Restrict, FirstKeys, TotalPages, ItemsOnPage;
    var items := ServerSorted(Filtered(rows, filter), mode);
    SortedMatches(rows, mode, filter, row);
    home := PagesPartition(items, size, row);
    forall page ensures var sent := Paginated(rows, page, size, mode, filter).value;
      && 1 <= home <= sent.totalPages
      && (1 <= page <= sent.totalPages ==>
            multiset(sent.items)[row] == if page == home then multiset(rows)[row] else 0)
    {
      RowOnPage(rows, page, size, mode, filter, row, home);
    }
  }

  // ---- The order of the pages -----------------------------------------------

  /** An earlier key appears before every item of a later one. */
  lemma {:induction false} EarlierKeyAppearsFirst(items: seq<Item>, i: nat, j: nat, at: nat) returns (before: nat)
    requires i < j < |FirstKeys(items)| && at < |items| && GroupOf(items[at]) == FirstKeys(items)[j]
    ensures before < at && GroupOf(items[before]) == FirstKeys(items)[i]
    decreases |items|
  {
    var front, last := items[..|items| - 1], items[|items| - 1];
    var keys := FirstKeys(front);
    assert FirstKeys(items) == if GroupOf(last) in keys then keys else keys + [GroupOf(last)];
    FirstKeysList(items);
    FirstKeysList(front);
    if at < |front| {
      assert front[at] in front && GroupOf(front[at]) in keys;
      before := EarlierKeyAppearsFirst(front, i, j, at);
    } else {
      assert keys[i] in keys;
      var item :| item in front && GroupOf(item) == keys[i];
      before :| 0 <= before < |front| && front[before] == item;
    }
  }

  /** A series stands on the page of its best placed season: whatever is on a later
      page follows some row of each series of an earlier one. */
  lemma PagesAreInOrder(items: seq<Item>, size: nat, page: nat, later: nat, a: Item, b: Item) returns (best: Item)
    requires size > 0 && 1 <= page < later
    requires a in ItemsOnPage(items, page, size) && b in ItemsOnPage(items, later, size)
    ensures best in ItemsOnPage(items, page, size) && Together(a, best)
    ensures forall mode | Sorted(items, By(mode)) :: Precedes(By(mode), best, b)
  {
    RestrictLists(items, AsSet(GroupsOnPage(items, page, size)));
    RestrictLists(items, AsSet(GroupsOnPage(items, later, size)));
    var i := GroupPosition(items, a);
    var j := GroupPosition(items, b);
    FirstKeysList(items);
    SliceHolds(FirstKeys(items), i, page, size);
    SliceHolds(FirstKeys(items), j, later, size);
    if j <= i {
      Ordered(j, i, size);
    }
    var at :| 0 <= at < |items| && items[at] == b;
    var before := EarlierKeyAppearsFirst(items, i, j, at);
    best := items[before];
    TogetherIsOneGroup(a, best);
  }

  lemma Ordered(i: nat, j: nat, size: nat)
    requires size > 0 && i <= j
    ensures i / size <= j / size
  {
    Quotient(i, size, i / size);
    Quotient(j, size, j / size);
    if j / size < i / size {
      MultiplesGrow(j / size, i / size, size);
    }
  }

  // ---- The browser ----------------------------------------------------------

  /** What the numbers must satisfy: a size on offer, a page within the pages, no more
      filtered groups than groups, and the pages that so many groups need. */
  lemma ValidationMeans(page: Page)
    ensures PassesValidation(page) <==>
      && (page.pageSize == 25 || page.pageSize == 50 || page.pageSize == 100)
      && 1 <= page.page <= page.totalPages
      && 0 <= page.totalItems <= page.totalAllItems
      && (if page.totalItems == 0 then page.totalPages == 1
          else (page.totalPages - 1) * page.pageSize < page.totalItems <= page.totalPages * page.pageSize)
  {
    if page.totalItems >= 0 && page.pageSize in {25, 50, 100} {
      var n, d := page.totalItems, page.pageSize;
      CeilingIsTotalPages(n, d);
      PageCount(n, d);
      if n > 0 && (page.totalPages - 1) * d < n <= page.totalPages * d {
        EnoughPages(n, d, TotalPages(n, d), page.totalPages);
      }
    }
  }

  /** The number of pages is determined. */
  lemma EnoughPages(n: int, d: int, p: int, q: int)
    requires n > 0 && d in {25, 50, 100}
    requires (p - 1) * d < n <= p * d && (q - 1) * d < n <= q * d
    ensures p == q
  {
  }

  /** `key` tells neither of two rows in front of the other. */
  predicate Ties(key: Key, a: Item, b: Item) {
    Leq(key, a, b) && Leq(key, b, a)
  }

  /** `a` stands somewhere in front of `b`. */
  ghost predicate Earlier(items: seq<Item>, a: Item, b: Item) {
    exists i, j | 0 <= i < j < |items| :: items[i] == a && items[j] == b
  }

  lemma EarlierBehind(x: Item, items: seq<Item>, a: Item, b: Item)
    ensures Earlier(items, a, b) ==> Earlier([x] + items, a, b)
    ensures b in items ==> Earlier([x] + items, x, b)
    ensures Earlier([x] + items, a, b) ==> Earlier(items, a, b) || (a == x && b in items)
  {
    var all := [x] + items;
    assert all[0] == x && all[1..] == items;
    if Earlier(items, a, b) {
      var i, j :| 0 <= i < j < |items| && items[i] == a && items[j] == b;
      assert all[i + 1] == a && all[j + 1] == b;
    }
    if b in items {
      var j :| 0 <= j < |items| && items[j] == b;
      assert all[0] == x && all[j + 1] == b;
    }
    if Earlier(all, a, b) {
      var i, j :| 0 <= i < j < |all| && all[i] == a && all[j] == b;
      assert all[j] == items[j - 1];
      if i > 0 {
        assert items[i - 1] == a && items[j - 1] == b;
      }
    }
  }

  lemma EarlierIsMember(items: seq<Item>, a: Item, b: Item)
    requires Earlier(items, a, b)
    ensures a in items && b in items
  {
  }

  /** An insertion puts the new item in front of its ties. */
  lemma {:induction false} InsertKeepsTies(x: Item, ys: seq<Item>, key: Key, a: Item, b: Item)
    requires Ties(key, a, b) && Earlier(Insert(x, ys, key), a, b)
    ensures Earlier([x] + ys, a, b)
  {
    hide Leq, Earlier;
    if ys == [] || Leq(key, x, ys[0]) {
      if ys == [] {
        assert [x] + ys == [x];
      }
    } else {
      var r := Insert(x, ys[1..], key);
      EarlierBehind(ys[0], r, a, b);
      EarlierBehind(x, ys, a, b);
      EarlierBehind(ys[0], ys[1..], a, b);
      assert [ys[0]] + ys[1..] == ys;
      if Earlier(r, a, b) {
        InsertKeepsTies(x, ys[1..], key, a, b);
        EarlierBehind(x, ys[1..], a, b);
        assert b in ys[1..] ==> b in ys;
        BehindIsMember(x, ys[1..], a, b);
      } else {
        InsertMembers(x, ys[1..], key, b);
        TiesGoBehind(x, ys[0], b, key);
      }
    }
  }

  lemma BehindIsMember(x: Item, ys: seq<Item>, a: Item, b: Item)
    requires Earlier([x] + ys, a, b)
    ensures b in ys
  {
    var i, j :| 0 <= i < j < |[x] + ys| && ([x] + ys)[i] == a && ([x] + ys)[j] == b;
    assert ([x] + ys)[j] == ys[j - 1];
  }

  lemma TiesGoBehind(x: Item, a: Item, b: Item, key: Key)
    requires Ties(key, a, b) && !Leq(key, x, a)
    ensures b != x
  {
  }

  /** A stable sort keeps the order of rows its key does not tell apart. */
  lemma {:induction false} SortKeepsTies(items: seq<Item>, key: Key, a: Item, b: Item)
    requires Ties(key, a, b) && Earlier(StableSort(items, key), a, b)
    ensures Earlier(items, a, b)
  {
    hide Leq, Earlier;
    EarlierIsMember(StableSort(items, key), a, b);
    if items != [] {
      var sorted := StableSort(items[1..], key);
      InsertKeepsTies(items[0], sorted, key, a, b);
      EarlierBehind(items[0], sorted, a, b);
      EarlierBehind(items[0], items[1..], a, b);
      SortMembers(items[1..], key, b);
      assert [items[0]] + items[1..] == items;
      if Earlier(sorted, a, b) {
        SortKeepsTies(items[1..], key, a, b);
      }
    }
  }

  /** The comparator and `InFront` say the same. */
  lemma ComparatorMeans(mode: Mode, a: Item, b: Item)
    ensures Leq(Comparator(mode), a, b) <==> !InFront(mode, b, a)
  {
  }

  /** The browser orders any list it holds: the same rows, nothing in front of what it
      should follow, and rows the mode does not tell apart as they came. */
  lemma ClientSortOrders(items: seq<Item>, mode: Mode)
    ensures var shown := ClientSorted(items, mode);
      && multiset(shown) == multiset(items)
      && (forall i, j | 0 <= i < j < |shown| :: !InFront(mode, shown[j], shown[i]))
      && (forall a, b | Earlier(shown, a, b) && !InFront(mode, a, b) && !InFront(mode, b, a) :: Earlier(items, a, b))
  {
    var shown := ClientSorted(items, mode);
    SortOrders(items, Comparator(mode));
    forall i, j | 0 <= i < j < |shown| ensures !InFront(mode, shown[j], shown[i]) {
      ComparatorMeans(mode, shown[i], shown[j]);
    }
    forall a, b | Earlier(shown, a, b) && !InFront(mode, a, b) && !InFront(mode, b, a) ensures Earlier(items, a, b) {
      ComparatorMeans(mode, a, b);
      ComparatorMeans(mode, b, a);
      SortKeepsTies(items, Comparator(mode), a, b);
    }
  }

  // ---- Groups in the browser ------------------------------------------------

  /** A season without a number sorts as number 0. */
  function Season(item: Item): (n: int) {
    match item.season
    case None => 0
    case Some(n) => n
  }

  /** A group holds all rows that belong to its first one, seasons ascending, equal
      seasons as they came. */
  ghost predicate ShowsGroup(items: seq<Item>, group: seq<Item>) {
    && group != []
    && (forall item :: multiset(group)[item] == if Together(group[0], item) then multiset(items)[item] else 0)
    && (forall i, j | 0 <= i < j < |group| :: Season(group[i]) <= Season(group[j]))
    && (forall a, b | Earlier(group, a, b) && Season(a) == Season(b) :: Earlier(items, a, b))
  }

  /** The groups of a list: each row in one of them, and a group comes before another
      when one of its rows came before all rows of the other. */
  ghost predicate ShowsGroups(items: seq<Item>, groups: seq<Group>) {
    && (forall i | 0 <= i < |groups| :: ShowsGroup(items, groups[i].items))
    && (forall item | item in items :: InSomeGroup(groups, item))
    && (forall i, j, b | 0 <= i < j < |groups| && b in groups[j].items :: Follows(items, groups[i].items, b))
  }

  ghost predicate InSomeGroup(groups: seq<Group>, item: Item) {
    exists i | 0 <= i < |groups| :: item in groups[i].items
  }

  /** Some row of another group came before `b`. */
  ghost predicate Follows(items: seq<Item>, group: seq<Item>, b: Item) {
    exists a | a in group :: Earlier(items, a, b) && !Together(a, b)
  }

  lemma {:induction false} RestrictKeepsPlaces(items: seq<Item>, keys: set<GroupKey>, a: Item, b: Item)
    requires Earlier(Restrict(items, keys), a, b)
    ensures Earlier(items, a, b)
  {
    if items != [] {
      var front, last := items[..|items| - 1], items[|items| - 1];
      var r := Restrict(front, keys);
      RestrictLists(front, keys);
      var all := Restrict(items, keys);
      var i, j :| 0 <= i < j < |all| && all[i] == a && all[j] == b;
      assert all[i] == r[i] && r[i] in front;
      if j < |r| {
        assert r[j] == b;
        RestrictKeepsPlaces(front, keys, a, b);
        var k, l :| 0 <= k < l < |front| && front[k] == a && front[l] == b;
        assert items[k] == a && items[l] == b;
      } else {
        var k :| 0 <= k < |front| && front[k] == a;
        assert items[k] == a && items[|items| - 1] == b;
      }
    }
  }

  /** The group at `i` is the sorted list of the rows with the key at `i`. */
  lemma GroupAt(items: seq<Item>, i: nat)
    requires Rows(items) && i < |FirstKeys(items)|
    ensures |ClientGroups(items)| == |FirstKeys(items)|
    ensures var all := Restrict(items, {FirstKeys(items)[i]});
      ClientGroups(items)[i].items == if |all| > 1 then StableSort(all, SeasonAscending) else all
  {
    GroupedIsGroupList(items);
  }

  lemma GroupMembers(items: seq<Item>, i: nat, item: Item)
    requires Rows(items) && i < |FirstKeys(items)| == |ClientGroups(items)|
    ensures var group, key := ClientGroups(items)[i].items, FirstKeys(items)[i];
      && multiset(group)[item] == (if GroupOf(item) == key then multiset(items)[item] else 0)
      && (item in group <==> item in items && GroupOf(item) == key)
  {
    var group, all := ClientGroups(items)[i].items, Restrict(items, {FirstKeys(items)[i]});
    GroupAt(items, i);
    RestrictKeepsGroups(items, {FirstKeys(items)[i]}, item);
    assert item in group <==> item in multiset(group);
    assert item in items <==> item in multiset(items);
  }

  lemma GroupIsNotEmpty(items: seq<Item>, i: nat)
    requires Rows(items) && i < |FirstKeys(items)| == |ClientGroups(items)|
    ensures ClientGroups(items)[i].items != []
  {
    FirstKeysList(items);
    assert FirstKeys(items)[i] in FirstKeys(items);
    var some :| some in items && GroupOf(some) == FirstKeys(items)[i];
    GroupMembers(items, i, some);
  }

  lemma GroupKeepsTies(items: seq<Item>, i: nat, a: Item, b: Item)
    requires Rows(items) && i < |FirstKeys(items)| == |ClientGroups(items)|
    requires Earlier(ClientGroups(items)[i].items, a, b) && Season(a) == Season(b)
    ensures Earlier(items, a, b)
  {
    hide Rows, ClientGroups, FirstKeys, Earlier, Season, Leq, StableSort, Restrict;
    var key := FirstKeys(items)[i];
    var all := Restrict(items, {key});
    GroupAt(items, i);
    SeasonTies(a, b);
    if |all| > 1 {
      SortKeepsTies(all, SeasonAscending, a, b);
    }
    RestrictKeepsPlaces(items, {key}, a, b);
  }

  lemma SeasonTies(a: Item, b: Item)
    requires Season(a) == Season(b)
    ensures Ties(SeasonAscending, a, b)
  {
  }

  lemma GroupIsSorted(items: seq<Item>, i: nat)
    requires Rows(items) && i < |FirstKeys(items)| == |ClientGroups(items)|
    ensures var group := ClientGroups(items)[i].items;
      forall k, l | 0 <= k < l < |group| :: Season(group[k]) <= Season(group[l])
  {
    var group := ClientGroups(items)[i].items;
    ClientGroupsAre(items, i);
    hide ClientGroups, FirstKeys;
    forall k, l | 0 <= k < l < |group| ensures Season(group[k]) <= Season(group[l]) {
      assert Leq(SeasonAscending, group[k], group[l]);
    }
  }

  lemma GroupIsShown(items: seq<Item>, i: nat)
    requires Rows(items) && i < |FirstKeys(items)| == |ClientGroups(items)|
    ensures ShowsGroup(items, ClientGroups(items)[i].items)
  {
    hide ClientGroups, FirstKeys, Season, Earlier;
    var group := ClientGroups(items)[i].items;
    GroupIsNotEmpty(items, i);
    GroupIsSorted(items, i);
    GroupMembers(items, i, group[0]);
    forall item ensures multiset(group)[item] == if Together(group[0], item) then multiset(items)[item] else 0 {
      GroupMembers(items, i, item);
      TogetherIsOneGroup(group[0], item);
    }
    forall a, b | Earlier(group, a, b) && Season(a) == Season(b) ensures Earlier(items, a, b) {
      GroupKeepsTies(items, i, a, b);
    }
  }

  lemma GroupsAreInOrder(items: seq<Item>, i: nat, j: nat, b: Item) returns (a: Item)
    requires Rows(items) && i < j < |FirstKeys(items)| == |ClientGroups(items)| && b in ClientGroups(items)[j].items
    ensures a in ClientGroups(items)[i].items && Earlier(items, a, b) && !Together(a, b)
  {
    hide ClientGroups, Rows;
    GroupMembers(items, j, b);
    var at :| 0 <= at < |items| && items[at] == b;
    var before := EarlierKeyAppearsFirst(items, i, j, at);
    a := items[before];
    GroupMembers(items, i, a);
    FirstKeysList(items);
    TogetherIsOneGroup(a, b);
  }

  lemma SomeIsEarlier(items: seq<Item>, group: seq<Item>, a: Item, b: Item)
    requires a in group && Earlier(items, a, b) && !Together(a, b)
    ensures Follows(items, group, b)
  {
  }

  lemma RowIsInAGroup(items: seq<Item>, item: Item)
    requires Rows(items) && item in items && |FirstKeys(items)| == |ClientGroups(items)|
    ensures InSomeGroup(ClientGroups(items), item)
  {
    hide Rows, ClientGroups, FirstKeys;
    var i := GroupPosition(items, item);
    GroupMembers(items, i, item);
  }

  lemma AsManyGroups(items: seq<Item>)
    requires Rows(items)
    ensures |ClientGroups(items)| == |FirstKeys(items)|
  {
    GroupedIsGroupList(items);
  }

  /** What the browser shows of any list of rows: every row in one group, whole series
      with their seasons in order, groups by their best placed row. */
  lemma BrowserShowsGroups(items: seq<Item>)
    requires Rows(items)
    ensures ShowsGroups(items, ClientGroups(items))
  {
    AsManyGroups(items);
    hide ClientGroups, FirstKeys, Rows, ShowsGroup, InSomeGroup, Follows;
    var groups := ClientGroups(items);
    forall i | 0 <= i < |groups| ensures ShowsGroup(items, groups[i].items) {
      GroupIsShown(items, i);
    }
    forall item | item in items ensures InSomeGroup(groups, item) {
      RowIsInAGroup(items, item);
    }
    forall i, j, b | 0 <= i < j < |groups| && b in groups[j].items ensures Follows(items, groups[i].items, b) {
      var a := GroupsAreInOrder(items, i, j, b);
      SomeIsEarlier(items, groups[i].items, a, b);
    }
  }
}
