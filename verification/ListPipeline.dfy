/**
 The request list: sorting, grouping by series and paging on the server
 (request_app/repository.py) and validation, re-sorting and re-grouping in the
 browser (request_app/static/app.js).
 */
module ListPipeline {
  import opened Wrappers
  import opened Arithmetic
  import opened RequestStatus

  datatype Item = Item(
    id: nat,
    tv: bool,
    tmdb: int,
    season: Option<int>,
    createdAt: int,
    likes: nat,
    status: Status)

  datatype Mode = Newest | Oldest | LikesDesc | LikesAsc | ByStatus

  function StatusRank(status: Status): (rank: nat) {
    match status
    case InProgress => 0
    case Waiting => 1
    case Translation => 2
    case Missing => 3
  }

  // ---- Stable sorting -------------------------------------------------------

  /** The keys of the single sorts: five on the server, then the comparator of the
      browser and its sort of the seasons of one series. */
  datatype Key =
    | IdDescending
    | CreatedDescending
    | CreatedThenId
    | LikesDescending
    | LikesAscending
    | StatusAscending
    | Comparator(mode: Mode)
    | SeasonAscending

  function SeasonNumber(item: Item): (n: int) {
    if item.season.Some? then item.season.value else 0
  }

  /** Whether `a` may stay in front of `b` in a sort by `key`. */
  predicate Leq(key: Key, a: Item, b: Item) {
    match key
    case IdDescending => a.id >= b.id
    case CreatedDescending => a.createdAt >= b.createdAt
    case CreatedThenId => a.createdAt < b.createdAt || (a.createdAt == b.createdAt && a.id <= b.id)
    case LikesDescending => a.likes >= b.likes
    case LikesAscending => a.likes <= b.likes
    case StatusAscending => StatusRank(a.status) <= StatusRank(b.status)
    case SeasonAscending => SeasonNumber(a) <= SeasonNumber(b)
    case Comparator(mode) =>
      match mode
      case Oldest => a.createdAt <= b.createdAt
      case Newest => a.createdAt >= b.createdAt
      case LikesDesc => a.likes > b.likes || (a.likes == b.likes && a.createdAt >= b.createdAt)
      case LikesAsc => a.likes < b.likes || (a.likes == b.likes && a.createdAt >= b.createdAt)
      case ByStatus =>
        || StatusRank(a.status) < StatusRank(b.status)
        || (StatusRank(a.status) == StatusRank(b.status) && a.createdAt >= b.createdAt)
  }

  function Insert(x: Item, ys: seq<Item>, key: Key): (r: seq<Item>)
    ensures multiset(r) == multiset([x]) + multiset(ys)
  {
    if ys == [] then [x]
    else if Leq(key, x, ys[0]) then [x] + ys
    else
      assert ys == [ys[0]] + ys[1..];
      [ys[0]] + Insert(x, ys[1..], key)
  }

  /** A stable sort: equal items keep their order. */
  function StableSort(items: seq<Item>, key: Key): (r: seq<Item>)
    ensures multiset(r) == multiset(items)
    ensures |r| == |items|
  {
    if items == [] then []
    else
      var r := Insert(items[0], StableSort(items[1..], key), key);
      assert items == [items[0]] + items[1..];
      assert |multiset(r)| == |multiset(items)|;
      r
  }

  // ---- Server ---------------------------------------------------------------

  /** The sorts of `paginated_requests`, one after the other. */
  function ServerSorted(items: seq<Item>, mode: Mode): (r: seq<Item>) {
    var byCreation := StableSort(StableSort(items, IdDescending), CreatedDescending);
    match mode
    case Newest => byCreation
    case Oldest => StableSort(byCreation, CreatedThenId)
    case LikesDesc => StableSort(byCreation, LikesDescending)
    case LikesAsc => StableSort(byCreation, LikesAscending)
    case ByStatus => StableSort(byCreation, StatusAscending)
  }

  datatype GroupKey = Series(tmdb: int) | Single(id: nat)

  function GroupOf(item: Item): (key: GroupKey) {
    if item.tv then Series(item.tmdb) else Single(item.id)
  }

  /** The distinct groups in order of first appearance. */
  function FirstKeys(items: seq<Item>): (keys: seq<GroupKey>) {
    if items == [] then []
    else
      var keys := FirstKeys(items[..|items| - 1]);
      var key := GroupOf(items[|items| - 1]);
      if key in keys then keys else keys + [key]
  }

  /** The items of the given groups, in order. */
  function Restrict(items: seq<Item>, keys: set<GroupKey>): (r: seq<Item>) {
    if items == [] then []
    else
      var r := Restrict(items[..|items| - 1], keys);
      if GroupOf(items[|items| - 1]) in keys then r + [items[|items| - 1]] else r
  }

  function Filtered(items: seq<Item>, filter: Option<Status>): (r: seq<Item>) {
    if items == [] then []
    else
      var r := Filtered(items[..|items| - 1], filter);
      if filter.None? || items[|items| - 1].status == filter.value then r + [items[|items| - 1]] else r
  }

  function Min(a: int, b: int): (m: int) {
    if a < b then a else b
  }

  function TotalPages(groups: nat, size: nat): (pages: nat)
    requires size > 0
    ensures pages >= 1
  {
    Max(1, (groups + size - 1) / size)
  }

  function CurrentPage(page: int, pages: nat): (current: nat)
    requires pages >= 1
    ensures 1 <= current <= pages
  {
    Min(Max(page, 1), pages)
  }

  /** The groups of page `current`; a slice past the end is shorter. */
  function Slice(keys: seq<GroupKey>, current: nat, size: nat): (slice: seq<GroupKey>)
    requires current >= 1
  {
    var start := Min((current - 1) * size, |keys|);
    assert 0 <= (current - 1) * size;
    keys[start..Min(start + size, |keys|)]
  }

  function AsSet(keys: seq<GroupKey>): (s: set<GroupKey>) {
    set key | key in keys
  }

  datatype Page = Page(
    items: seq<Item>, page: int, pageSize: int, totalItems: int, totalAllItems: int, totalPages: int)

  /** `paginated_requests` on the rows of one state; nothing for a refused page size. */
  function Paginated(rows: seq<Item>, page: int, size: int, mode: Mode, filter: Option<Status>): (r: Option<Page>) {
    if size !in {25, 50, 100} then None
    else
      var items := ServerSorted(Filtered(rows, filter), mode);
      var keys := FirstKeys(items);
      var pages := TotalPages(|keys|, size);
      var current := CurrentPage(page, pages);
      Some(Page(Restrict(items, AsSet(Slice(keys, current, size))),
                current, size, |keys|, |AsSet(FirstKeys(rows))|, pages))
  }

  // ---- Browser --------------------------------------------------------------

  /** `normalizeRequestResult`: the checks on the numbers. */
  predicate PassesValidation(page: Page) {
    && page.pageSize in {25, 50, 100}
    && page.page >= 1
    && page.totalItems >= 0
    && page.totalAllItems >= page.totalItems
    && page.totalPages >= 1
    && page.page <= page.totalPages
    && page.totalPages == Max(1, Ceiling(page.totalItems, page.pageSize))
  }

  function Ceiling(n: int, d: int): (q: int)
    requires d > 0
  {
    if n % d == 0 then n / d else n / d + 1
  }

  /** `sortedAndFiltered`. */
  function ClientSorted(items: seq<Item>, mode: Mode): (r: seq<Item>) {
    StableSort(items, Comparator(mode))
  }

  datatype Group = Group(key: GroupKey, items: seq<Item>)

  function IndexOf(groups: seq<Group>, key: GroupKey): (i: nat)
    ensures i <= |groups|
    ensures i < |groups| ==> groups[i].key == key
    ensures forall j :: 0 <= j < i ==> groups[j].key != key
  {
    if groups == [] || groups[0].key == key then 0 else 1 + IndexOf(groups[1..], key)
  }

  /** One step of the grouping: films open a group, seasons join the one of their series. */
  function Grow(groups: seq<Group>, item: Item): (r: seq<Group>) {
    var i := IndexOf(groups, GroupOf(item));
    if item.tv && i < |groups|
    then groups[i := Group(groups[i].key, groups[i].items + [item])]
    else groups + [Group(GroupOf(item), [item])]
  }

  function Grouped(items: seq<Item>): (groups: seq<Group>) {
    if items == [] then [] else Grow(Grouped(items[..|items| - 1]), items[|items| - 1])
  }

  function WithSeasonsSorted(group: Group): (g: Group) {
    if |group.items| > 1 then Group(group.key, StableSort(group.items, SeasonAscending)) else group
  }

  /** `groupSortedItems`. */
  function ClientGroups(items: seq<Item>): (groups: seq<Group>) {
    var groups := Grouped(items);
    seq(|groups|, i requires 0 <= i < |groups| => WithSeasonsSorted(groups[i]))
  }
}
