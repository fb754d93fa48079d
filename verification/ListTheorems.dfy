/**
 The request list: the chain of stable sorts gives one total order, pages
 partition the series, and the browser accepts a page and shows it as sent.
 */
module ListTheorems {
  import opened Wrappers
  import opened Arithmetic
  import opened RequestStatus
  import opened ListPipeline

  // ---- One total order ------------------------------------------------------

  /** The order a list has after some of the sorts. */
  datatype Order = Unordered | ById | By(mode: Mode)

  predicate NewerFirst(a: Item, b: Item) {
    a.createdAt > b.createdAt || (a.createdAt == b.createdAt && a.id >= b.id)
  }

  /** The total order of a mode: its key, then creation time, then id. */
  predicate Precedes(order: Order, a: Item, b: Item) {
    match order
    case Unordered => true
    case ById => a.id >= b.id
    case By(mode) =>
      match mode
      case Newest => NewerFirst(a, b)
      case Oldest => a.createdAt < b.createdAt || (a.createdAt == b.createdAt && a.id <= b.id)
      case LikesDesc => a.likes > b.likes || (a.likes == b.likes && NewerFirst(a, b))
      case LikesAsc => a.likes < b.likes || (a.likes == b.likes && NewerFirst(a, b))
      case ByStatus =>
        || StatusRank(a.status) < StatusRank(b.status)
        || (StatusRank(a.status) == StatusRank(b.status) && NewerFirst(a, b))
  }

  predicate Sorted(items: seq<Item>, order: Order) {
    forall i, j :: 0 <= i < j < |items| ==> Precedes(order, items[i], items[j])
  }

  /** `next` is what a stable sort by `key` makes of a list ordered by `order`. */
  predicate Refines(order: Order, key: Key, next: Order) {
    match (order, key, next)
    case (Unordered, IdDescending, ById) => true
    case (ById, CreatedDescending, By(Newest)) => true
    case (By(Newest), CreatedThenId, By(Oldest)) => true
    case (By(Newest), LikesDescending, By(LikesDesc)) => true
    case (By(Newest), LikesAscending, By(LikesAsc)) => true
    case (By(Newest), StatusAscending, By(ByStatus)) => true
    case _ => false
  }

  lemma RefinedOrder(order: Order, key: Key, next: Order, a: Item, b: Item)
    requires Refines(order, key, next)
    ensures Precedes(next, a, b) <==> Leq(key, a, b) && (Leq(key, b, a) ==> Precedes(order, a, b) || next == By(Oldest))
  {
  }

  lemma {:induction false} InsertMembers(x: Item, ys: seq<Item>, key: Key, y: Item)
    ensures y in Insert(x, ys, key) <==> y == x || y in ys
  {
    assert y in Insert(x, ys, key) <==> y in multiset(Insert(x, ys, key));
    assert y in ys <==> y in multiset(ys);
  }

  lemma SortMembers(items: seq<Item>, key: Key, y: Item)
    ensures y in StableSort(items, key) <==> y in items
  {
    assert y in StableSort(items, key) <==> y in multiset(StableSort(items, key));
    assert y in items <==> y in multiset(items);
  }

  lemma {:induction false} InsertRefines(x: Item, ys: seq<Item>, order: Order, key: Key, next: Order)
    requires Refines(order, key, next) && Sorted(ys, next)
    requires forall y :: y in ys ==> Precedes(order, x, y)
    ensures Sorted(Insert(x, ys, key), next)
  {
    if ys != [] {
      var r := Insert(x, ys, key);
      if Leq(key, x, ys[0]) {
        forall y | y in ys ensures Precedes(next, x, y) {
          RefinedOrder(order, key, next, x, y);
          RefinedOrder(order, key, next, ys[0], y);
        }
      } else {
        InsertRefines(x, ys[1..], order, key, next);
        forall i | 0 < i < |r| ensures Precedes(next, r[0], r[i]) {
          InsertMembers(x, ys[1..], key, r[i]);
          assert r[i] in Insert(x, ys[1..], key);
          RefinedOrder(order, key, next, ys[0], x);
        }
        assert r[1..] == Insert(x, ys[1..], key);
        forall i, j | 0 <= i < j < |r| ensures Precedes(next, r[i], r[j]) {
          if i > 0 {
            assert r[i] == r[1..][i - 1] && r[j] == r[1..][j - 1];
          }
        }
      }
    }
  }

  /** A stable sort refines the order it finds. */
  lemma {:induction false} SortRefines(items: seq<Item>, order: Order, key: Key, next: Order)
    requires Refines(order, key, next) && Sorted(items, order)
    ensures Sorted(StableSort(items, key), next)
  {
    if items != [] {
      SortRefines(items[1..], order, key, next);
      forall y | y in StableSort(items[1..], key) ensures Precedes(order, items[0], y) {
        SortMembers(items[1..], key, y);
        var j :| 0 <= j < |items[1..]| && items[1..][j] == y;
        assert items[j + 1] == y;
      }
      InsertRefines(items[0], StableSort(items[1..], key), order, key, next);
    }
  }

  lemma ServerSortIsSorted(items: seq<Item>, mode: Mode)
    ensures Sorted(ServerSorted(items, mode), By(mode))
    ensures multiset(ServerSorted(items, mode)) == multiset(items)
  {
    var byId := StableSort(items, IdDescending);
    var byCreation := StableSort(byId, CreatedDescending);
    SortRefines(items, Unordered, IdDescending, ById);
    SortRefines(byId, ById, CreatedDescending, By(Newest));
    match mode {
      case Newest =>
      case Oldest => SortRefines(byCreation, By(Newest), CreatedThenId, By(Oldest));
      case LikesDesc => SortRefines(byCreation, By(Newest), LikesDescending, By(LikesDesc));
      case LikesAsc => SortRefines(byCreation, By(Newest), LikesAscending, By(LikesAsc));
      case ByStatus => SortRefines(byCreation, By(Newest), StatusAscending, By(ByStatus));
    }
  }

  predicate DistinctIds(items: seq<Item>) {
    forall a, b :: a in items && b in items && a.id == b.id ==> a == b
  }

  lemma FirstPrecedes(p: seq<Item>, mode: Mode, item: Item)
    requires Sorted(p, By(mode)) && item in p
    ensures item == p[0] || Precedes(By(mode), p[0], item)
  {
    var i :| 0 <= i < |p| && p[i] == item;
  }

  lemma MutualIsSame(mode: Mode, a: Item, b: Item)
    requires Precedes(By(mode), a, b) && Precedes(By(mode), b, a)
    ensures a.id == b.id
  {
  }

  lemma HeadsAgree(p: seq<Item>, q: seq<Item>, mode: Mode)
    requires p != [] && q != [] && Sorted(p, By(mode)) && Sorted(q, By(mode))
    requires multiset(p) == multiset(q) && DistinctIds(p)
    ensures p[0] == q[0]
  {
    assert p[0] in multiset(p) && q[0] in multiset(q);
    assert p[0] in q && q[0] in p;
    FirstPrecedes(p, mode, q[0]);
    FirstPrecedes(q, mode, p[0]);
    if p[0] != q[0] {
      MutualIsSame(mode, p[0], q[0]);
    }
  }

  lemma TailsAgree(p: seq<Item>, q: seq<Item>)
    requires p != [] && q != [] && p[0] == q[0] && multiset(p) == multiset(q)
    ensures multiset(p[1..]) == multiset(q[1..])
  {
    assert p == [p[0]] + p[1..] && q == [q[0]] + q[1..];
    assert multiset(p[1..]) == multiset(p) - multiset{p[0]};
    assert multiset(q[1..]) == multiset(q) - multiset{q[0]};
  }

  lemma TailIsSorted(p: seq<Item>, mode: Mode)
    requires p != [] && Sorted(p, By(mode))
    ensures Sorted(p[1..], By(mode)) && (DistinctIds(p) ==> DistinctIds(p[1..]))
  {
  }

  /** Two lists of the same items, both ordered by one mode, are the same list. */
  lemma {:induction false} SortedIsUnique(p: seq<Item>, q: seq<Item>, mode: Mode)
    requires Sorted(p, By(mode)) && Sorted(q, By(mode)) && multiset(p) == multiset(q) && DistinctIds(p)
    ensures p == q
    decreases |p|
  {
    assert |p| == |multiset(p)| == |multiset(q)| == |q|;
    if p != [] {
      HeadsAgree(p, q, mode);
      TailsAgree(p, q);
      TailIsSorted(p, mode);
      TailIsSorted(q, mode);
      SortedIsUnique(p[1..], q[1..], mode);
      assert p == [p[0]] + p[1..];
      assert q == [q[0]] + q[1..];
    }
  }

  /** Whatever the input order, the successive stable sorts give the one permutation
      of the items ordered by the mode's key, then creation time, then id. */
  lemma SortsGiveTheTotalOrder(items: seq<Item>, mode: Mode, ordered: seq<Item>)
    requires DistinctIds(items)
    ensures Sorted(ServerSorted(items, mode), By(mode)) && multiset(ServerSorted(items, mode)) == multiset(items)
    ensures multiset(ordered) == multiset(items) && Sorted(ordered, By(mode)) <==> ordered == ServerSorted(items, mode)
  {
    ServerSortIsSorted(items, mode);
    if multiset(ordered) == multiset(items) && Sorted(ordered, By(mode)) {
      forall a, b | a in ordered && b in ordered && a.id == b.id ensures a == b {
        assert a in multiset(ordered) && b in multiset(ordered);
        assert a in multiset(items) && b in multiset(items);
      }
      SortedIsUnique(ordered, ServerSorted(items, mode), mode);
    }
  }

  // ---- Pages ----------------------------------------------------------------

  lemma {:induction false} FirstKeysList(items: seq<Item>)
    ensures forall key :: key in FirstKeys(items) <==> exists item :: item in items && GroupOf(item) == key
    ensures forall i, j :: 0 <= i < j < |FirstKeys(items)| ==> FirstKeys(items)[i] != FirstKeys(items)[j]
  {
    if items != [] {
      var front, last := items[..|items| - 1], items[|items| - 1];
      FirstKeysList(front);
      assert items == front + [last];
      forall key ensures key in FirstKeys(items) <==> exists item :: item in items && GroupOf(item) == key {
        if key in FirstKeys(items) {
          if key in FirstKeys(front) {
            var item :| item in front && GroupOf(item) == key;
            assert item in items;
          } else {
            assert last in items && GroupOf(last) == key;
          }
        }
        if item :| item in items && GroupOf(item) == key {
          assert item in front || item == last;
        }
      }
    }
  }

  lemma {:induction false} RestrictLists(items: seq<Item>, keys: set<GroupKey>)
    ensures forall item :: item in Restrict(items, keys) <==> item in items && GroupOf(item) in keys
  {
    if items != [] {
      RestrictLists(items[..|items| - 1], keys);
      assert items == items[..|items| - 1] + [items[|items| - 1]];
    }
  }

  /** The groups of page `current` of a list. */
  function GroupsOnPage(items: seq<Item>, current: nat, size: nat): (keys: seq<GroupKey>)
    requires current >= 1
  {
    Slice(FirstKeys(items), current, size)
  }

  function ItemsOnPage(items: seq<Item>, current: nat, size: nat): (r: seq<Item>)
    requires current >= 1
  {
    Restrict(items, AsSet(GroupsOnPage(items, current, size)))
  }

  function PagesOf(items: seq<Item>, size: nat): (pages: nat)
    requires size > 0
    ensures pages >= 1
  {
    TotalPages(|FirstKeys(items)|, size)
  }

  /** The page of a group, from its position. */
  lemma SliceHolds(keys: seq<GroupKey>, i: nat, current: nat, size: nat)
    requires forall a, b :: 0 <= a < b < |keys| ==> keys[a] != keys[b]
    requires i < |keys| && size > 0 && current >= 1
    ensures keys[i] in Slice(keys, current, size) <==> current == i / size + 1
  {
    var start := (current - 1) * size;
    var slice := Slice(keys, current, size);
    assert start >= 0;
    assert keys[i] in slice <==> start <= i < start + size by {
      if keys[i] in slice {
        var k :| 0 <= k < |slice| && slice[k] == keys[i];
        assert slice[k] == keys[start + k];
      }
      if start <= i < start + size {
        assert slice[i - start] == keys[i];
      }
    }
    Quotient(i, size, current - 1);
  }

  lemma MultiplesGrow(a: nat, b: nat, size: nat)
    requires a < b
    ensures a * size + size <= b * size
  {
    var c := b - a - 1;
    assert b * size == (a + 1 + c) * size == (a + 1) * size + c * size;
    assert (a + 1) * size == a * size + size;
  }

  lemma Quotient(i: nat, size: nat, q: nat)
    requires size > 0
    ensures q * size <= i < q * size + size <==> q == i / size
  {
    var d, r := i / size, i % size;
    assert i == d * size + r;
    if q < d {
      MultiplesGrow(q, d, size);
    } else if q > d {
      MultiplesGrow(d, q, size);
    }
  }

  lemma PageCount(groups: nat, size: nat)
    requires size > 0
    ensures groups > 0 ==> (TotalPages(groups, size) - 1) * size < groups <= TotalPages(groups, size) * size
    ensures groups == 0 ==> TotalPages(groups, size) == 1
  {
    if groups > 0 {
      var d := (groups - 1) / size;
      Quotient(groups - 1, size, d);
      assert (d + 1) * size == d * size + size;
      Quotient(groups + size - 1, size, d + 1);
    } else {
      Quotient(size - 1, size, 0);
    }
  }

  lemma PositionHasPage(groups: nat, i: nat, size: nat)
    requires size > 0 && i < groups
    ensures 1 <= i / size + 1 <= TotalPages(groups, size)
  {
    var pages := TotalPages(groups, size);
    Quotient(i, size, i / size);
    PageCount(groups, size);
    assert (pages - 1) * size + size == pages * size;
    if i / size + 1 > pages {
      MultiplesGrow(pages - 1, i / size, size);
    }
  }

  lemma ItemIsOnPage(items: seq<Item>, i: nat, item: Item, page: nat, size: nat)
    requires size > 0 && page >= 1 && item in items
    requires i < |FirstKeys(items)| && FirstKeys(items)[i] == GroupOf(item)
    ensures item in ItemsOnPage(items, page, size) <==> page == i / size + 1
  {
    FirstKeysList(items);
    SliceHolds(FirstKeys(items), i, page, size);
    RestrictLists(items, AsSet(GroupsOnPage(items, page, size)));
  }

  lemma GroupPosition(items: seq<Item>, item: Item) returns (i: nat)
    requires item in items
    ensures i < |FirstKeys(items)| && FirstKeys(items)[i] == GroupOf(item)
  {
    FirstKeysList(items);
    assert GroupOf(item) in FirstKeys(items);
    i :| 0 <= i < |FirstKeys(items)| && FirstKeys(items)[i] == GroupOf(item);
  }

  /** Pages 1..total partition the list: every item is on exactly one page, with all
      items of its series. */
  lemma PagesPartition(items: seq<Item>, size: nat, item: Item) returns (page: nat)
    requires size > 0 && item in items
    ensures 1 <= page <= PagesOf(items, size)
    ensures forall p :: 1 <= p <= PagesOf(items, size) ==> (item in ItemsOnPage(items, p, size) <==> p == page)
    ensures forall other | other in items && GroupOf(other) == GroupOf(item) ::
      other in ItemsOnPage(items, page, size)
  {
    var i := GroupPosition(items, item);
    page := i / size + 1;
    PositionHasPage(|FirstKeys(items)|, i, size);
    forall p | 1 <= p <= PagesOf(items, size)
      ensures item in ItemsOnPage(items, p, size) <==> p == page
    {
      ItemIsOnPage(items, i, item, p, size);
    }
    forall other | other in items && GroupOf(other) == GroupOf(item)
      ensures other in ItemsOnPage(items, page, size)
    {
      ItemIsOnPage(items, i, other, page, size);
    }
  }

  /** Where a page begins and ends, counted in groups. */
  lemma PageReach(groups: nat, size: nat, page: nat)
    requires size > 0 && 1 <= page <= TotalPages(groups, size)
    ensures page < TotalPages(groups, size) ==> (page - 1) * size + size <= groups
    ensures groups > 0 ==> 0 <= (page - 1) * size < groups
  {
    var pages := TotalPages(groups, size);
    PageCount(groups, size);
    if groups > 0 {
      if page < pages {
        MultiplesGrow(page - 1, pages - 1, size);
      }
      assert (page - 1) * size >= 0;
    }
  }

  /** Every page but the last holds exactly `size` groups, the last at least one. */
  lemma PageSizes(items: seq<Item>, size: nat, page: nat)
    requires size > 0 && 1 <= page <= PagesOf(items, size)
    ensures page < PagesOf(items, size) ==> |GroupsOnPage(items, page, size)| == size
    ensures |GroupsOnPage(items, page, size)| <= size
    ensures items != [] ==> |GroupsOnPage(items, page, size)| > 0
  {
    hide TotalPages;
    PageReach(|FirstKeys(items)|, size, page);
    if items != [] {
      FirstKeysList(items);
      assert items[0] in items && GroupOf(items[0]) in FirstKeys(items);
    }
  }

  /** The page shown for a requested one: itself, or the nearest of 1..pages. */
  predicate Clamped(requested: int, shown: int, pages: int) {
    && 1 <= shown <= pages
    && (1 <= requested <= pages ==> shown == requested)
    && (requested < 1 ==> shown == 1)
    && (requested > pages ==> shown == pages)
  }

  // ---- The browser ----------------------------------------------------------

  /** Rows of one table: ids are distinct and no row occurs twice. */
  ghost predicate Rows(items: seq<Item>) {
    DistinctIds(items) && forall item :: item in items ==> multiset(items)[item] == 1
  }

  lemma PermutedRows(items: seq<Item>, other: seq<Item>)
    requires Rows(items) && multiset(other) <= multiset(items)
    ensures Rows(other)
  {
    forall item | item in other ensures item in items && multiset(other)[item] == 1 {
      assert item in multiset(other);
      assert item in multiset(items);
    }
  }

  lemma {:induction false} RestrictIsPart(items: seq<Item>, keys: set<GroupKey>)
    ensures multiset(Restrict(items, keys)) <= multiset(items)
  {
    if items != [] {
      RestrictIsPart(items[..|items| - 1], keys);
      assert items == items[..|items| - 1] + [items[|items| - 1]];
    }
  }

  lemma {:induction false} FilteredIsPart(items: seq<Item>, filter: Option<Status>)
    ensures multiset(Filtered(items, filter)) <= multiset(items)
  {
    if items != [] {
      FilteredIsPart(items[..|items| - 1], filter);
      assert items == items[..|items| - 1] + [items[|items| - 1]];
    }
  }

  predicate SortedBy(items: seq<Item>, key: Key) {
    forall i, j :: 0 <= i < j < |items| ==> Leq(key, items[i], items[j])
  }

  lemma InsertInFront(x: Item, ys: seq<Item>, key: Key)
    requires ys != [] ==> Leq(key, x, ys[0])
    ensures Insert(x, ys, key) == [x] + ys
  {
  }

  /** Sorting a sorted list changes nothing. */
  lemma {:induction false} SortOfSorted(items: seq<Item>, key: Key)
    requires SortedBy(items, key)
    ensures StableSort(items, key) == items
  {
    if items != [] {
      var rest := items[1..];
      hide Leq, Insert;
      forall i, j | 0 <= i < j < |rest| ensures Leq(key, rest[i], rest[j]) {
        assert rest[i] == items[i + 1] && rest[j] == items[j + 1];
      }
      SortOfSorted(rest, key);
      assert rest != [] ==> rest[0] == items[1];
      InsertInFront(items[0], rest, key);
      assert items == [items[0]] + rest;
    }
  }

  lemma {:induction false} RestrictKeepsOrder(items: seq<Item>, keys: set<GroupKey>, order: Order)
    requires Sorted(items, order)
    ensures Sorted(Restrict(items, keys), order)
  {
    if items != [] {
      var front, last := items[..|items| - 1], items[|items| - 1];
      RestrictKeepsOrder(front, keys, order);
      RestrictLists(front, keys);
      var r := Restrict(front, keys);
      forall i | 0 <= i < |r| ensures Precedes(order, r[i], last) {
        assert r[i] in front;
        var k :| 0 <= k < |front| && front[k] == r[i];
        assert items[k] == r[i];
      }
    }
  }

  lemma PrecedesPasses(mode: Mode, a: Item, b: Item)
    requires Precedes(By(mode), a, b)
    ensures Leq(Comparator(mode), a, b)
  {
  }

  /** The browser's comparator never wants to swap what the server ordered. */
  lemma ResortIsIdentity(items: seq<Item>, mode: Mode)
    requires Sorted(items, By(mode))
    ensures ClientSorted(items, mode) == items
  {
    hide Leq, Precedes, StableSort;
    forall i, j | 0 <= i < j < |items| ensures Leq(Comparator(mode), items[i], items[j]) {
      PrecedesPasses(mode, items[i], items[j]);
    }
    SortOfSorted(items, Comparator(mode));
  }

  /** The keys of `keys` that are in `chosen`, in order. */
  function Chosen(keys: seq<GroupKey>, chosen: set<GroupKey>): (r: seq<GroupKey>) {
    if keys == [] then []
    else
      var r := Chosen(keys[..|keys| - 1], chosen);
      if keys[|keys| - 1] in chosen then r + [keys[|keys| - 1]] else r
  }

  lemma {:induction false} ChosenLists(keys: seq<GroupKey>, chosen: set<GroupKey>)
    ensures forall key :: key in Chosen(keys, chosen) <==> key in keys && key in chosen
  {
    if keys != [] {
      ChosenLists(keys[..|keys| - 1], chosen);
      assert keys == keys[..|keys| - 1] + [keys[|keys| - 1]];
    }
  }

  lemma {:induction false} KeysOfRestricted(items: seq<Item>, chosen: set<GroupKey>)
    ensures FirstKeys(Restrict(items, chosen)) == Chosen(FirstKeys(items), chosen)
  {
    if items != [] {
      var front, last := items[..|items| - 1], items[|items| - 1];
      var key := GroupOf(last);
      KeysOfRestricted(front, chosen);
      ChosenLists(FirstKeys(front), chosen);
      var r := Restrict(front, chosen);
      if key in chosen {
        assert (r + [last])[..|r|] == r;
        if key !in FirstKeys(front) {
          assert (FirstKeys(front) + [key])[..|FirstKeys(front)|] == FirstKeys(front);
        }
      } else if key !in FirstKeys(front) {
        assert (FirstKeys(front) + [key])[..|FirstKeys(front)|] == FirstKeys(front);
      }
    }
  }

  lemma KeyInWindow(keys: seq<GroupKey>, low: nat, high: nat, i: nat)
    requires low <= high <= |keys| && i < |keys|
    requires forall i, j :: 0 <= i < j < |keys| ==> keys[i] != keys[j]
    ensures keys[i] in AsSet(keys[low..high]) <==> low <= i < high
  {
    var window := keys[low..high];
    if low <= i < high {
      assert window[i - low] == keys[i];
    }
    if keys[i] in window {
      var k :| 0 <= k < |window| && window[k] == keys[i];
      assert keys[low + k] == keys[i];
    }
  }

  lemma ChosenBehind(keys: seq<GroupKey>, key: GroupKey, chosen: set<GroupKey>)
    ensures Chosen(keys + [key], chosen) == if key in chosen then Chosen(keys, chosen) + [key] else Chosen(keys, chosen)
  {
    assert (keys + [key])[..|keys|] == keys;
  }

  lemma {:induction false} ChosenSum(left: seq<GroupKey>, right: seq<GroupKey>, chosen: set<GroupKey>)
    ensures Chosen(left + right, chosen) == Chosen(left, chosen) + Chosen(right, chosen)
  {
    if right == [] {
      assert left + right == left;
    } else {
      var front, last := right[..|right| - 1], right[|right| - 1];
      ChosenSum(left, front, chosen);
      ChosenBehind(left + front, last, chosen);
      assert left + right == (left + front) + [last];
    }
  }

  lemma {:induction false} ChosenNone(keys: seq<GroupKey>, chosen: set<GroupKey>)
    requires forall i :: 0 <= i < |keys| ==> keys[i] !in chosen
    ensures Chosen(keys, chosen) == []
  {
    if keys != [] {
      ChosenNone(keys[..|keys| - 1], chosen);
    }
  }

  lemma {:induction false} ChosenAll(keys: seq<GroupKey>, chosen: set<GroupKey>)
    requires forall i :: 0 <= i < |keys| ==> keys[i] in chosen
    ensures Chosen(keys, chosen) == keys
  {
    if keys != [] {
      ChosenAll(keys[..|keys| - 1], chosen);
      assert keys == keys[..|keys| - 1] + [keys[|keys| - 1]];
    }
  }

  predicate NoRepeats(keys: seq<GroupKey>) {
    forall i, j :: 0 <= i < j < |keys| ==> keys[i] != keys[j]
  }

  lemma NoneBefore(keys: seq<GroupKey>, low: nat, high: nat)
    requires low <= high <= |keys| && NoRepeats(keys)
    ensures Chosen(keys[..low], AsSet(keys[low..high])) == []
  {
    var before := keys[..low];
    forall i | 0 <= i < low ensures before[i] !in AsSet(keys[low..high]) {
      KeyInWindow(keys, low, high, i);
    }
    ChosenNone(before, AsSet(keys[low..high]));
  }

  lemma AllWithin(keys: seq<GroupKey>, low: nat, high: nat)
    requires low <= high <= |keys| && NoRepeats(keys)
    ensures Chosen(keys[low..high], AsSet(keys[low..high])) == keys[low..high]
  {
    ChosenAll(keys[low..high], AsSet(keys[low..high]));
  }

  lemma NoneAfter(keys: seq<GroupKey>, low: nat, high: nat)
    requires low <= high <= |keys| && NoRepeats(keys)
    ensures Chosen(keys[high..], AsSet(keys[low..high])) == []
  {
    var after := keys[high..];
    forall i | 0 <= i < |after| ensures after[i] !in AsSet(keys[low..high]) {
      KeyInWindow(keys, low, high, high + i);
    }
    ChosenNone(after, AsSet(keys[low..high]));
  }

  lemma Concatenated(keys: seq<GroupKey>)
    ensures [] + (keys + []) == keys
  {
  }

  /** Choosing a stretch of distinct keys gives that stretch. */
  lemma ChosenStretch(keys: seq<GroupKey>, low: nat, high: nat)
    requires low <= high <= |keys|
    requires forall i, j :: 0 <= i < j < |keys| ==> keys[i] != keys[j]
    ensures Chosen(keys, AsSet(keys[low..high])) == keys[low..high]
  {
    var chosen := AsSet(keys[low..high]);
    hide Chosen, AsSet;
    NoneBefore(keys, low, high);
    AllWithin(keys, low, high);
    NoneAfter(keys, low, high);
    ChosenSum(keys[..low], keys[low..high] + keys[high..], chosen);
    ChosenSum(keys[low..high], keys[high..], chosen);
    ThreeParts(keys, low, high);
    Concatenated(keys[low..high]);
  }

  /** The groups of a list: each key with all its items, in order. */
  function GroupList(items: seq<Item>, keys: seq<GroupKey>): (groups: seq<Group>) {
    seq(|keys|, i requires 0 <= i < |keys| => Group(keys[i], Restrict(items, {keys[i]})))
  }

  lemma RowsFront(items: seq<Item>)
    requires Rows(items) && items != []
    ensures Rows(items[..|items| - 1]) && items[|items| - 1] !in items[..|items| - 1]
    ensures !items[|items| - 1].tv ==> GroupOf(items[|items| - 1]) !in FirstKeys(items[..|items| - 1])
  {
    var front, last := items[..|items| - 1], items[|items| - 1];
    assert items == front + [last];
    assert multiset(items) == multiset(front) + multiset{last};
    PermutedRows(items, front);
    assert last !in front by {
      assert last in items && multiset(items)[last] == 1;
      assert last in front ==> last in multiset(front);
    }
    FirstKeysList(front);
    if !last.tv {
      forall item | item in front ensures GroupOf(item) != GroupOf(last) {
        assert item in items && last in items;
      }
    }
  }

  lemma {:induction false} RestrictToMissing(items: seq<Item>, key: GroupKey)
    requires key !in FirstKeys(items)
    ensures Restrict(items, {key}) == []
  {
    if items != [] {
      RestrictToMissing(items[..|items| - 1], key);
    }
  }

  lemma IndexInGroupList(items: seq<Item>, keys: seq<GroupKey>, key: GroupKey)
    ensures IndexOf(GroupList(items, keys), key) < |keys| <==> key in keys
    ensures key in keys ==> keys[IndexOf(GroupList(items, keys), key)] == key
  {
    var groups := GroupList(items, keys);
    if key in keys {
      var i :| 0 <= i < |keys| && keys[i] == key;
      assert groups[i].key == key;
    }
  }

  lemma {:induction false} GroupedIsGroupList(items: seq<Item>)
    requires Rows(items)
    ensures Grouped(items) == GroupList(items, FirstKeys(items))
  {
    if items != [] {
      var front, last := items[..|items| - 1], items[|items| - 1];
      var keys, key := FirstKeys(front), GroupOf(last);
      RowsFront(items);
      GroupedIsGroupList(front);
      IndexInGroupList(front, keys, key);
      FirstKeysList(front);
      if key !in keys {
        RestrictToMissing(front, key);
      }
      var groups := Grow(GroupList(front, keys), last);
      var expected := GroupList(items, FirstKeys(items));
      assert |groups| == |expected|;
      forall i | 0 <= i < |groups| ensures groups[i] == expected[i] {
      }
    }
  }

  /** The keys of the browser order any two rows. */
  predicate TotalKey(key: Key) {
    key.Comparator? || key.SeasonAscending?
  }

  lemma {:induction false} InsertOrders(x: Item, ys: seq<Item>, key: Key)
    requires TotalKey(key) && SortedBy(ys, key)
    ensures SortedBy(Insert(x, ys, key), key)
  {
    if ys != [] {
      if Leq(key, x, ys[0]) {
        forall y | y in ys ensures Leq(key, x, y) {
          var i :| 0 <= i < |ys| && ys[i] == y;
          LeqComposes(key, x, ys[0], y);
        }
      } else {
        InsertOrders(x, ys[1..], key);
        var r := Insert(x, ys[1..], key);
        forall y | y in r ensures Leq(key, ys[0], y) {
          InsertMembers(x, ys[1..], key, y);
          LeqIsTotal(key, x, ys[0]);
        }
        hide Leq;
        SortedBehind(ys[0], r, key);
      }
    }
  }

  lemma SortedBehind(x: Item, r: seq<Item>, key: Key)
    requires SortedBy(r, key) && forall y | y in r :: Leq(key, x, y)
    ensures SortedBy([x] + r, key)
  {
  }

  lemma LeqComposes(key: Key, a: Item, b: Item, c: Item)
    requires TotalKey(key) && Leq(key, a, b) && (b == c || Leq(key, b, c))
    ensures Leq(key, a, c)
  {
  }

  lemma LeqIsTotal(key: Key, a: Item, b: Item)
    requires TotalKey(key) && !Leq(key, a, b)
    ensures Leq(key, b, a)
  {
  }

  /** A sort by such a key orders any list. */
  lemma {:induction false} SortOrders(items: seq<Item>, key: Key)
    requires TotalKey(key)
    ensures SortedBy(StableSort(items, key), key)
  {
    if items != [] {
      SortOrders(items[1..], key);
      InsertOrders(items[0], StableSort(items[1..], key), key);
    }
  }

  /** What the browser shows of a list: each series with its seasons in order. */
  lemma ClientGroupsAre(items: seq<Item>, i: nat)
    requires Rows(items) && i < |FirstKeys(items)|
    ensures |ClientGroups(items)| == |FirstKeys(items)|
    ensures var group := ClientGroups(items)[i];
      && group.key == FirstKeys(items)[i]
      && multiset(group.items) == multiset(Restrict(items, {group.key}))
      && SortedBy(group.items, SeasonAscending)
  {
    GroupedIsGroupList(items);
    SortOrders(Restrict(items, {FirstKeys(items)[i]}), SeasonAscending);
  }

  // ---- Both sides together --------------------------------------------------

  lemma {:induction false} RestrictTwice(items: seq<Item>, keys: set<GroupKey>, key: GroupKey)
    requires key in keys
    ensures Restrict(Restrict(items, keys), {key}) == Restrict(items, {key})
  {
    if items != [] {
      var front, last := items[..|items| - 1], items[|items| - 1];
      RestrictTwice(front, keys, key);
      if GroupOf(last) in keys {
        assert (Restrict(front, keys) + [last])[..|Restrict(front, keys)|] == Restrict(front, keys);
      }
    }
  }

  lemma CeilingIsTotalPages(n: nat, d: nat)
    requires d > 0
    ensures TotalPages(n, d) == Max(1, Ceiling(n, d))
  {
    var q := n / d;
    DivisionLeaves(n, d);
    if n % d == 0 {
      Quotient(n + d - 1, d, q);
    } else {
      NextMultiple(q, d);
      Quotient(n + d - 1, d, q + 1);
    }
  }

  lemma DivisionLeaves(n: nat, d: nat)
    requires d > 0
    ensures n == n / d * d + n % d && 0 <= n % d < d
  {
  }

  lemma NextMultiple(q: nat, d: nat)
    ensures (q + 1) * d == q * d + d
  {
  }

  lemma {:induction false} DistinctKeysCount(keys: seq<GroupKey>)
    requires forall i, j :: 0 <= i < j < |keys| ==> keys[i] != keys[j]
    ensures |AsSet(keys)| == |keys|
  {
    if keys != [] {
      var front, last := keys[..|keys| - 1], keys[|keys| - 1];
      DistinctKeysCount(front);
      assert keys == front + [last];
      assert AsSet(keys) == AsSet(front) + {last};
    }
  }

  lemma PartHasFewerGroups(items: seq<Item>, rows: seq<Item>)
    requires multiset(items) <= multiset(rows)
    ensures |FirstKeys(items)| <= |AsSet(FirstKeys(rows))|
  {
    FirstKeysList(items);
    FirstKeysList(rows);
    forall key | key in AsSet(FirstKeys(items)) ensures key in AsSet(FirstKeys(rows)) {
      var item :| item in items && GroupOf(item) == key;
      assert item in multiset(items);
      assert item in rows;
    }
    DistinctKeysCount(FirstKeys(items));
    SubsetIsSmaller(AsSet(FirstKeys(items)), AsSet(FirstKeys(rows)));
  }

  /** Every page the server sends passes the browser's validation. */
  lemma PagesPassValidation(rows: seq<Item>, page: int, size: nat, mode: Mode, filter: Option<Status>)
    requires size in {25, 50, 100}
    ensures PassesValidation(Paginated(rows, page, size, mode, filter).value)
  {
    var items := ServerSorted(Filtered(rows, filter), mode);
    ServerSortIsSorted(Filtered(rows, filter), mode);
    FilteredIsPart(rows, filter);
    PartHasFewerGroups(items, rows);
    CeilingIsTotalPages(|FirstKeys(items)|, size);
  }

  /** The browser re-sorts a page to itself and groups it into exactly the groups the
      server put on it, in the same order, each with all its items. */
  lemma BrowserShowsThePage(rows: seq<Item>, page: int, size: nat, mode: Mode, filter: Option<Status>, i: nat)
    requires Rows(rows) && size in {25, 50, 100}
    ensures var items := ServerSorted(Filtered(rows, filter), mode);
      var sent := Paginated(rows, page, size, mode, filter).value;
      var slice := GroupsOnPage(items, sent.page, size);
      && ClientSorted(sent.items, mode) == sent.items
      && |ClientGroups(ClientSorted(sent.items, mode))| == |slice|
      && (i < |slice| ==>
           var group := ClientGroups(ClientSorted(sent.items, mode))[i];
           && group.key == slice[i]
           && multiset(group.items) == multiset(Restrict(items, {slice[i]}))
           && SortedBy(group.items, SeasonAscending))
  {
    var items := ServerSorted(Filtered(rows, filter), mode);
    var sent := Paginated(rows, page, size, mode, filter).value;
    var slice := GroupsOnPage(items, sent.page, size);
    ServerSortIsSorted(Filtered(rows, filter), mode);
    RestrictKeepsOrder(items, AsSet(slice), By(mode));
    ResortIsIdentity(sent.items, mode);
    FilteredIsPart(rows, filter);
    RestrictIsPart(items, AsSet(slice));
    PermutedRows(rows, sent.items);
    SentKeys(items, sent.page, size);
    GroupedIsGroupList(sent.items);
    if i < |slice| {
      ClientGroupsAre(sent.items, i);
      RestrictTwice(items, AsSet(slice), slice[i]);
    }
  }

  lemma SentKeys(items: seq<Item>, current: nat, size: nat)
    requires current >= 1
    ensures FirstKeys(ItemsOnPage(items, current, size)) == GroupsOnPage(items, current, size)
  {
    var keys := FirstKeys(items);
    FirstKeysList(items);
    KeysOfRestricted(items, AsSet(GroupsOnPage(items, current, size)));
    assert 0 <= (current - 1) * size;
    var start := Min((current - 1) * size, |keys|);
    ChosenStretch(keys, start, Min(start + size, |keys|));
  }
}
