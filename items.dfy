/** The list logic behind the store's operations: the lookups (findIndex, find),
    the removal filter, the placement done by addItem, the item it builds, and
    the shallow merge done by updateItem. Every function here is pure; the
    store in store.dfy applies them to its own state. */
module ItemList {
  import opened MatrixTypes
  import opened ItemIds

  /** What a lookup or a filter compares an item against: its id, or its
      whole coordinate (both shelf and compartment). */
  datatype Selector = WithId(id: string) | AtLocation(loc: Location)

  predicate Selects(sel: Selector, x: ShelfItem) {
    match sel
    case WithId(id) => x.id == id
    case AtLocation(loc) => x.location == loc
  }

  /** No two items share a coordinate. */
  predicate UniqueLocations(items: seq<ShelfItem>) {
    forall i, j :: 0 <= i < j < |items| ==> items[i].location != items[j].location
  }

  // ---------------------------------------------------------------- lookups

  /** The index of the first selected item, as findIndex gives it (None for -1). */
  function FirstMatch(items: seq<ShelfItem>, sel: Selector): (r: Option<nat>)
    ensures r.Some? ==> r.value < |items| && Selects(sel, items[r.value])
    ensures r.Some? ==> forall j :: 0 <= j < r.value ==> !Selects(sel, items[j])
    ensures r.None? <==> forall j :: 0 <= j < |items| ==> !Selects(sel, items[j])
  {
    if |items| == 0 then None
    else if Selects(sel, items[0]) then Some(0)
    else match FirstMatch(items[1..], sel)
      case None => None
      case Some(i) => Some(i + 1)
  }

  /** The first selected item in list order, as find gives it (None for null). */
  function Find(items: seq<ShelfItem>, sel: Selector): (r: Option<ShelfItem>)
    ensures r.None? <==> forall x :: x in items ==> !Selects(sel, x)
    ensures r.Some? ==>
      exists i :: 0 <= i < |items| && items[i] == r.value && Selects(sel, items[i]) &&
        forall j :: 0 <= j < i ==> !Selects(sel, items[j])
  {
    match FirstMatch(items, sel)
    case None => None
    case Some(i) => Some(items[i])
  }

  /** Two lists that agree, index by index, on which items are selected have
      the same first match. */
  lemma FirstMatchSamePattern(a: seq<ShelfItem>, b: seq<ShelfItem>, sel: Selector)
    requires |a| == |b|
    requires forall k :: 0 <= k < |a| ==> (Selects(sel, a[k]) <==> Selects(sel, b[k]))
    ensures FirstMatch(a, sel) == FirstMatch(b, sel)
  {
  }

  /** A lookup of the first selected item is determined by any index that is
      selected and has no selected item before it. */
  lemma FirstMatchIs(items: seq<ShelfItem>, sel: Selector, i: nat)
    requires i < |items| && Selects(sel, items[i])
    requires forall j :: 0 <= j < i ==> !Selects(sel, items[j])
    ensures FirstMatch(items, sel) == Some(i)
    ensures Find(items, sel) == Some(items[i])
  {
  }

  // ---------------------------------------------------------------- removal

  /** The items that are NOT selected, in their original order: filter with
      the negated comparison, as removeItem and removeItemByLocation do. */
  function Without(items: seq<ShelfItem>, sel: Selector): (r: seq<ShelfItem>)
    ensures |r| <= |items|
    ensures forall x :: x in r <==> x in items && !Selects(sel, x)
  {
    if |items| == 0 then []
    else
      assert items == [items[0]] + items[1..];
      if Selects(sel, items[0]) then Without(items[1..], sel)
      else [items[0]] + Without(items[1..], sel)
  }

  /** The filter works piecewise: the survivors of a + b are the survivors of
      a followed by the survivors of b. With the singleton cases this fixes the
      result, order included. */
  lemma {:induction false} WithoutConcat(a: seq<ShelfItem>, b: seq<ShelfItem>, sel: Selector)
    ensures Without(a + b, sel) == Without(a, sel) + Without(b, sel)
  {
    if a == [] {
      assert a + b == b;
    } else {
      assert (a + b)[0] == a[0];
      assert (a + b)[1..] == a[1..] + b;
      WithoutConcat(a[1..], b, sel);
    }
  }

  lemma WithoutSingleton(x: ShelfItem, sel: Selector)
    ensures Without([x], sel) == if Selects(sel, x) then [] else [x]
  {
    assert [x][1..] == [];
  }

  /** A filter that matches nothing gives back the list unchanged, and only then. */
  lemma {:induction false} WithoutMiss(items: seq<ShelfItem>, sel: Selector)
    ensures Without(items, sel) == items <==> forall x :: x in items ==> !Selects(sel, x)
  {
    if |items| > 0 {
      WithoutMiss(items[1..], sel);
      if forall x :: x in items ==> !Selects(sel, x) {
        assert forall x :: x in items[1..] ==> x in items;
      }
    }
  }

  /** Removing twice is removing once. */
  lemma WithoutIdempotent(items: seq<ShelfItem>, sel: Selector)
    ensures Without(Without(items, sel), sel) == Without(items, sel)
  {
    WithoutMiss(Without(items, sel), sel);
  }

  /** The number of survivors falls short of the input by the number of
      selected items. */
  lemma {:induction false} WithoutCount(items: seq<ShelfItem>, sel: Selector)
    ensures |Without(items, sel)| + |Matching(items, sel)| == |items|
  {
    if |items| > 0 {
      WithoutCount(items[1..], sel);
    }
  }

  /** The selected items, in order (the complement of Without). */
  function Matching(items: seq<ShelfItem>, sel: Selector): (r: seq<ShelfItem>)
    ensures forall x :: x in r <==> x in items && Selects(sel, x)
  {
    if |items| == 0 then []
    else
      assert items == [items[0]] + items[1..];
      if Selects(sel, items[0]) then [items[0]] + Matching(items[1..], sel)
      else Matching(items[1..], sel)
  }

  /** Removal keeps "one item per coordinate". */
  lemma {:induction false} WithoutKeepsUnique(items: seq<ShelfItem>, sel: Selector)
    requires UniqueLocations(items)
    ensures UniqueLocations(Without(items, sel))
  {
    if |items| > 0 {
      var rest := items[1..];
      assert UniqueLocations(rest) by {
        assert forall k :: 0 <= k < |rest| ==> rest[k] == items[k + 1];
      }
      WithoutKeepsUnique(rest, sel);
      if !Selects(sel, items[0]) {
        var r := Without(items, sel);
        var w := Without(rest, sel);
        assert r == [items[0]] + w;
        forall k | 0 <= k < |w| ensures w[k].location != items[0].location {
          assert w[k] in rest;
          var m :| 0 <= m < |rest| && rest[m] == w[k];
          assert rest[m] == items[m + 1];
        }
      }
    }
  }

  /** With one item per coordinate, a coordinate holds at most one item, so
      removing by coordinate removes at most one. */
  lemma {:induction false} AtMostOneAt(items: seq<ShelfItem>, loc: Location)
    requires UniqueLocations(items)
    ensures |Matching(items, AtLocation(loc))| <= 1
    ensures |Without(items, AtLocation(loc))| >= |items| - 1
  {
    WithoutCount(items, AtLocation(loc));
    if |items| > 0 {
      var rest := items[1..];
      assert UniqueLocations(rest) by {
        assert forall k :: 0 <= k < |rest| ==> rest[k] == items[k + 1];
      }
      AtMostOneAt(rest, loc);
      if items[0].location == loc {
        assert forall k :: 0 <= k < |rest| ==> rest[k].location != loc by {
          assert forall k :: 0 <= k < |rest| ==> rest[k] == items[k + 1];
        }
        assert forall x :: x in rest ==> x.location != loc;
        WithoutMiss(rest, AtLocation(loc));
        WithoutCount(rest, AtLocation(loc));
      }
    }
  }

  // ---------------------------------------------------------------- addItem

  const Uncategorized: string := "Uncategorized"

  function DefaultMetadata(): Metadata {
    map["width" := Number(1.0)]
  }

  /** JavaScript `s || fallback` on an optional string: undefined and "" are falsy. */
  function OrString(s: Option<string>, fallback: string): (r: string)
    ensures s.Some? && s.value != "" ==> r == s.value
    ensures s.None? || s.value == "" ==> r == fallback
    ensures r != "" <==> (s.Some? && s.value != "") || fallback != ""
  {
    if s.Some? && s.value != "" then s.value else fallback
  }

  /** JavaScript `n || fallback` on an optional number: undefined and 0 are falsy. */
  function OrNumber(n: Option<int>, fallback: int): (r: int)
    ensures n.Some? && n.value != 0 ==> r == n.value
    ensures n.None? || n.value == 0 ==> r == fallback
    ensures r != 0 <==> (n.Some? && n.value != 0) || fallback != 0
  {
    if n.Some? && n.value != 0 then n.value else fallback
  }

  /** The item addItem builds from its arguments; `now` is the clock reading
      that the generated identifier is made from. */
  function NewItem(shelfIndex: int, compartmentIndex: int, input: ItemInput, now: nat): (r: ShelfItem)
    ensures r.location == Location(shelfIndex, compartmentIndex)
    ensures r.id != "" && r.category != "" && r.quantity != 0
    ensures r.id == if input.id == None || input.id == Some("") then GeneratedId(now) else input.id.value
    ensures r.category == if input.category == None || input.category == Some("") then Uncategorized else input.category.value
    ensures r.quantity == if input.quantity == None || input.quantity == Some(0) then 1 else input.quantity.value
    ensures r.metadata == if input.metadata == None then DefaultMetadata() else input.metadata.value
  {
    ShelfItem(
      OrString(input.id, GeneratedId(now)),
      OrString(input.category, Uncategorized),
      OrNumber(input.quantity, 1),
      Location(shelfIndex, compartmentIndex),
      if input.metadata.Some? then input.metadata.value else DefaultMetadata())
  }

  /** The list after addItem places `item`: it overwrites the first item at the
      same coordinate, or is appended when the coordinate is free. */
  function Placed(items: seq<ShelfItem>, item: ShelfItem): (r: seq<ShelfItem>)
    ensures item in r
    ensures |r| == if exists x :: x in items && x.location == item.location then |items| else |items| + 1
    ensures forall k :: 0 <= k < |items| && items[k].location != item.location ==> r[k] == items[k]
    ensures forall x :: x in r ==> x == item || x in items
  {
    match FirstMatch(items, AtLocation(item.location))
    case Some(i) =>
      assert items[i := item][i] == item;
      items[i := item]
    case None => items + [item]
  }

  /** On an occupied coordinate the new item takes the place of the first
      occupant; nothing else moves or changes. */
  lemma PlacedOccupied(items: seq<ShelfItem>, item: ShelfItem, i: nat)
    requires i < |items| && items[i].location == item.location
    requires forall j :: 0 <= j < i ==> items[j].location != item.location
    ensures Placed(items, item) == items[i := item]
    ensures |Placed(items, item)| == |items|
  {
    FirstMatchIs(items, AtLocation(item.location), i);
  }

  /** On a free coordinate the new item is appended; nothing else changes. */
  lemma PlacedFree(items: seq<ShelfItem>, item: ShelfItem)
    requires forall x :: x in items ==> x.location != item.location
    ensures Placed(items, item) == items + [item]
    ensures |Placed(items, item)| == |items| + 1
  {
    assert forall j :: 0 <= j < |items| ==> !Selects(AtLocation(item.location), items[j]);
  }

  /** Looking the coordinate up right after placing finds the new item. */
  lemma PlacedThenFind(items: seq<ShelfItem>, item: ShelfItem)
    ensures Find(Placed(items, item), AtLocation(item.location)) == Some(item)
  {
    var sel := AtLocation(item.location);
    var r := Placed(items, item);
    match FirstMatch(items, sel)
    case Some(i) =>
      FirstMatchIs(r, sel, i);
    case None =>
      FirstMatchIs(r, sel, |items|);
  }

  /** Placing leaves the lookup of every other coordinate as it was. */
  lemma PlacedOtherCoordinates(items: seq<ShelfItem>, item: ShelfItem, loc: Location)
    requires loc != item.location
    ensures Find(Placed(items, item), AtLocation(loc)) == Find(items, AtLocation(loc))
  {
    var sel := AtLocation(loc);
    var r := Placed(items, item);
    match FirstMatch(items, AtLocation(item.location))
    case Some(i) =>
      FirstMatchSamePattern(items, r, sel);
      match FirstMatch(items, sel) {
        case None =>
        case Some(k) =>
          assert k != i;
      }
    case None =>
      match FirstMatch(items, sel) {
        case None =>
            assert forall j :: 0 <= j < |r| ==> !Selects(sel, r[j]) by {
            assert forall j :: 0 <= j < |items| ==> r[j] == items[j];
          }
        case Some(k) =>
          FirstMatchIs(r, sel, k);
      }
  }

  /** Placing keeps "one item per coordinate". */
  lemma PlacedKeepsUnique(items: seq<ShelfItem>, item: ShelfItem)
    requires UniqueLocations(items)
    ensures UniqueLocations(Placed(items, item))
  {
    var r := Placed(items, item);
    match FirstMatch(items, AtLocation(item.location))
    case Some(i) =>
      assert forall k :: 0 <= k < |r| ==> r[k].location == items[k].location;
    case None =>
      assert forall k :: 0 <= k < |items| ==> r[k] == items[k] && r[k].location != item.location;
  }

  /** A second placement at the same coordinate overrides the first one: the
      list is as if only the second had happened. */
  lemma PlacedOverride(items: seq<ShelfItem>, a: ShelfItem, b: ShelfItem)
    requires a.location == b.location
    ensures Placed(Placed(items, a), b) == Placed(items, b)
  {
    var sel := AtLocation(a.location);
    var r := Placed(items, a);
    match FirstMatch(items, sel)
    case Some(i) =>
      FirstMatchIs(r, sel, i);
    case None =>
      FirstMatchIs(r, sel, |items|);
      assert (items + [a])[|items| := b] == items + [b];
  }

  // ---------------------------------------------------------------- updateItem

  /** JavaScript `{...x, ...u}`: every field present in u wins. */
  function Merge(x: ShelfItem, u: ItemUpdate): (r: ShelfItem)
    ensures u.id.Some? ==> r.id == u.id.value
    ensures u.id.None? ==> r.id == x.id
    ensures u.category.Some? ==> r.category == u.category.value
    ensures u.category.None? ==> r.category == x.category
    ensures u.quantity.Some? ==> r.quantity == u.quantity.value
    ensures u.quantity.None? ==> r.quantity == x.quantity
    ensures u.location.Some? ==> r.location == u.location.value
    ensures u.location.None? ==> r.location == x.location
    ensures u.metadata.Some? ==> r.metadata == u.metadata.value
    ensures u.metadata.None? ==> r.metadata == x.metadata
  {
    ShelfItem(
      Override(u.id, x.id),
      Override(u.category, x.category),
      Override(u.quantity, x.quantity),
      Override(u.location, x.location),
      Override(u.metadata, x.metadata))
  }

  function Override<T>(o: Option<T>, prev: T): T {
    if o.Some? then o.value else prev
  }

  /** The empty update and the update that is u followed by v. */
  const NoUpdate: ItemUpdate := ItemUpdate(None, None, None, None, None)

  function Then(u: ItemUpdate, v: ItemUpdate): ItemUpdate {
    ItemUpdate(
      Latest(u.id, v.id), Latest(u.category, v.category), Latest(u.quantity, v.quantity),
      Latest(u.location, v.location), Latest(u.metadata, v.metadata))
  }

  /** The later of two optional field updates, when it is present. */
  function Latest<T>(a: Option<T>, b: Option<T>): Option<T> {
    if b.Some? then b else a
  }

  /** Merging nothing changes nothing; merging u then v is merging their
      combination; merging the same update twice is merging it once. */
  lemma MergeLaws(x: ShelfItem, u: ItemUpdate, v: ItemUpdate)
    ensures Merge(x, NoUpdate) == x
    ensures Merge(Merge(x, u), v) == Merge(x, Then(u, v))
    ensures Merge(Merge(x, u), u) == Merge(x, u)
  {
  }

  /** The list after updateItem: the first item with that id is merged with
      the update; the list keeps its length. */
  function Updated(items: seq<ShelfItem>, id: string, u: ItemUpdate): (r: seq<ShelfItem>)
    ensures |r| == |items|
  {
    match FirstMatch(items, WithId(id))
    case Some(i) => items[i := Merge(items[i], u)]
    case None => items
  }

  /** Only the first item with the id changes, and it becomes the merge. */
  lemma UpdatedHit(items: seq<ShelfItem>, id: string, u: ItemUpdate, i: nat)
    requires i < |items| && items[i].id == id
    requires forall j :: 0 <= j < i ==> items[j].id != id
    ensures Updated(items, id, u)[i] == Merge(items[i], u)
    ensures forall k :: 0 <= k < |items| && k != i ==> Updated(items, id, u)[k] == items[k]
  {
    FirstMatchIs(items, WithId(id), i);
  }

  /** An unknown id leaves the list as it was. */
  lemma UpdatedMiss(items: seq<ShelfItem>, id: string, u: ItemUpdate)
    requires forall x :: x in items ==> x.id != id
    ensures Updated(items, id, u) == items
  {
    assert forall j :: 0 <= j < |items| ==> !Selects(WithId(id), items[j]);
  }

  /** An update that does not move the item keeps "one item per coordinate". */
  lemma UpdatedKeepsUnique(items: seq<ShelfItem>, id: string, u: ItemUpdate)
    requires UniqueLocations(items) && u.location == None
    ensures UniqueLocations(Updated(items, id, u))
  {
    var r := Updated(items, id, u);
    assert forall k :: 0 <= k < |r| ==> r[k].location == items[k].location;
  }

  /** An update that moves an item is not checked against the items already
      there: moving the first item with the id onto the coordinate of any other
      item leaves two items at that coordinate. */
  lemma UpdatedMayStackItems(items: seq<ShelfItem>, id: string, u: ItemUpdate, i: nat, j: nat)
    requires i < |items| && items[i].id == id
    requires forall k :: 0 <= k < i ==> items[k].id != id
    requires j < |items| && j != i && u.location == Some(items[j].location)
    ensures !UniqueLocations(Updated(items, id, u))
  {
    UpdatedHit(items, id, u, i);
    var r := Updated(items, id, u);
    assert r[i].location == r[j].location;
  }
}
