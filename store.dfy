/** The matrix store: one shelf's structure and its item list, and the
    operations the provider exposes over them. Each mutator replaces the item
    list and, except updateItem, rewrites total_items to the list's length. */
module MatrixStore {
  import opened MatrixTypes
  import opened ItemIds
  import opened ItemList
  import opened Grid

  class Store {
    const shelfId: string
    const creationDate: string
    var structure: ShelfStructure
    var items: seq<ShelfItem>

    /** The store starts from the caller's seed, unchecked. */
    constructor (initial: ShelfData)
      ensures Data() == initial
    {
      shelfId := initial.shelf.id;
      creationDate := initial.shelf.creationDate;
      structure := initial.shelf.structure;
      items := initial.shelf.items;
    }

    /** The whole state, as the provider's `data` value. */
    function Data(): ShelfData
      reads this
    {
      ShelfData(Shelf(shelfId, creationDate, structure, items))
    }

    /** total_items agrees with the list: what every mutator but updateItem re-establishes. */
    predicate CountConsistent()
      reads this
    {
      structure.totalItems == |items|
    }

    method AddItem(shelfIndex: int, compartmentIndex: int, input: ItemInput, now: nat)
      modifies this
      ensures items == Placed(old(items), NewItem(shelfIndex, compartmentIndex, input, now))
      ensures structure == old(structure).(totalItems := |items|)
      ensures CountConsistent()
      ensures GetItemByLocation(shelfIndex, compartmentIndex) == Some(NewItem(shelfIndex, compartmentIndex, input, now))
      ensures UniqueLocations(old(items)) ==> UniqueLocations(items)
    {
      var newItem := NewItem(shelfIndex, compartmentIndex, input, now);
      var existingIndex := FirstMatch(items, AtLocation(newItem.location));
      if existingIndex.Some? {
        items := items[existingIndex.value := newItem];
      } else {
        items := items + [newItem];
      }
      structure := structure.(totalItems := |items|);
      PlacedThenFind(old(items), newItem);
      if UniqueLocations(old(items)) {
        PlacedKeepsUnique(old(items), newItem);
      }
    }

    method RemoveItem(itemId: string)
      modifies this
      ensures items == Without(old(items), WithId(itemId))
      ensures structure == old(structure).(totalItems := |items|)
      ensures CountConsistent()
      ensures UniqueLocations(old(items)) ==> UniqueLocations(items)
      ensures (forall x :: x in old(items) ==> x.id != itemId) ==> items == old(items)
    {
      items := Without(items, WithId(itemId));
      structure := structure.(totalItems := |items|);
      if UniqueLocations(old(items)) {
        WithoutKeepsUnique(old(items), WithId(itemId));
      }
      WithoutMiss(old(items), WithId(itemId));
    }

    method RemoveItemByLocation(shelfIndex: int, compartmentIndex: int)
      modifies this
      ensures items == Without(old(items), AtLocation(Location(shelfIndex, compartmentIndex)))
      ensures structure == old(structure).(totalItems := |items|)
      ensures CountConsistent()
      ensures GetItemByLocation(shelfIndex, compartmentIndex) == None
      ensures UniqueLocations(old(items)) ==> UniqueLocations(items) && |items| >= old(|items|) - 1
      ensures (forall x :: x in old(items) ==> x.location != Location(shelfIndex, compartmentIndex)) ==> items == old(items)
    {
      var loc := Location(shelfIndex, compartmentIndex);
      items := Without(items, AtLocation(loc));
      structure := structure.(totalItems := |items|);
      if UniqueLocations(old(items)) {
        WithoutKeepsUnique(old(items), AtLocation(loc));
        AtMostOneAt(old(items), loc);
      }
      WithoutMiss(old(items), AtLocation(loc));
    }

    method UpdateItem(itemId: string, updates: ItemUpdate)
      modifies this
      ensures items == Updated(old(items), itemId, updates)
      ensures |items| == old(|items|)
      ensures structure == old(structure)
      ensures CountConsistent() == old(CountConsistent())
      ensures updates.location == None && UniqueLocations(old(items)) ==> UniqueLocations(items)
    {
      var itemIndex := FirstMatch(items, WithId(itemId));
      if itemIndex.Some? {
        items := items[itemIndex.value := Merge(items[itemIndex.value], updates)];
      }
      if updates.location == None && UniqueLocations(old(items)) {
        UpdatedKeepsUnique(old(items), itemId, updates);
      }
    }

    /** The first item in list order at the coordinate, or None (null). */
    function GetItemByLocation(shelfIndex: int, compartmentIndex: int): (r: Option<ShelfItem>)
      reads this
      ensures r.None? <==> forall x :: x in items ==> x.location != Location(shelfIndex, compartmentIndex)
      ensures r.Some? ==> r.value in items && r.value.location == Location(shelfIndex, compartmentIndex)
    {
      Find(items, AtLocation(Location(shelfIndex, compartmentIndex)))
    }

    function GetItems(): (r: seq<ShelfItem>)
      reads this
      ensures CountConsistent() ==> |r| == structure.totalItems
    {
      items
    }

    /** The cells renderMatrix visits, one per coordinate of the declared grid. */
    function RenderMatrix(): (r: seq<Cell>)
      reads this
      ensures |r| == |Slots(structure.compartmentsPerShelf)|
      ensures forall c :: c in r && c.item.Some? ==>
        c.item.value in items && InGrid(structure.compartmentsPerShelf, c.item.value.location)
    {
      RenderedShowsOnlyGridItems(items, structure.compartmentsPerShelf);
      Rendered(items, structure.compartmentsPerShelf)
    }
  }

  /** A second identical removeItem changes nothing. On a miss the store is
      unchanged only when total_items was already consistent, because removeItem
      rewrites total_items even when nothing matches. */
  method RemoveItemTwice(store: Store, itemId: string)
    modifies store
    ensures store.items == Without(old(store.items), WithId(itemId))
    ensures store.structure == old(store.structure).(totalItems := |store.items|)
    ensures (forall x :: x in old(store.items) ==> x.id != itemId) ==>
      (store.Data() == old(store.Data()) <==> old(store.CountConsistent()))
  {
    store.RemoveItem(itemId);
    ghost var once := store.Data();
    store.RemoveItem(itemId);
    WithoutIdempotent(old(store.items), WithId(itemId));
    assert store.Data() == once;
  }

  /** The item addItem builds at (shelf, compartment) from an input that gives
      only an identifier. */
  function Expected(id: string, shelf: int, compartment: int): ShelfItem {
    ShelfItem(id, Uncategorized, 1, Location(shelf, compartment), DefaultMetadata())
  }

  /** A client that relies on the contracts alone: on a 2 x 2 shelf, items
      with three distinct identifiers are added at (0, 0), (0, 1) and (1, 0);
      the one at (0, 0) is removed, and the quantity of the second is set to 5. */
  method Scenario(idA: string, idB: string, idC: string)
    requires idA != "" && idB != "" && idC != ""
    requires idA != idB && idB != idC && idA != idC
  {
    var store := ScenarioFill(idA, idB, idC);
    var b, c := Expected(idB, 0, 1), Expected(idC, 1, 0);
    assert store.GetItemByLocation(1, 1) == None by { ScenarioAdds(Expected(idA, 0, 0), b, c); }

    store.RemoveItemByLocation(0, 0);
    assert store.items == [b, c] by { ScenarioRemove(Expected(idA, 0, 0), b, c); }
    assert |store.GetItems()| == 2 && store.structure.totalItems == 2;
    assert store.GetItemByLocation(0, 0) == None;
    var found := store.GetItemByLocation(0, 1);
    assert found == Some(b) by { ScenarioRemove(Expected(idA, 0, 0), b, c); }

    var u := NoUpdate.(quantity := Some(5));
    store.UpdateItem(idB, u);
    var updated := store.GetItemByLocation(0, 1);
    assert updated == Some(Merge(b, u)) by { ScenarioUpdate(b, c, u); }
    assert updated.value.quantity == 5 && updated.value.id == idB;
    assert updated.value.category == Uncategorized && updated.value.location == Location(0, 1);
  }

  /** The first half of the scenario: three adds at free coordinates. */
  method ScenarioFill(idA: string, idB: string, idC: string) returns (store: Store)
    requires idA != "" && idB != "" && idC != ""
    ensures fresh(store)
    ensures store.items == [Expected(idA, 0, 0), Expected(idB, 0, 1), Expected(idC, 1, 0)]
    ensures store.CountConsistent()
  {
    var empty := ShelfData(Shelf("shelf", "today", ShelfStructure(2, [2, 2], 4, 0, 4), []));
    store := new Store(empty);
    var none := ItemInput(None, None, None, None);
    var a, b, c := Expected(idA, 0, 0), Expected(idB, 0, 1), Expected(idC, 1, 0);
    store.AddItem(0, 0, none.(id := Some(idA)), 0);
    assert store.items == [a] by { ScenarioAdds(a, b, c); }
    store.AddItem(0, 1, none.(id := Some(idB)), 0);
    assert store.items == [a, b] by { ScenarioAdds(a, b, c); }
    store.AddItem(1, 0, none.(id := Some(idC)), 0);
    assert store.items == [a, b, c] by { ScenarioAdds(a, b, c); }
  }

  /** The lists the scenario passes through: three adds at free coordinates, ... */
  lemma ScenarioAdds(a: ShelfItem, b: ShelfItem, c: ShelfItem)
    requires a.location == Location(0, 0) && b.location == Location(0, 1) && c.location == Location(1, 0)
    ensures Placed([], a) == [a] && Placed([a], b) == [a, b] && Placed([a, b], c) == [a, b, c]
    ensures Find([a, b, c], AtLocation(Location(1, 1))) == None
  {
    PlacedFree([], a);
    assert forall x :: x in [a] ==> x.location != b.location;
    PlacedFree([a], b);
    assert forall x :: x in [a, b] ==> x.location != c.location;
    PlacedFree([a, b], c);
  }

  /** ... the removal at (0, 0), ... */
  lemma ScenarioRemove(a: ShelfItem, b: ShelfItem, c: ShelfItem)
    requires a.location == Location(0, 0) && b.location == Location(0, 1) && c.location == Location(1, 0)
    ensures Without([a, b, c], AtLocation(Location(0, 0))) == [b, c]
    ensures Find([b, c], AtLocation(Location(0, 1))) == Some(b)
  {
    var sel := AtLocation(Location(0, 0));
    WithoutConcat([a], [b, c], sel);
    WithoutConcat([b], [c], sel);
    WithoutSingleton(a, sel);
    WithoutSingleton(b, sel);
    WithoutSingleton(c, sel);
    FirstMatchIs([b, c], AtLocation(Location(0, 1)), 0);
  }

  /** ... and the update of "b". */
  lemma ScenarioUpdate(b: ShelfItem, c: ShelfItem, u: ItemUpdate)
    requires b.location == Location(0, 1) && c.id != b.id && u.location == None
    ensures Updated([b, c], b.id, u) == [Merge(b, u), c]
    ensures Find([Merge(b, u), c], AtLocation(Location(0, 1))) == Some(Merge(b, u))
  {
    UpdatedHit([b, c], b.id, u, 0);
    FirstMatchIs([Merge(b, u), c], AtLocation(Location(0, 1)), 0);
  }
}
