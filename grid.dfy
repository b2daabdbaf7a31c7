/** The traversal behind renderMatrix: for each shelf in order, the
    compartments 0 up to (not including) that shelf's compartment count, each
    looked up in the item list. Only the coordinates are modelled, not the
    markup built for them. */
module Grid {
  import opened MatrixTypes
  import opened ItemList

  /** What renderMatrix hands to the per-slot callback: the coordinate and the
      item found there, if any. */
  datatype Cell = Cell(location: Location, item: Option<ShelfItem>)

  /** The coordinates the traversal visits are exactly these. */
  predicate InGrid(compartmentsPerShelf: seq<int>, loc: Location) {
    0 <= loc.shelf < |compartmentsPerShelf| &&
    0 <= loc.compartment < compartmentsPerShelf[loc.shelf]
  }

  /** Row-major order: by shelf, then by compartment. */
  predicate Before(a: Location, b: Location) {
    a.shelf < b.shelf || (a.shelf == b.shelf && a.compartment < b.compartment)
  }

  /** The compartments of one shelf. Array.from({length: count}) has no entries
      when count is zero or negative. */
  function Row(shelf: int, count: int): (r: seq<Location>)
    ensures |r| == if count <= 0 then 0 else count
    ensures forall k :: 0 <= k < |r| ==> r[k].shelf == shelf && r[k].compartment == k
    ensures forall loc :: loc in r <==> loc.shelf == shelf && 0 <= loc.compartment < count
  {
    if count <= 0 then []
    else
      var r := seq(count, j => Location(shelf, j));
      assert forall loc: Location :: loc.shelf == shelf && 0 <= loc.compartment < count ==> r[loc.compartment] == loc;
      r
  }

  /** The coordinates of shelves shelf, shelf + 1, ..., in visiting order. */
  function SlotsFrom(compartmentsPerShelf: seq<int>, shelf: nat): (r: seq<Location>)
    ensures forall k :: 0 <= k < |r| ==> shelf <= r[k].shelf && InGrid(compartmentsPerShelf, r[k])
    decreases |compartmentsPerShelf| - shelf
  {
    if shelf >= |compartmentsPerShelf| then []
    else Row(shelf, compartmentsPerShelf[shelf]) + SlotsFrom(compartmentsPerShelf, shelf + 1)
  }

  function Slots(compartmentsPerShelf: seq<int>): (r: seq<Location>)
    ensures forall k :: 0 <= k < |r| ==> InGrid(compartmentsPerShelf, r[k])
  {
    SlotsFrom(compartmentsPerShelf, 0)
  }

  lemma {:induction false} SlotsFromCover(cps: seq<int>, shelf: nat, loc: Location)
    ensures loc in SlotsFrom(cps, shelf) <==> shelf <= loc.shelf && InGrid(cps, loc)
    decreases |cps| - shelf
  {
    if shelf < |cps| {
      SlotsFromCover(cps, shelf + 1, loc);
    }
  }

  lemma {:induction false} SlotsFromOrdered(cps: seq<int>, shelf: nat)
    ensures forall k :: 0 <= k < |SlotsFrom(cps, shelf)| ==> SlotsFrom(cps, shelf)[k].shelf >= shelf
    ensures forall a, b :: 0 <= a < b < |SlotsFrom(cps, shelf)| ==>
      Before(SlotsFrom(cps, shelf)[a], SlotsFrom(cps, shelf)[b])
    decreases |cps| - shelf
  {
    if shelf < |cps| {
      SlotsFromOrdered(cps, shelf + 1);
      var row := Row(shelf, cps[shelf]);
      var rest := SlotsFrom(cps, shelf + 1);
      var s := SlotsFrom(cps, shelf);
      assert s == row + rest;
      assert forall k :: 0 <= k < |row| ==> row[k] == Location(shelf, k);
      forall a, b | 0 <= a < b < |s| ensures Before(s[a], s[b]) {
        if b < |row| {
          assert s[a] == row[a] && s[b] == row[b];
        } else if a < |row| {
          assert s[a] == row[a] && s[b] == rest[b - |row|];
        } else {
          assert s[a] == rest[a - |row|] && s[b] == rest[b - |row|];
        }
      }
    }
  }

  /** The traversal visits exactly the coordinates of the grid, each once, in
      row-major order. */
  lemma SlotsAreTheGrid(cps: seq<int>)
    ensures forall loc :: loc in Slots(cps) <==> InGrid(cps, loc)
    ensures forall a, b :: 0 <= a < b < |Slots(cps)| ==> Before(Slots(cps)[a], Slots(cps)[b])
    ensures forall a, b :: 0 <= a < b < |Slots(cps)| ==> Slots(cps)[a] != Slots(cps)[b]
  {
    forall loc ensures loc in Slots(cps) <==> InGrid(cps, loc) {
      SlotsFromCover(cps, 0, loc);
    }
    SlotsFromOrdered(cps, 0);
  }

  /** One cell per visited coordinate, holding what getItemByLocation gives there. */
  function Rendered(items: seq<ShelfItem>, cps: seq<int>): (r: seq<Cell>)
    ensures |r| == |Slots(cps)|
  {
    var slots := Slots(cps);
    seq(|slots|, k requires 0 <= k < |slots| => Cell(slots[k], Find(items, AtLocation(slots[k]))))
  }

  /** Every item shown is a stored item, shown at its own coordinate, and that
      coordinate is in the grid: an item placed outside the grid is never shown. */
  lemma RenderedShowsOnlyGridItems(items: seq<ShelfItem>, cps: seq<int>)
    ensures forall c :: c in Rendered(items, cps) && c.item.Some? ==>
      c.item.value in items && c.item.value.location == c.location && InGrid(cps, c.location)
  {
    SlotsAreTheGrid(cps);
    var r := Rendered(items, cps);
    forall c | c in r && c.item.Some?
      ensures c.item.value in items && c.item.value.location == c.location && InGrid(cps, c.location)
    {
      var k :| 0 <= k < |r| && r[k] == c;
      assert c.location == Slots(cps)[k];
    }
  }

  /** With one item per coordinate, every stored item inside the grid is shown. */
  lemma RenderedShowsEveryGridItem(items: seq<ShelfItem>, cps: seq<int>, x: ShelfItem)
    requires UniqueLocations(items)
    requires x in items && InGrid(cps, x.location)
    ensures Cell(x.location, Some(x)) in Rendered(items, cps)
  {
    SlotsAreTheGrid(cps);
    var slots := Slots(cps);
    var k :| 0 <= k < |slots| && slots[k] == x.location;
    var i :| 0 <= i < |items| && items[i] == x;
    FirstMatchIs(items, AtLocation(x.location), i);
    assert Rendered(items, cps)[k] == Cell(x.location, Some(x));
  }
}
