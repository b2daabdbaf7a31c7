# Shelf matrix store, modelled in Dafny

This project models the item store of the shelf-matrix widget (`packages/matrix-core`).
The store holds one shelf. The shelf has a grid shape, which is a number of
compartments per shelf row, and a list of items. Each item sits at a
(shelf, compartment) coordinate. The provider exposes these operations:

- `addItem` builds an item with defaults. It overwrites the first item at the
  coordinate, or appends the new item when the coordinate is free.
- `removeItem` filters items out by id.
- `removeItemByLocation` filters items out by coordinate.
- `updateItem` shallow-merges a partial item onto the first item with the id.
- `getItemByLocation` and `getItems` are reads.
- `renderMatrix` walks the grid in row-major order and looks up each slot.

After `addItem`, `removeItem` and `removeItemByLocation`, `total_items` is rewritten
to the list's length.

Layout:

- `types.dfy` (module `MatrixTypes`): the records of `types.ts`. Optional fields are `Option`s.
- `ids.dfy` (module `ItemIds`): the default identifier, `"item-"` followed by the
  clock reading in decimal. The model proves the decimal round trip.
- `items.dfy` (module `ItemList`): the pure list logic behind every operation:
  `findIndex`/`find` (`FirstMatch`, `Find`), the filter (`Without`), the
  placement done by `addItem` (`Placed`), the item it builds (`NewItem`) and the
  shallow merge (`Merge`, `Updated`). It also holds the lemmas about them.
- `grid.dfy` (module `Grid`): the slot enumeration of `renderMatrix` and the cells
  it hands to the per-slot callback.
- `store.dfy` (module `MatrixStore`): class `Store`, with fields `structure` and `items`.
  Its methods update the fields in place and are proved against the functions of
  `ItemList`. The file ends with a client, `Scenario`. It adds three items to a 2 x 2
  shelf, removes one by coordinate and updates another, and checks every
  intermediate result from the contracts alone.

JavaScript `||` defaults are reproduced as written. An empty id or category falls
back to the default, and so does a quantity of 0. Metadata falls back only when it
is absent, because every object is truthy. `addItem` replaces only the first item
at the coordinate. The filters remove every match. `updateItem` neither rewrites
`total_items` nor checks the destination of a moved item.

The generated identifier is not guaranteed to be fresh. It is built from
`Date.now()`, and `GeneratedIdsEqualIffSameTime` shows that two adds in the same
millisecond produce the same identifier. `removeItemByLocation` filters out every
item at the coordinate, not only the first. When no two items share a coordinate,
it removes at most one item (`AtMostOneAt`). Every mutator except a moving
`updateItem` keeps that property (`PlacedKeepsUnique`, `WithoutKeepsUnique`,
`UpdatedKeepsUnique`).

## Model

| member | source | states |
|---|---|---|
| `ItemIds.Decimal` | packages/matrix-core/core.tsx:25 | the decimal text of the clock reading is non-empty and all digits, one digit exactly for readings below 10 |
| `ItemIds.DecimalRoundTrip` | packages/matrix-core/core.tsx:25 | reading the decimal text back gives the clock reading (round trip) |
| `ItemIds.GeneratedId` | packages/matrix-core/core.tsx:25 | the generated id is `item-` followed by digits, so it is never empty |
| `ItemIds.GeneratedIdsEqualIffSameTime` | packages/matrix-core/core.tsx:25 | two generated ids are equal if and only if the clock readings are equal |
| `ItemList.FirstMatch` | packages/matrix-core/core.tsx:41-43 | findIndex: the result is a matching index with no match before it, and it is absent exactly when nothing matches (by coordinate here, by id at line 98) |
| `ItemList.Find` | packages/matrix-core/core.tsx:114-116 | find: absent exactly when no item matches; otherwise the first matching item in list order |
| `ItemList.FirstMatchSamePattern` | packages/matrix-core/core.tsx:41-43 | two lists that match at the same indices give the same findIndex result |
| `ItemList.FirstMatchIs` | packages/matrix-core/core.tsx:41-43 | a matching index with no earlier match is the findIndex result, and its item is the find result |
| `ItemList.Without` | packages/matrix-core/core.tsx:66 | the filter keeps exactly the items that do not match, and never grows the list |
| `ItemList.WithoutConcat` | packages/matrix-core/core.tsx:66 | filtering a + b is filtering a followed by filtering b, so survivors keep their relative order |
| `ItemList.WithoutSingleton` | packages/matrix-core/core.tsx:81-83 | a single item survives the filter exactly when it does not match |
| `ItemList.WithoutMiss` | packages/matrix-core/core.tsx:66 | the filter returns the list unchanged if and only if no item matches (removal of an absent id or a free coordinate is a no-op) |
| `ItemList.WithoutIdempotent` | packages/matrix-core/core.tsx:66-67 | removing twice gives the same list as removing once |
| `ItemList.WithoutKeepsUnique` | packages/matrix-core/core.tsx:81-83 | if no two items shared a coordinate before a removal (by coordinate here, by id at line 66), none do after |
| `ItemList.AtMostOneAt` | packages/matrix-core/core.tsx:81-84 | with one item per coordinate, at most one item is at any coordinate, so removal by coordinate shrinks the list by at most one |
| `ItemList.WithoutCount` | packages/matrix-core/core.tsx:81-84 | the list shrinks by exactly the number of matching items |
| `ItemList.OrString` | packages/matrix-core/core.tsx:25-26 | `s \|\| fallback` on a string: a present non-empty value wins; an absent or empty value gives the fallback; the result is empty only if both are |
| `ItemList.OrNumber` | packages/matrix-core/core.tsx:27 | `n \|\| fallback` on a number: a present non-zero value wins; an absent or zero value gives the fallback; the result is zero only if both are |
| `ItemList.NewItem` | packages/matrix-core/core.tsx:24-33 | the new item is at the call's coordinate; id falls back to the generated id when absent or empty, category to "Uncategorized" when absent or empty, quantity to 1 when absent or 0, metadata to {width: 1} when absent; id and category are never empty and quantity is never 0 |
| `ItemList.Placed` | packages/matrix-core/core.tsx:41-49 | the new item is in the result; the length stays the same when an item already sits at the coordinate and grows by one otherwise; every item at another coordinate keeps its index; nothing but the new item and old items appears (characterised exactly by `PlacedOccupied` and `PlacedFree`) |
| `ItemList.PlacedOccupied` | packages/matrix-core/core.tsx:41-46 | on an occupied coordinate the new item replaces the first occupant at its index; the length is unchanged and no other item changes |
| `ItemList.PlacedFree` | packages/matrix-core/core.tsx:45-48 | on a free coordinate the new item is appended; the length grows by one and no other item changes |
| `ItemList.PlacedThenFind` | packages/matrix-core/core.tsx:41-49 | right after placing, looking up the coordinate returns the new item |
| `ItemList.PlacedOtherCoordinates` | packages/matrix-core/core.tsx:41-49 | placing leaves the lookup of every other coordinate unchanged |
| `ItemList.PlacedKeepsUnique` | packages/matrix-core/core.tsx:41-49 | if no two items shared a coordinate before placing, none do after |
| `ItemList.PlacedOverride` | packages/matrix-core/core.tsx:41-49 | placing A and then B at the same coordinate gives the same list as placing B alone (A and its id are gone) |
| `ItemList.Merge` | packages/matrix-core/core.tsx:101-104 | the spread merge: each field present in the update replaces the old one, and each absent field is kept |
| `ItemList.MergeLaws` | packages/matrix-core/core.tsx:101-104 | the empty update changes nothing; merging u then v equals merging their combination; merging the same update twice equals merging it once |
| `ItemList.Updated` | packages/matrix-core/core.tsx:98-105 | updateItem keeps the list length |
| `ItemList.UpdatedHit` | packages/matrix-core/core.tsx:98-105 | only the first item with the id changes, and it becomes the merge of itself with the update |
| `ItemList.UpdatedMiss` | packages/matrix-core/core.tsx:98-105 | an id that no item has leaves the list unchanged |
| `ItemList.UpdatedKeepsUnique` | packages/matrix-core/core.tsx:98-105 | an update without a location keeps one item per coordinate |
| `ItemList.UpdatedMayStackItems` | packages/matrix-core/core.tsx:98-104 | for every list, moving the first item with the id onto the coordinate of any other item is not checked, and the result has two items at that coordinate |
| `Grid.Row` | packages/matrix-core/core.tsx:128 | `Array.from({length: count})` for one shelf: max(count, 0) coordinates, the k-th being compartment k of that shelf, so exactly the compartments 0 <= j < count |
| `Grid.SlotsFrom` | packages/matrix-core/core.tsx:126-128 | every coordinate visited from a given shelf on is on that shelf or a later one and inside the grid (completeness and order in `SlotsFromCover` and `SlotsFromOrdered`) |
| `Grid.Slots` | packages/matrix-core/core.tsx:126-128 | every visited coordinate is inside the grid (exactly the grid, in row-major order, by `SlotsAreTheGrid`) |
| `Grid.SlotsFromCover` | packages/matrix-core/core.tsx:126-128 | from a given shelf on, the traversal visits exactly the in-grid coordinates of that shelf and later shelves |
| `Grid.SlotsFromOrdered` | packages/matrix-core/core.tsx:126-128 | from a given shelf on, the visited coordinates are in strictly increasing row-major order |
| `Grid.SlotsAreTheGrid` | packages/matrix-core/core.tsx:126-128 | the traversal visits exactly the pairs (i, j) with 0 <= j < compartments_per_shelf[i], each once, in row-major order |
| `Grid.Rendered` | packages/matrix-core/core.tsx:126-129 | one cell per visited coordinate |
| `Grid.RenderedShowsOnlyGridItems` | packages/matrix-core/core.tsx:126-129 | every item shown is a stored item, shown at its own coordinate, inside the grid; items outside the grid are never visited |
| `Grid.RenderedShowsEveryGridItem` | packages/matrix-core/core.tsx:126-129 | with one item per coordinate, every stored item inside the grid is shown in its own cell |
| `MatrixStore.Store.constructor` | packages/matrix-core/core.tsx:17 | the store starts from the seed data unchanged |
| `MatrixStore.Store.AddItem` | packages/matrix-core/core.tsx:19-56 | the list becomes the placement of the built item; total_items equals the new length and the rest of the structure is unchanged; the coordinate now looks up to the new item; one item per coordinate is preserved |
| `MatrixStore.Store.RemoveItem` | packages/matrix-core/core.tsx:58-71 | the list becomes the items whose id differs, in order; total_items equals the new length and the rest of the structure is unchanged; one item per coordinate is preserved; an absent id leaves the list unchanged |
| `MatrixStore.Store.RemoveItemByLocation` | packages/matrix-core/core.tsx:73-88 | the list becomes the items at other coordinates, in order; total_items equals the new length; the coordinate now looks up to nothing; one item per coordinate is preserved, and then at most one item is removed; a free coordinate leaves the list unchanged |
| `MatrixStore.RemoveItemTwice` | packages/matrix-core/core.tsx:58-71 | two identical removeItem calls leave the whole store (list and structure) as one call does; on a miss the store is unchanged exactly when total_items was already consistent, since line 67 rewrites it regardless |
| `MatrixStore.Store.UpdateItem` | packages/matrix-core/core.tsx:90-109 | the list becomes the merged list; length and the whole structure, total_items included, are unchanged; count consistency holds after exactly when it held before; an update without a location keeps one item per coordinate |
| `MatrixStore.Store.GetItemByLocation` | packages/matrix-core/core.tsx:111-117 | absent exactly when no item is at the coordinate; otherwise a stored item at that coordinate (the first, by `ItemList.Find`) |
| `MatrixStore.Store.GetItems` | packages/matrix-core/core.tsx:119-121 | when total_items is consistent, the returned list has total_items items |
| `MatrixStore.Store.RenderMatrix` | packages/matrix-core/core.tsx:123-145 | one cell per grid coordinate; every item shown is stored and inside the grid |
| `MatrixStore.ScenarioFill` | packages/matrix-core/core.tsx:41-52 | three adds with given ids at free coordinates of an empty store give exactly those three items in order, with total_items consistent |

## Left out

- React plumbing: the context, `useState`/`setData`, `useCallback` and the provider
  element (core.tsx:1-17, 147-162). The store is an explicit object, and each
  operation is one whole-state update.
- `useMatrix` throwing outside the provider (core.tsx:166-174). A `Store` always
  exists once constructed, so there is no uninitialised state to model.
- The aliasing of the shallow `{...prevData}` copy. In the source the old and the new
  state share one `shelf` object. The model replaces the fields of one store and
  does not capture that sharing.
- The `if (!items)` guards. The item list is always present, as `types.ts:40` declares it.
- JSX output of `renderMatrix`, the default slot markup and the `renderItem`
  callback itself. `Grid.Rendered` gives only the inputs that the callback
  receives for each slot.
- `Date.now()` is a clock read. Its reading is the `now` parameter of `AddItem`.
- Numbers are integers. NaN, which `||` also treats as falsy, is not modelled.
  Fractional coordinates and quantities are not modelled either, nor fractional
  compartment counts, which `Array.from` would truncate.
- Metadata is a map from keys to primitive values (number, text, flag). Nested
  values of the `any`-typed bag are not modelled.
- An update object that lists a field with the value `undefined` is treated as if
  the field were absent. The spread would copy the `undefined`.
- `MatrixStore.Store.GetItems`: the contract states only the count relation.
  The returned list is the store's list itself.
- `Grid.Rendered`: the contract states only the number of cells. What the cells
  hold is stated by `Grid.RenderedShowsOnlyGridItems`, `Grid.RenderedShowsEveryGridItem`
  and `Grid.SlotsAreTheGrid`.
- `src/App.tsx` (demo UI, seed data, colours, input clamping) and `vite.config.ts`
  (build configuration) are not part of this model.
