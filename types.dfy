/** The records of the shelf matrix: coordinates, items, the partial records
    that addItem and updateItem accept, and the shelf with its structure. */
module MatrixTypes {

  datatype Option<+T> = None | Some(value: T)

  /** A (shelf, compartment) coordinate. Both are zero-based, and the store never
      checks them against the declared grid, so any integer is accepted. */
  datatype Location = Location(shelf: int, compartment: int)

  /** One value of the open metadata bag. Only "width" has a meaning, and only
      to the view layer. */
  datatype MetaValue = Number(n: real) | Text(s: string) | Flag(b: bool)

  type Metadata = map<string, MetaValue>

  /** A placed item. Its location is its compartment. */
  datatype ShelfItem = ShelfItem(
    id: string,
    category: string,
    quantity: int,
    location: Location,
    metadata: Metadata)

  /** What a caller hands to addItem. There is no location: addItem takes the
      location from its own arguments. */
  datatype ItemInput = ItemInput(
    id: Option<string>,
    category: Option<string>,
    quantity: Option<int>,
    metadata: Option<Metadata>)

  /** A partial item as passed to updateItem: each present field replaces the
      field of the same name. */
  datatype ItemUpdate = ItemUpdate(
    id: Option<string>,
    category: Option<string>,
    quantity: Option<int>,
    location: Option<Location>,
    metadata: Option<Metadata>)

  /** The grid shape and its bookkeeping counters. Of these, the store writes
      only totalItems. */
  datatype ShelfStructure = ShelfStructure(
    numShelves: int,
    compartmentsPerShelf: seq<int>,
    totalCompartments: int,
    totalItems: int,
    maxCapacity: int)

  datatype Shelf = Shelf(
    id: string,
    creationDate: string,
    structure: ShelfStructure,
    items: seq<ShelfItem>)

  datatype ShelfData = ShelfData(shelf: Shelf)
}
