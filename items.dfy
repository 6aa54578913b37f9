/** Tiles of the 2048 board (class `Item` of game/models.py). */
module Items {

  /**
   * A tile: `value` 0 is the empty tile; `modified` is the merge marker,
   * set once the tile has been doubled during the current move.
   */
  datatype Item = Item(value: int, modified: bool)

  /** `Item()`: a fresh empty tile, never marked. */
  const Empty := Item(0, false)

  /** `Item(2)`: the tile spawned after a move and at start-up. */
  const Two := Item(2, false)

  predicate IsEmpty(t: Item) {
    t.value == 0
  }

  /** `Item.__eq__`: tiles compare by value alone, markers are ignored. */
  predicate Same(a: Item, b: Item) {
    a.value == b.value
  }

  /** `Item.increase`: the tile doubles and is marked as merged. */
  function Increase(t: Item): Item {
    Item(t.value * 2, true)
  }

  /** `stay.can_merge(cell)`: equal values and neither tile merged yet. */
  predicate CanMerge(stay: Item, cell: Item) {
    cell.value == stay.value && !stay.modified && !cell.modified
  }

  /**
   * Every Item the program creates keeps this: only `increase` sets the
   * marker, and it is only called on a nonempty tile.
   */
  predicate Normal(t: Item) {
    IsEmpty(t) ==> t == Empty
  }

  ghost predicate IsPowerOfTwo(v: int)
    decreases if v < 0 then 0 else v
  {
    v == 1 || (v >= 2 && v % 2 == 0 && IsPowerOfTwo(v / 2))
  }

  /** The values a reachable board holds: empty, or a power of two that is at least 2. */
  ghost predicate WellValued(t: Item) {
    t.value == 0 || (t.value >= 2 && IsPowerOfTwo(t.value))
  }

  /** A doubled tile is nonempty, still a power of two, and cannot take part in another merge. */
  lemma IncreaseSpendsTile(t: Item, u: Item)
    requires WellValued(t) && !IsEmpty(t)
    ensures Increase(t).value == 2 * t.value
    ensures WellValued(Increase(t)) && !IsEmpty(Increase(t)) && Normal(Increase(t))
    ensures !CanMerge(Increase(t), u) && !CanMerge(u, Increase(t))
  {
    assert (2 * t.value) / 2 == t.value;
  }
}
