/// The grid of the older go/ crate (go/src/board.rs): every cell holds
/// `Some(stone)`, and cells are addressed as `(x, y)` with `y` picking the
/// row, so the grid is stored transposed against its coordinates.
module GoBoard {
  import opened Stones
  import opened Grids

  /// No cell is `None`.
  predicate AllSome(cells: seq<seq<Option<Stone>>>)
  {
    forall y, x :: 0 <= y < |cells| && 0 <= x < |cells[y]| ==> cells[y][x].Some?
  }

  /// The cell at `(x, y)`: column `x` of row `y`.
  function CellAt(cells: seq<seq<Option<Stone>>>, width: nat, height: nat, x: nat, y: nat): Option<Stone>
    requires IsGrid(cells, width, height) && x < width && y < height
  {
    cells[y][x]
  }

  /// Writing `Some(stone)` at `(x, y)` keeps every cell filled, is read back
  /// at `(x, y)`, and leaves every other `(x', y')` as it was.
  lemma PlaceThenRead(cells: seq<seq<Option<Stone>>>, width: nat, height: nat, x: nat, y: nat, stone: Stone)
    requires IsGrid(cells, width, height) && AllSome(cells) && x < width && y < height
    ensures var r := SetCell(cells, y, x, Some(stone));
      && IsGrid(r, width, height) && AllSome(r)
      && CellAt(r, width, height, x, y) == Some(stone)
      && forall x': nat, y': nat :: x' < width && y' < height && (x', y') != (x, y) ==>
           CellAt(r, width, height, x', y') == CellAt(cells, width, height, x', y')
  {
  }

  class Board {
    var state: seq<seq<Option<Stone>>>
    const width: nat
    const height: nat

    ghost predicate Valid()
      reads this
    {
      IsGrid(state, width, height) && AllSome(state)
    }

    /// `Board::new(width, height)`: `height` rows of `width` cells, each
    /// `Some(Empty)`.
    constructor (width: nat, height: nat)
      ensures Valid() && this.width == width && this.height == height
      ensures state == Filled(width, height, Some(Empty))
    {
      this.width := width;
      this.height := height;
      state := Filled(width, height, Some(Empty));
    }

    /// `place_stone(x, y, stone)`: overwrite row `y`, column `x`.
    method PlaceStone(x: nat, y: nat, stone: Stone)
      requires Valid() && x < width && y < height
      modifies this
      ensures Valid() && state == SetCell(old(state), y, x, Some(stone))
      ensures StoneAt(x, y) == Some(stone)
    {
      PlaceThenRead(state, width, height, x, y, stone);
      state := state[y := state[y][x := Some(stone)]];
    }

    /// `stone_at(x, y)`.
    function StoneAt(x: nat, y: nat): (s: Option<Stone>)
      reads this
      requires Valid() && x < width && y < height
      ensures s.Some?
    {
      CellAt(state, width, height, x, y)
    }
  }
}
