/// The board of the current engine (src/game_logic/board.rs): a row-major
/// grid of stones with fixed dimensions and no knowledge of the rules.
module GridBoard {
  import opened Stones
  import opened Grids

  class Board {
    var state: seq<seq<Stone>>
    const width: nat
    const height: nat

    ghost predicate Valid()
      reads this
    {
      IsGrid(state, width, height)
    }

    /// `Board::new(width, height)`: `height` rows of `width` empty cells.
    constructor (width: nat, height: nat)
      ensures Valid() && this.width == width && this.height == height
      ensures forall r, c :: 0 <= r < height && 0 <= c < width ==> state[r][c] == Empty
      ensures state == Filled(width, height, Empty)
    {
      this.width := width;
      this.height := height;
      state := Filled(width, height, Empty);
    }

    /// `get_state`: the rows of the board, one slice per row, with the cells
    /// the board holds.
    function GetState(): (rows: seq<seq<Stone>>)
      reads this
      requires Valid()
      ensures IsGrid(rows, width, height)
      ensures forall r, c :: 0 <= r < height && 0 <= c < width ==> rows[r][c] == StoneAt(r, c)
    {
      seq(|state|, r requires 0 <= r < |state| reads this => state[r][..])
    }

    /// `index_of_pos`: the flat index shared with the union-find; inside the
    /// board it stays below `width * height`.
    function IndexOfPos(pos: Pos): (i: nat)
      reads this
      ensures pos.0 < height && pos.1 < width ==> i < width * height
    {
      if pos.0 < height && pos.1 < width then
        FlatIndexInverse(pos.0, pos.1, width, height);
        FlatIndex(pos.0, pos.1, width)
      else
        FlatIndex(pos.0, pos.1, width)
    }

    /// Inside the board the index gives the position back, so distinct cells
    /// never share a union-find node.
    lemma IndexOfPosRoundTrip(pos: Pos)
      requires pos.0 < height && pos.1 < width
      ensures IndexOfPos(pos) / width == pos.0 && IndexOfPos(pos) % width == pos.1
    {
      FlatIndexInverse(pos.0, pos.1, width, height);
    }

    /// `stone_at(row, col)`.
    function StoneAt(row: nat, col: nat): Stone
      reads this
      requires Valid() && row < height && col < width
    {
      state[row][col]
    }

    /// `place_stone`: overwrites cell `(row, col)` with the move's stone,
    /// whatever it held; nothing else changes. Indexing outside the board
    /// panics in the source, so the position must be on the board.
    method PlaceStone(mv: GameMove)
      requires Valid() && mv.pos.0 < height && mv.pos.1 < width
      modifies this
      ensures Valid()
      ensures StoneAt(mv.pos.0, mv.pos.1) == mv.stone
      ensures forall r, c :: 0 <= r < height && 0 <= c < width && (r, c) != mv.pos ==>
        StoneAt(r, c) == old(StoneAt(r, c))
      ensures state == SetCell(old(state), mv.pos.0, mv.pos.1, mv.stone)
    {
      var row := mv.pos.0;
      var col := mv.pos.1;
      state := state[row := state[row][col := mv.stone]];
    }
  }
}
