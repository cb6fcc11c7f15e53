/// The game controller of the current engine (src/game_logic/game.rs): the
/// board, the union-find over its flat indices with the liberty sets, whose
/// turn it is, the move counter and the game-over flag. A move is checked for
/// occupancy, its liberties are recorded, its four neighbours are visited
/// (join a friendly stone, take a liberty from an enemy chain and clear that
/// enemy stone when its chain has none left), and then the stone is placed.
module Controller {
  import opened Stones
  import opened Grids
  import opened DisjointSets
  import opened LibertyInterface
  import GridBoard

  /// What the user interface hands to `update`.
  datatype UserAction = Move(row: nat, col: nat) | Quit | Noop

  /// One entry of `manhattan_adjacencies`: a checked row and column, `None`
  /// where the subtraction would go below zero.
  datatype Adjacent = Adjacent(row: Option<nat>, col: Option<nat>)

  /// The candidates of a move at `pos`, in the source's order: up, down,
  /// left, right.
  function Adjacencies(pos: Pos): (a: seq<Adjacent>)
    ensures |a| == 4
  {
    var (row, col) := pos;
    [Adjacent(if row > 0 then Some(row - 1) else None, Some(col)),
     Adjacent(Some(row + 1), Some(col)),
     Adjacent(Some(row), if col > 0 then Some(col - 1) else None),
     Adjacent(Some(row), Some(col + 1))]
  }

  /// The candidates with both coordinates present are exactly the orthogonal
  /// neighbours of `pos`; the missing ones are the steps below zero.
  lemma AdjacenciesAreNeighbours(pos: Pos)
    ensures forall q: Pos :: Adjacent(Some(q.0), Some(q.1)) in Adjacencies(pos) <==> Orthogonal(q, pos)
  {
    var res := Adjacencies(pos);
    forall q: Pos | Orthogonal(q, pos)
      ensures Adjacent(Some(q.0), Some(q.1)) in res
    {
      if q.0 + 1 == pos.0 { assert res[0] == Adjacent(Some(q.0), Some(q.1)); }
      else if q.1 + 1 == pos.1 { assert res[2] == Adjacent(Some(q.0), Some(q.1)); }
    }
  }

  /// The out-of-bounds test as game.rs:98 and :162 write it: the row is
  /// compared with the width and the column with the height.
  predicate SkippedAsWritten(adjRow: nat, adjCol: nat, width: nat, height: nat)
  {
    adjRow >= width || adjCol >= height
  }

  /// The intended test: rows range over the height, columns over the width.
  predicate Skipped(adjRow: nat, adjCol: nat, width: nat, height: nat)
  {
    adjRow >= height || adjCol >= width
  }

  /// A candidate the loops go on to handle (corrected bounds test).
  predicate Accepted(a: Adjacent, width: nat, height: nat)
  {
    a.row.Some? && a.col.Some? && !Skipped(a.row.value, a.col.value, width, height)
  }

  /// The accepted candidates, in order, as positions.
  function NeighbourCells(adjs: seq<Adjacent>, width: nat, height: nat): (cells: seq<Pos>)
  {
    if adjs == [] then []
    else
      var a := adjs[0];
      var rest := NeighbourCells(adjs[1..], width, height);
      if Accepted(a, width, height) then [(a.row.value, a.col.value)] + rest else rest
  }

  /// A position is listed exactly when some candidate names it and it lies on
  /// the board.
  lemma {:induction false} NeighbourCellsMembers(adjs: seq<Adjacent>, width: nat, height: nat)
    ensures forall q: Pos :: q in NeighbourCells(adjs, width, height) <==>
      Adjacent(Some(q.0), Some(q.1)) in adjs && InBounds(q, width, height)
  {
    if adjs != [] {
      NeighbourCellsMembers(adjs[1..], width, height);
      assert forall q: Pos :: Adjacent(Some(q.0), Some(q.1)) in adjs <==>
        Adjacent(Some(q.0), Some(q.1)) == adjs[0] || Adjacent(Some(q.0), Some(q.1)) in adjs[1..];
    }
  }

  /// Appending one candidate appends its cell when it is accepted.
  lemma {:induction false} NeighbourCellsSnoc(adjs: seq<Adjacent>, a: Adjacent, width: nat, height: nat)
    ensures NeighbourCells(adjs + [a], width, height) ==
      NeighbourCells(adjs, width, height) + (if Accepted(a, width, height) then [(a.row.value, a.col.value)] else [])
  {
    if adjs != [] {
      assert (adjs + [a])[1..] == adjs[1..] + [a];
      NeighbourCellsSnoc(adjs[1..], a, width, height);
    }
  }

  lemma NeighbourCellsExtend(adjs: seq<Adjacent>, k: nat, width: nat, height: nat)
    requires k < |adjs|
    ensures NeighbourCells(adjs[..k + 1], width, height) ==
      NeighbourCells(adjs[..k], width, height) +
        (if Accepted(adjs[k], width, height) then [(adjs[k].row.value, adjs[k].col.value)] else [])
  {
    assert adjs[..k + 1] == adjs[..k] + [adjs[k]];
    NeighbourCellsSnoc(adjs[..k], adjs[k], width, height);
  }

  /// The flat indices of a list of positions.
  function FlatIndices(cells: seq<Pos>, width: nat): (idx: seq<nat>)
    ensures |idx| == |cells|
    ensures forall k :: 0 <= k < |cells| ==> idx[k] == FlatIndex(cells[k].0, cells[k].1, width)
  {
    seq(|cells|, k requires 0 <= k < |cells| => FlatIndex(cells[k].0, cells[k].1, width))
  }

  lemma FlatIndicesSnoc(cells: seq<Pos>, p: Pos, width: nat)
    ensures FlatIndices(cells + [p], width) == FlatIndices(cells, width) + [FlatIndex(p.0, p.1, width)]
  {
  }

  /// The liberty list that `create_libs` builds for a move at `pos`.
  function LibertyList(pos: Pos, width: nat, height: nat): seq<nat>
  {
    FlatIndices(NeighbourCells(Adjacencies(pos), width, height), width)
  }

  /// Everything the controller holds, as a value.
  datatype GameState = GameState(cells: seq<seq<Stone>>, width: nat, height: nat,
                                 forest: Forest, libs: seq<set<nat>>,
                                 turn: bool, moveNumber: nat, gameOver: bool)

  /// The board is `height` rows of `width` cells and the union-find and the
  /// liberty table have one entry per cell.
  predicate Consistent(g: GameState)
  {
    && IsGrid(g.cells, g.width, g.height)
    && ValidForest(g.forest)
    && |g.forest.parent| == g.width * g.height
    && |g.libs| == g.width * g.height
  }

  /// The parts of the state the neighbour visits never touch.
  predicate SameFrame(g: GameState, h: GameState)
  {
    && h.width == g.width && h.height == g.height
    && h.turn == g.turn && h.moveNumber == g.moveNumber && h.gameOver == g.gameOver
  }

  /// `Game::new_game(width, height)`: an empty board, a discrete union-find
  /// of `width * height` nodes with no liberties, Black to move, no moves yet.
  function NewGameState(width: nat, height: nat): (g: GameState)
    ensures Consistent(g) && g.width == width && g.height == height
    ensures forall r, c :: 0 <= r < height && 0 <= c < width ==> g.cells[r][c] == Empty
    ensures forall i :: 0 <= i < width * height ==> Root(g.forest.parent, g.forest.rank, i) == i
    ensures g.turn && g.moveNumber == 0 && !g.gameOver
  {
    NewForestIsDiscrete(width * height);
    GameState(Filled(width, height, Empty), width, height, NewForest(width * height),
              seq(width * height, _ => {}), true, 0, false)
  }

  /// A friendly neighbour at `adjIdx`: `union(move_index, adjacent_index)`.
  function JoinStep(g: GameState, mvIdx: nat, adjIdx: nat): (res: GameState)
    requires Consistent(g) && mvIdx < g.width * g.height && adjIdx < g.width * g.height
    ensures Consistent(res) && SameFrame(g, res) && res.cells == g.cells && res.libs == g.libs
  {
    UnionRoots(g.forest, mvIdx, adjIdx);
    g.(forest := Unite(g.forest, mvIdx, adjIdx))
  }

  /// The root of the group holding the cell at `(row, col)`: the node whose
  /// liberty set stands for the whole chain.
  function ChainRoot(g: GameState, row: nat, col: nat): (root: nat)
    requires Consistent(g) && row < g.height && col < g.width
    ensures root < |g.libs| && g.forest.parent[root] == root
  {
    FlatIndexInverse(row, col, g.width, g.height);
    Root(g.forest.parent, g.forest.rank, FlatIndex(row, col, g.width))
  }

  /// An enemy neighbour at `(adjRow, adjCol)`: the move's index leaves the
  /// liberties of that chain's root, and the neighbour's cell is cleared when
  /// the root is left with none.
  function PressStep(g: GameState, mvIdx: nat, adjRow: nat, adjCol: nat): (res: GameState)
    requires Consistent(g) && mvIdx < g.width * g.height && adjRow < g.height && adjCol < g.width
    ensures Consistent(res) && SameFrame(g, res) && SameRoots(g.forest, res.forest)
    ensures var root := ChainRoot(g, adjRow, adjCol);
      && res.libs[root] == g.libs[root] - {mvIdx}
      && (forall k :: 0 <= k < |g.libs| && k != root ==> res.libs[k] == g.libs[k])
      && (res.cells[adjRow][adjCol] == Empty <==> (res.libs[root] == {} || g.cells[adjRow][adjCol] == Empty))
    ensures forall r, c :: 0 <= r < g.height && 0 <= c < g.width && (r, c) != (adjRow, adjCol) ==>
      res.cells[r][c] == g.cells[r][c]
  {
    FlatIndexInverse(adjRow, adjCol, g.width, g.height);
    var adjIdx := FlatIndex(adjRow, adjCol, g.width);
    var removed := RemovedLiberty(g.forest, g.libs, adjIdx, mvIdx);
    var query := OutOfLiberties(removed.forest, removed.libs, adjIdx);
    g.(forest := query.0, libs := removed.libs,
       cells := if query.1 then SetCell(g.cells, adjRow, adjCol, Empty) else g.cells)
  }

  /// One pass of the `update_board` loop body for candidate `a` of a move of
  /// `stone` at flat index `mvIdx`.
  function VisitAdjacent(g: GameState, mvIdx: nat, stone: Stone, a: Adjacent): (res: GameState)
    requires Consistent(g) && mvIdx < g.width * g.height && stone != Empty
    ensures Consistent(res) && SameFrame(g, res)
  {
    if !Accepted(a, g.width, g.height) then g
    else
      var adjRow := a.row.value;
      var adjCol := a.col.value;
      var existing := g.cells[adjRow][adjCol];
      if existing == stone then
        FlatIndexInverse(adjRow, adjCol, g.width, g.height);
        JoinStep(g, mvIdx, FlatIndex(adjRow, adjCol, g.width))
      else if existing == Opponent(stone).value then PressStep(g, mvIdx, adjRow, adjCol)
      else g
  }

  /// The whole `update_board` loop: the candidates visited in order.
  function VisitAll(g: GameState, mvIdx: nat, stone: Stone, adjs: seq<Adjacent>): (res: GameState)
    requires Consistent(g) && mvIdx < g.width * g.height && stone != Empty
    ensures Consistent(res) && SameFrame(g, res)
    decreases |adjs|
  {
    if adjs == [] then g
    else
      var next := VisitAdjacent(g, mvIdx, stone, adjs[0]);
      VisitAll(next, mvIdx, stone, adjs[1..])
  }

  /// The first half of `make_move` on an empty target: the counter grows
  /// and the move's liberty list is recorded at its own index.
  function Prepared(g: GameState, row: nat, col: nat): (res: GameState)
    requires Consistent(g) && row < g.height && col < g.width
    ensures Consistent(res) && FlatIndex(row, col, g.width) < g.width * g.height
    ensures res.cells == g.cells && res.forest == g.forest && res.turn == g.turn
    ensures res.width == g.width && res.height == g.height && res.gameOver == g.gameOver
  {
    FlatIndexInverse(row, col, g.width, g.height);
    g.(moveNumber := g.moveNumber + 1,
       libs := InitLiberties(g.libs, FlatIndex(row, col, g.width), LibertyList((row, col), g.width, g.height)))
  }

  /// `make_move(row, col)`: an occupied target changes nothing; otherwise the
  /// counter grows, the move's liberties are recorded, the neighbours are
  /// visited, the stone is placed and the turn passes.
  function MakeMoveSpec(g: GameState, row: nat, col: nat): (res: GameState)
    requires Consistent(g) && row < g.height && col < g.width
    ensures Consistent(res) && res.width == g.width && res.height == g.height && res.gameOver == g.gameOver
  {
    if g.cells[row][col] != Empty then g
    else
      var stn := ToPlay(g.turn);
      var g2 := VisitAll(Prepared(g, row, col), FlatIndex(row, col, g.width), stn, Adjacencies((row, col)));
      g2.(cells := SetCell(g2.cells, row, col, stn), turn := !g2.turn)
  }

  /// A move action names a cell of the board (indexing outside it panics).
  predicate OnBoard(action: UserAction, width: nat, height: nat)
  {
    action.Move? ==> action.row < height && action.col < width
  }

  /// `update`: one user action.
  function UpdateSpec(g: GameState, action: UserAction): (res: GameState)
    requires Consistent(g) && OnBoard(action, g.width, g.height)
    ensures Consistent(res) && res.width == g.width && res.height == g.height
  {
    match action
    case Move(row, col) => MakeMoveSpec(g, row, col)
    case Quit => g.(gameOver := true)
    case Noop => g
  }

  predicate AllOnBoard(inputs: seq<UserAction>, width: nat, height: nat)
  {
    forall k :: 0 <= k < |inputs| ==> OnBoard(inputs[k], width, height)
  }

  /// `start_game`: actions are taken one after another until the game is
  /// over; running out of input also ends the loop.
  function Run(g: GameState, inputs: seq<UserAction>): (res: GameState)
    requires Consistent(g) && AllOnBoard(inputs, g.width, g.height)
    ensures Consistent(res) && res.width == g.width && res.height == g.height
    decreases |inputs|
  {
    if g.gameOver || inputs == [] then g
    else Run(UpdateSpec(g, inputs[0]), inputs[1..])
  }

  /// The controller object: a board, the union-find with its liberty table,
  /// and the three scalars the source keeps on `Game`.
  class Game {
    const board: GridBoard.Board
    const stoneGroups: UnionFind
    const liberties: LibertyTable
    var turn: bool
    var moveNumber: nat
    var gameOver: bool

    ghost predicate Valid()
      reads this, board, stoneGroups, liberties
    {
      && board.Valid()
      && stoneGroups.Valid()
      && |stoneGroups.parent| == board.width * board.height
      && |liberties.sets| == board.width * board.height
    }

    function State(): GameState
      reads this, board, stoneGroups, liberties
    {
      GameState(board.state, board.width, board.height, stoneGroups.Model(), liberties.sets,
                turn, moveNumber, gameOver)
    }

    /// `Game::new_game(width, height)`.
    constructor NewGame(width: nat, height: nat)
      ensures Valid() && State() == NewGameState(width, height)
      ensures fresh(board) && fresh(stoneGroups) && fresh(liberties)
    {
      board := new GridBoard.Board(width, height);
      stoneGroups := new UnionFind(width * height);
      liberties := new LibertyTable(width * height);
      turn := true;
      moveNumber := 0;
      gameOver := false;
    }

    /// `is_valid_move`: the target cell is empty.
    predicate IsValidMove(row: nat, col: nat)
      reads this, board
      requires board.Valid() && row < board.height && col < board.width
    {
      board.state[row][col] == Empty
    }

    /// `create_libs(pos)`: the in-bounds neighbour indices become the
    /// liberty set of the move's own index.
    method CreateLibs(pos: Pos)
      requires Valid() && InBounds(pos, board.width, board.height)
      modifies liberties
      ensures Valid()
      ensures FlatIndex(pos.0, pos.1, board.width) < |old(liberties.sets)|
      ensures liberties.sets ==
        InitLiberties(old(liberties.sets), FlatIndex(pos.0, pos.1, board.width),
                      LibertyList(pos, board.width, board.height))
    {
      var (row, col) := pos;
      var adjs := Adjacencies(pos);
      var libs: seq<nat> := [];
      for k := 0 to 4
        invariant liberties.sets == old(liberties.sets)
        invariant libs == FlatIndices(NeighbourCells(adjs[..k], board.width, board.height), board.width)
      {
        ghost var seen := NeighbourCells(adjs[..k], board.width, board.height);
        NeighbourCellsExtend(adjs, k, board.width, board.height);
        var a := adjs[k];
        if a.row.Some? && a.col.Some? {
          var adjRow, adjCol := a.row.value, a.col.value;
          if !(adjRow >= board.height || adjCol >= board.width) {
            FlatIndicesSnoc(seen, (adjRow, adjCol), board.width);
            libs := libs + [board.IndexOfPos((adjRow, adjCol))];
          }
        }
      }
      assert adjs[..4] == adjs;
      FlatIndexInverse(row, col, board.width, board.height);
      liberties.InitializeLibertiesOfPos(board.IndexOfPos(pos), libs);
    }

    /// The enemy branch of the `update_board` loop body.
    method PressEnemy(moveIndex: nat, adjRow: nat, adjCol: nat)
      requires Valid() && moveIndex < board.width * board.height
      requires adjRow < board.height && adjCol < board.width
      modifies board, stoneGroups, liberties
      ensures Valid() && State() == PressStep(old(State()), moveIndex, adjRow, adjCol)
    {
      FlatIndexInverse(adjRow, adjCol, board.width, board.height);
      var adjacentIndex := board.IndexOfPos((adjRow, adjCol));
      liberties.RemoveLibertyFromChain(stoneGroups, adjacentIndex, moveIndex);
      var dead := liberties.NoLiberties(stoneGroups, adjacentIndex);
      if dead {
        board.state := board.state[adjRow := board.state[adjRow][adjCol := Empty]];
      }
    }

    /// One pass of the `update_board` loop body, for candidate `a`.
    method VisitCandidate(pos: Pos, stone: Stone, a: Adjacent)
      requires Valid() && InBounds(pos, board.width, board.height) && stone != Empty
      requires FlatIndex(pos.0, pos.1, board.width) < board.width * board.height
      modifies board, stoneGroups, liberties
      ensures Valid()
      ensures State() == VisitAdjacent(old(State()), FlatIndex(pos.0, pos.1, board.width), stone, a)
    {
      ghost var g0 := State();
      ghost var mvIdx := FlatIndex(pos.0, pos.1, board.width);
      if a.row.Some? && a.col.Some? {
        var adjRow, adjCol := a.row.value, a.col.value;
        if !(adjRow >= board.height || adjCol >= board.width) {
          FlatIndexInverse(adjRow, adjCol, board.width, board.height);
          var moveIndex := board.IndexOfPos(pos);
          var adjacentIndex := board.IndexOfPos((adjRow, adjCol));
          var existing := board.state[adjRow][adjCol];
          if existing == stone {
            stoneGroups.Union(moveIndex, adjacentIndex);
            assert State() == JoinStep(g0, mvIdx, adjacentIndex);
          } else if existing == Opponent(stone).value {
            PressEnemy(moveIndex, adjRow, adjCol);
            assert State() == PressStep(g0, mvIdx, adjRow, adjCol);
          }
        }
      }
    }

    /// `update_board(pos, stone)`: the four candidates visited in order.
    method UpdateBoard(pos: Pos, stone: Stone)
      requires Valid() && InBounds(pos, board.width, board.height) && stone != Empty
      modifies board, stoneGroups, liberties
      ensures Valid()
      ensures FlatIndex(pos.0, pos.1, board.width) < board.width * board.height
      ensures State() == VisitAll(old(State()), FlatIndex(pos.0, pos.1, board.width), stone, Adjacencies(pos))
    {
      FlatIndexInverse(pos.0, pos.1, board.width, board.height);
      ghost var mvIdx := FlatIndex(pos.0, pos.1, board.width);
      ghost var g0 := State();
      var adjs := Adjacencies(pos);
      for k := 0 to 4
        invariant Valid()
        invariant VisitAll(State(), mvIdx, stone, adjs[k..]) == VisitAll(g0, mvIdx, stone, adjs)
      {
        assert adjs[k..][0] == adjs[k] && adjs[k..][1..] == adjs[k + 1..];
        VisitCandidate(pos, stone, adjs[k]);
      }
    }

    /// `make_move(row, col)`.
    method MakeMove(row: nat, col: nat)
      requires Valid() && row < board.height && col < board.width
      modifies this, board, stoneGroups, liberties
      ensures Valid() && State() == MakeMoveSpec(old(State()), row, col)
    {
      if !IsValidMove(row, col) {
        return;
      }
      ghost var g0 := State();
      var stn := if turn then Black else White;
      moveNumber := moveNumber + 1;
      var mv := GameMove(stn, (row, col), moveNumber);
      CreateLibs(mv.pos);
      assert State() == Prepared(g0, row, col);
      UpdateBoard(mv.pos, mv.stone);
      ghost var g2 := State();
      assert g2 == VisitAll(Prepared(g0, row, col), FlatIndex(row, col, g0.width), ToPlay(g0.turn), Adjacencies((row, col)));
      board.PlaceStone(mv);
      turn := !turn;
      assert State() == g2.(cells := SetCell(g2.cells, row, col, stn), turn := !g2.turn);
    }

    /// `update`: one action from the interface.
    method Update(action: UserAction)
      requires Valid() && OnBoard(action, board.width, board.height)
      modifies this, board, stoneGroups, liberties
      ensures Valid() && State() == UpdateSpec(old(State()), action)
    {
      match action
      case Move(row, col) => MakeMove(row, col);
      case Quit => gameOver := true;
      case Noop =>
    }

    /// `start_game`: the input stream is the sequence of actions.
    method StartGame(inputs: seq<UserAction>)
      requires Valid() && AllOnBoard(inputs, board.width, board.height)
      modifies this, board, stoneGroups, liberties
      ensures Valid() && State() == Run(old(State()), inputs)
    {
      var k := 0;
      while k < |inputs| && !gameOver
        invariant 0 <= k <= |inputs| && Valid()
        invariant Run(State(), inputs[k..]) == Run(old(State()), inputs)
      {
        assert inputs[k..][0] == inputs[k] && inputs[k..][1..] == inputs[k + 1..];
        Update(inputs[k]);
        k := k + 1;
      }
    }
  }
}
