/// The controller of the legacy engine (src/game.rs): a chain-list board,
/// whose turn it is, the move counter and the game-over flag. Every move is
/// accepted, without an occupancy check: the stone goes down, the chains are
/// updated, dead chains are swept, and the turn passes.
module LegacyGame {
  import opened Stones
  import opened Grids
  import opened ChainValues
  import opened LegacyBoard

  /// What the legacy user interface hands to `update`.
  datatype UserAction = Move(row: nat, col: nat) | Quit

  /// The observable state of a legacy game.
  datatype GameState = GameState(
    cells: seq<seq<Stone>>, chains: seq<ChainValue>, width: nat, height: nat,
    turn: bool, moveNumber: nat, gameOver: bool)

  predicate Consistent(g: GameState)
  {
    IsGrid(g.cells, g.width, g.height) && GroupsOnBoard(g.chains, g.width, g.height)
  }

  /// `new_game(width, height, ui)`.
  function NewGameState(width: nat, height: nat): (g: GameState)
    ensures Consistent(g) && g.width == width && g.height == height
    ensures forall r, c :: 0 <= r < height && 0 <= c < width ==> g.cells[r][c] == Empty
    ensures g.chains == [] && g.turn && g.moveNumber == 0 && !g.gameOver
  {
    GameState(Filled(width, height, Empty), [], width, height, true, 0, false)
  }

  /// `update_board_state(mv)` on values: the chains after placing the stone,
  /// and the grid after clearing every dead chain.
  function BoardAfter(cells: seq<seq<Stone>>, chains: seq<ChainValue>, width: nat, height: nat, mv: GameMove)
    : (r: (seq<seq<Stone>>, seq<ChainValue>))
    requires IsGrid(cells, width, height) && GroupsOnBoard(chains, width, height) && InBounds(mv.pos, width, height)
    ensures IsGrid(r.0, width, height) && GroupsOnBoard(r.1, width, height)
  {
    var placed := SetCell(cells, mv.pos.0, mv.pos.1, mv.stone);
    var libs := LibertiesAround(placed, width, height, mv.pos);
    var chains' := PlacedChains(chains, mv, libs);
    ListedOnBoard(chains, mv, libs, width, height);
    MergedOnBoard(Listed(chains, mv, libs), mv.pos, width, height);
    (Swept(placed, width, height, DeadStones(chains')), chains')
  }

  /// The move record `make_move(row, col)` builds.
  function MoveOf(g: GameState, row: nat, col: nat): GameMove
  {
    GameMove(ToPlay(g.turn), (row, col), g.moveNumber + 1)
  }

  /// `make_move(row, col)`.
  function MakeMoveSpec(g: GameState, row: nat, col: nat): (r: GameState)
    requires Consistent(g) && InBounds((row, col), g.width, g.height)
    ensures Consistent(r) && r.width == g.width && r.height == g.height
  {
    var b := BoardAfter(g.cells, g.chains, g.width, g.height, MoveOf(g, row, col));
    g.(cells := b.0, chains := b.1, turn := !g.turn, moveNumber := g.moveNumber + 1)
  }

  predicate OnBoard(action: UserAction, width: nat, height: nat)
  {
    action.Move? ==> InBounds((action.row, action.col), width, height)
  }

  /// `update`: one user action.
  function UpdateSpec(g: GameState, action: UserAction): (r: GameState)
    requires Consistent(g) && OnBoard(action, g.width, g.height)
    ensures Consistent(r) && r.width == g.width && r.height == g.height
  {
    match action
    case Move(row, col) => MakeMoveSpec(g, row, col)
    case Quit => g.(gameOver := true)
  }

  predicate AllOnBoard(inputs: seq<UserAction>, width: nat, height: nat)
  {
    forall k :: 0 <= k < |inputs| ==> OnBoard(inputs[k], width, height)
  }

  /// `start_game`: actions are taken one after another until the game is
  /// over; running out of input also ends the loop.
  function Run(g: GameState, inputs: seq<UserAction>): (r: GameState)
    requires Consistent(g) && AllOnBoard(inputs, g.width, g.height)
    ensures Consistent(r) && r.width == g.width && r.height == g.height
    decreases |inputs|
  {
    if g.gameOver || inputs == [] then g
    else Run(UpdateSpec(g, inputs[0]), inputs[1..])
  }

  /// Every move is accepted, even onto an occupied point: the counter goes up
  /// by one, the turn passes, the game-over flag stays. The point holds the
  /// mover's stone unless a dead chain holds it, and every other point keeps
  /// its stone unless a dead chain holds it.
  lemma MakeMoveOutcome(g: GameState, row: nat, col: nat)
    requires Consistent(g) && InBounds((row, col), g.width, g.height)
    ensures var r := MakeMoveSpec(g, row, col);
      && r.moveNumber == g.moveNumber + 1 && r.turn == !g.turn && r.gameOver == g.gameOver
      && r.cells[row][col] == (if (row, col) in DeadStones(r.chains) then Empty else ToPlay(g.turn))
      && (forall i, j :: 0 <= i < g.height && 0 <= j < g.width && (i, j) != (row, col) ==>
            r.cells[i][j] == (if (i, j) in DeadStones(r.chains) then Empty else g.cells[i][j]))
  {
  }

  /// A stone played on a point no chain held ends up in exactly one chain,
  /// of its colour, and the stone stays on the board exactly when that
  /// chain still has a liberty.
  lemma MoveSurvivesUnlessDead(g: GameState, row: nat, col: nat)
    requires Consistent(g) && InBounds((row, col), g.width, g.height)
    requires forall k :: 0 <= k < |g.chains| ==> (row, col) !in g.chains[k].group
    ensures var r := MakeMoveSpec(g, row, col);
      && |r.chains| > 0 && Holding(r.chains, (row, col)) == [Last(r.chains)]
      && Last(r.chains).color == ToPlay(g.turn)
      && (r.cells[row][col] == Empty <==> IsDeadChain(Last(r.chains)))
      && (r.cells[row][col] != Empty ==> r.cells[row][col] == ToPlay(g.turn))
  {
    var mv := MoveOf(g, row, col);
    var placed := SetCell(g.cells, row, col, mv.stone);
    var libs := LibertiesAround(placed, g.width, g.height, mv.pos);
    PlacedStoneJoinsOneChain(g.chains, mv, libs);
    var r := MakeMoveSpec(g, row, col);
    assert r.chains == PlacedChains(g.chains, mv, libs);
    MakeMoveOutcome(g, row, col);
    SoleHolderDeadStones(r.chains, (row, col));
  }

  /// When one chain holds a point, the point is among the dead stones
  /// exactly when that chain has no liberty.
  lemma SoleHolderDeadStones(chains: seq<ChainValue>, pos: Pos)
    requires |chains| > 0 && Holding(chains, pos) == [Last(chains)]
    ensures pos in DeadStones(chains) <==> IsDeadChain(Last(chains))
  {
    var last := Last(chains);
    HoldingComplete(chains, pos);
    assert last in Holding(chains, pos);
    if IsDeadChain(last) {
      assert chains[|chains| - 1] == last;
    } else {
      forall k | 0 <= k < |chains| && IsDeadChain(chains[k])
        ensures pos !in chains[k].group
      {
      }
    }
  }

  lemma Parity(n: nat)
    ensures (n + 1) % 2 == 0 <==> n % 2 != 0
  {
  }

  /// Without a Quit every action is a move: each one counts and passes the
  /// turn, so the turn after the run depends only on how many moves were
  /// played.
  lemma {:induction false} RunCountsMoves(g: GameState, inputs: seq<UserAction>)
    requires Consistent(g) && AllOnBoard(inputs, g.width, g.height)
    requires !g.gameOver && Quit !in inputs
    ensures var r := Run(g, inputs);
      && r.moveNumber == g.moveNumber + |inputs|
      && r.turn == (if |inputs| % 2 == 0 then g.turn else !g.turn)
      && !r.gameOver
    decreases |inputs|
  {
    if inputs != [] {
      assert inputs[0] in inputs;
      var row, col := inputs[0].row, inputs[0].col;
      MakeMoveOutcome(g, row, col);
      var g1 := UpdateSpec(g, inputs[0]);
      assert g1 == MakeMoveSpec(g, row, col);
      assert forall a :: a in inputs[1..] ==> a in inputs;
      RunCountsMoves(g1, inputs[1..]);
      Parity(|inputs| - 1);
    }
  }

  /// The game is over after a run exactly when it was over before or the
  /// input held a Quit; once over, nothing changes.
  lemma {:induction false} RunEndsOnQuit(g: GameState, inputs: seq<UserAction>)
    requires Consistent(g) && AllOnBoard(inputs, g.width, g.height)
    ensures g.gameOver ==> Run(g, inputs) == g
    ensures Run(g, inputs).gameOver <==> g.gameOver || Quit in inputs
    decreases |inputs|
  {
    if !g.gameOver && inputs != [] {
      RunEndsOnQuit(UpdateSpec(g, inputs[0]), inputs[1..]);
      assert inputs == [inputs[0]] + inputs[1..];
    }
  }

  /// The legacy controller object.
  class Game {
    const board: LegacyBoard.Board
    var turn: bool
    var moveNumber: nat
    var gameOver: bool

    ghost predicate Valid()
      reads this, board
    {
      board.Valid()
    }

    function State(): GameState
      reads this, board
    {
      GameState(board.state, board.chains, board.width, board.height, turn, moveNumber, gameOver)
    }

    /// `Game::new_game(width, height, ui)`.
    constructor NewGame(width: nat, height: nat)
      ensures Valid() && State() == NewGameState(width, height) && fresh(board)
    {
      board := new LegacyBoard.Board(width, height);
      turn := true;
      moveNumber := 0;
      gameOver := false;
    }

    /// `make_move(row, col)`.
    method MakeMove(row: nat, col: nat)
      requires Valid() && InBounds((row, col), board.width, board.height)
      modifies this, board
      ensures Valid() && State() == MakeMoveSpec(old(State()), row, col)
    {
      ghost var g0 := State();
      var stn := if turn then Black else White;
      moveNumber := moveNumber + 1;
      var mv := GameMove(stn, (row, col), moveNumber);
      assert mv == MoveOf(g0, row, col);
      board.UpdateBoardState(mv);
      turn := !turn;

    }

    /// `update`.
    method Update(action: UserAction)
      requires Valid() && OnBoard(action, board.width, board.height)
      modifies this, board
      ensures Valid() && State() == UpdateSpec(old(State()), action)
    {
      match action
      case Move(row, col) => MakeMove(row, col);
      case Quit => gameOver := true;
    }

    /// `start_game`: the input stream is the sequence of actions.
    method StartGame(inputs: seq<UserAction>)
      requires Valid() && AllOnBoard(inputs, board.width, board.height)
      modifies this, board
      ensures Valid() && State() == Run(old(State()), inputs)
    {
      var k := 0;
      while k < |inputs| && !gameOver
        invariant 0 <= k <= |inputs| && Valid()
        invariant Run(State(), inputs[k..]) == Run(old(State()), inputs)
      {
        assert inputs[k..][0] == inputs[k] && inputs[k..][1..] == inputs[k + 1..];
        Update(inputs[k]);
        k := k + 1;
      }
    }
  }
}
