/// The unit tests of src/game_logic/game.rs, replayed on the value model of
/// the current controller.
module ControllerScenarios {
  import opened Stones
  import opened Grids
  import opened DisjointSets
  import opened LibertyInterface
  import opened Controller
  import opened ControllerFacts

  /// The listed liberties of the corner, edge and centre points the tests
  /// play on a 3-by-3 board.
  lemma SmallBoardLibertyLists()
    ensures LibertyList((0, 0), 3, 3) == [3, 1]
    ensures LibertyList((0, 1), 3, 3) == [4, 0, 2]
    ensures LibertyList((1, 0), 3, 3) == [0, 6, 4]
    ensures LibertyList((1, 1), 3, 3) == [1, 7, 3, 5]
    ensures LibertyList((2, 2), 3, 3) == [5, 7]
  {
    CornerList();
    EdgeLists();
    CentreList();
    FarCornerList();
  }

  lemma CornerList()
    ensures LibertyList((0, 0), 3, 3) == [3, 1]
  {
  }

  lemma EdgeLists()
    ensures LibertyList((0, 1), 3, 3) == [4, 0, 2]
    ensures LibertyList((1, 0), 3, 3) == [0, 6, 4]
  {
  }

  lemma CentreList()
    ensures LibertyList((1, 1), 3, 3) == [1, 7, 3, 5]
  {
  }

  lemma FarCornerList()
    ensures LibertyList((2, 2), 3, 3) == [5, 7]
  {
  }

  /// Every node of the forest is its own root.
  predicate Discrete(g: GameState)
    requires Consistent(g)
  {
    forall i :: 0 <= i < |g.forest.parent| ==> Root(g.forest.parent, g.forest.rank, i) == i
  }

  /// A move on an empty cell of a 3-by-3 board none of whose neighbours holds
  /// a stone: the stone is placed, the turn passes, the groups stay
  /// singletons and only the move's own liberty set is written.
  lemma QuietMove(g: GameState, row: nat, col: nat)
    requires Consistent(g) && g.width == 3 && g.height == 3 && Discrete(g)
    requires row < 3 && col < 3 && g.cells[row][col] == Empty
    requires forall r, c :: 0 <= r < 3 && 0 <= c < 3 && Orthogonal((r, c), (row, col)) ==> g.cells[r][c] == Empty
    ensures var res := MakeMoveSpec(g, row, col);
      && Consistent(res) && res.width == 3 && res.height == 3 && Discrete(res)
      && res.turn == !g.turn && res.cells == SetCell(g.cells, row, col, ToPlay(g.turn))
      && res.libs == Prepared(g, row, col).libs
  {
    var res := MakeMoveSpec(g, row, col);
    MakeMoveCells(g, row, col);
    MakeMoveCaptures(g, row, col);
    GridsEqual(res.cells, SetCell(g.cells, row, col, ToPlay(g.turn)), 3, 3);
    forall k | 0 <= k < |g.libs|
      ensures res.libs[k] == Prepared(g, row, col).libs[k]
    {
      assert !EnemyNeighbourRoot(g, row, col, k);
    }
  }

  /// An empty 3-by-3 board with singleton groups and Black to move, as
  /// `Game::new_game(3, 3)` leaves it.
  predicate FreshSmallBoard(g: GameState)
  {
    && Consistent(g) && g.width == 3 && g.height == 3 && Discrete(g) && g.turn
    && forall r, c :: 0 <= r < 3 && 0 <= c < 3 ==> g.cells[r][c] == Empty
  }

  lemma NewGameIsFresh()
    ensures FreshSmallBoard(NewGameState(3, 3))
  {
  }

  /// A 3-by-3 board showing `cells`, with singleton groups and `turn` to move.
  predicate SmallBoardAt(g: GameState, cells: seq<seq<Stone>>, turn: bool)
  {
    Consistent(g) && g.width == 3 && g.height == 3 && Discrete(g) && g.turn == turn && g.cells == cells
  }

  /// The test `correct_liberty_assignments`: after Black (0, 0), White (1, 1)
  /// and Black (2, 2) on a new 3-by-3 game, the corner's liberties are 1 and
  /// 3, the centre's 1, 3, 5 and 7, and the far corner's 5 and 7.
  lemma CorrectLibertyAssignments()
    ensures var s1 := MakeMoveSpec(NewGameState(3, 3), 0, 0);
      var s2 := MakeMoveSpec(s1, 1, 1);
      var s3 := MakeMoveSpec(s2, 2, 2);
      s3.libs[0] == {1, 3} && s3.libs[4] == {1, 3, 5, 7} && s3.libs[8] == {5, 7}
  {
    NewGameIsFresh();
    CorrectLibertyAssignmentsFrom(NewGameState(3, 3));
  }

  /// The same three moves from any fresh 3-by-3 board.
  lemma CorrectLibertyAssignmentsFrom(s0: GameState)
    requires FreshSmallBoard(s0)
    ensures var s1 := MakeMoveSpec(s0, 0, 0);
      var s2 := MakeMoveSpec(s1, 1, 1);
      var s3 := MakeMoveSpec(s2, 2, 2);
      s3.libs[0] == {1, 3} && s3.libs[4] == {1, 3, 5, 7} && s3.libs[8] == {5, 7}
  {
    LibertiesFirst(s0);
    var s1 := MakeMoveSpec(s0, 0, 0);
    LibertiesSecond(s1);
    LibertiesThird(MakeMoveSpec(s1, 1, 1));
  }

  lemma LibertiesFirst(s0: GameState)
    requires FreshSmallBoard(s0)
    ensures var s1 := MakeMoveSpec(s0, 0, 0);
      SmallBoardAt(s1, Board1(), false) && s1.libs[0] == {1, 3}
  {
    CornerList();
    FirstGrid(s0.cells);
    QuietStep(s0, 0, 0, Board1());
    var s1 := MakeMoveSpec(s0, 0, 0);
    assert forall n :: n in s1.libs[0] <==> n in [3, 1];
  }

  lemma LibertiesSecond(s1: GameState)
    requires SmallBoardAt(s1, Board1(), false)
    requires s1.libs[0] == {1, 3}
    ensures var s2 := MakeMoveSpec(s1, 1, 1);
      && SmallBoardAt(s2, CentreBoard2(), true)
      && s2.libs[0] == {1, 3} && s2.libs[4] == {1, 3, 5, 7}
  {
    CentreList();
    CentreSecondGrid(s1.cells);
    QuietStep(s1, 1, 1, CentreBoard2());
    var s2 := MakeMoveSpec(s1, 1, 1);
    assert forall n :: n in s2.libs[4] <==> n in [1, 7, 3, 5];
  }

  lemma LibertiesThird(s2: GameState)
    requires SmallBoardAt(s2, CentreBoard2(), true)
    requires s2.libs[0] == {1, 3} && s2.libs[4] == {1, 3, 5, 7}
    ensures var s3 := MakeMoveSpec(s2, 2, 2);
      s3.libs[0] == {1, 3} && s3.libs[4] == {1, 3, 5, 7} && s3.libs[8] == {5, 7}
  {
    FarCornerList();
    CentreThirdGrid(s2.cells);
    QuietStep(s2, 2, 2, CentreBoard3());
    var s3 := MakeMoveSpec(s2, 2, 2);
    assert forall n :: n in s3.libs[8] <==> n in [5, 7];
  }

  /// A move on a 3-by-3 board with no occupied neighbour, given the grid it
  /// leaves: the listed liberties are recorded at the move's index and no
  /// other index changes.
  lemma QuietStep(g: GameState, row: nat, col: nat, next: seq<seq<Stone>>)
    requires Consistent(g) && g.width == 3 && g.height == 3 && Discrete(g)
    requires row < 3 && col < 3 && g.cells[row][col] == Empty
    requires forall r, c :: 0 <= r < 3 && 0 <= c < 3 && Orthogonal((r, c), (row, col)) ==> g.cells[r][c] == Empty
    requires SetCell(g.cells, row, col, ToPlay(g.turn)) == next
    ensures var res := MakeMoveSpec(g, row, col);
      && SmallBoardAt(res, next, !g.turn)
      && (forall n :: n in res.libs[FlatIndex(row, col, 3)] <==> n in LibertyList((row, col), 3, 3))
      && (forall k :: 0 <= k < 9 && k != FlatIndex(row, col, 3) ==> res.libs[k] == g.libs[k])
  {
    QuietMove(g, row, col);
  }

  // The grids of the two tests.

  function Board1(): seq<seq<Stone>>
  {
    [[Black, Empty, Empty], [Empty, Empty, Empty], [Empty, Empty, Empty]]
  }

  function CentreBoard2(): seq<seq<Stone>>
  {
    [[Black, Empty, Empty], [Empty, White, Empty], [Empty, Empty, Empty]]
  }

  function CentreBoard3(): seq<seq<Stone>>
  {
    [[Black, Empty, Empty], [Empty, White, Empty], [Empty, Empty, Black]]
  }

  function CornerBoard2(): seq<seq<Stone>>
  {
    [[Black, White, Empty], [Empty, Empty, Empty], [Empty, Empty, Empty]]
  }

  function CornerBoard3(): seq<seq<Stone>>
  {
    [[Black, White, Empty], [Empty, Empty, Empty], [Empty, Empty, Black]]
  }

  function CornerBoard4(): seq<seq<Stone>>
  {
    [[Empty, White, Empty], [White, Empty, Empty], [Empty, Empty, Black]]
  }

  lemma FirstGrid(cells: seq<seq<Stone>>)
    requires IsGrid(cells, 3, 3) && forall r, c :: 0 <= r < 3 && 0 <= c < 3 ==> cells[r][c] == Empty
    ensures SetCell(cells, 0, 0, Black) == Board1()
  {
    GridsEqual(SetCell(cells, 0, 0, Black), Board1(), 3, 3);
  }

  lemma CentreSecondGrid(cells: seq<seq<Stone>>)
    requires cells == Board1()
    ensures cells[1][1] == Empty
    ensures forall r, c :: 0 <= r < 3 && 0 <= c < 3 && Orthogonal((r, c), (1, 1)) ==> cells[r][c] == Empty
    ensures SetCell(cells, 1, 1, White) == CentreBoard2()
  {
    GridsEqual(SetCell(cells, 1, 1, White), CentreBoard2(), 3, 3);
  }

  lemma CentreThirdGrid(cells: seq<seq<Stone>>)
    requires cells == CentreBoard2()
    ensures cells[2][2] == Empty
    ensures forall r, c :: 0 <= r < 3 && 0 <= c < 3 && Orthogonal((r, c), (2, 2)) ==> cells[r][c] == Empty
    ensures SetCell(cells, 2, 2, Black) == CentreBoard3()
  {
    GridsEqual(SetCell(cells, 2, 2, Black), CentreBoard3(), 3, 3);
  }

  lemma CornerSecondGrid(cells: seq<seq<Stone>>)
    requires cells == Board1()
    ensures cells[0][1] == Empty && cells[0][0] == Black
    ensures forall r, c :: 0 <= r < 3 && 0 <= c < 3 && Orthogonal((r, c), (0, 1)) && (r, c) != (0, 0) ==>
      cells[r][c] == Empty
    ensures SetCell(SetCell(cells, 0, 1, White), 0, 0, Black) == CornerBoard2()
  {
    GridsEqual(SetCell(SetCell(cells, 0, 1, White), 0, 0, Black), CornerBoard2(), 3, 3);
  }

  lemma CornerThirdGrid(cells: seq<seq<Stone>>)
    requires cells == CornerBoard2()
    ensures cells[2][2] == Empty
    ensures forall r, c :: 0 <= r < 3 && 0 <= c < 3 && Orthogonal((r, c), (2, 2)) ==> cells[r][c] == Empty
    ensures SetCell(cells, 2, 2, Black) == CornerBoard3()
  {
    GridsEqual(SetCell(cells, 2, 2, Black), CornerBoard3(), 3, 3);
  }

  lemma CornerFourthGrid(cells: seq<seq<Stone>>)
    requires cells == CornerBoard3()
    ensures cells[1][0] == Empty && cells[0][0] == Black
    ensures forall r, c :: 0 <= r < 3 && 0 <= c < 3 && Orthogonal((r, c), (1, 0)) && (r, c) != (0, 0) ==>
      cells[r][c] == Empty
    ensures SetCell(SetCell(cells, 1, 0, White), 0, 0, Empty) == CornerBoard4()
  {
    GridsEqual(SetCell(SetCell(cells, 1, 0, White), 0, 0, Empty), CornerBoard4(), 3, 3);
  }

  /// The test `dead_corner_stone`: Black (0, 0), White (0, 1), Black (2, 2)
  /// and White (1, 0) on a new 3-by-3 game. The last move takes the corner
  /// stone's final liberty, so the corner is cleared and the board is left
  /// with the two White stones and the far Black one.
  lemma DeadCornerStone()
    ensures var s1 := MakeMoveSpec(NewGameState(3, 3), 0, 0);
      var s2 := MakeMoveSpec(s1, 0, 1);
      var s3 := MakeMoveSpec(s2, 2, 2);
      var s4 := MakeMoveSpec(s3, 1, 0);
      s4.cells == [[Empty, White, Empty], [White, Empty, Empty], [Empty, Empty, Black]]
  {
    NewGameIsFresh();
    DeadCornerStoneFrom(NewGameState(3, 3));
  }

  /// The same four moves from any fresh 3-by-3 board.
  lemma DeadCornerStoneFrom(s0: GameState)
    requires FreshSmallBoard(s0)
    ensures var s1 := MakeMoveSpec(s0, 0, 0);
      var s2 := MakeMoveSpec(s1, 0, 1);
      var s3 := MakeMoveSpec(s2, 2, 2);
      var s4 := MakeMoveSpec(s3, 1, 0);
      s4.cells == [[Empty, White, Empty], [White, Empty, Empty], [Empty, Empty, Black]]
  {
    LibertiesFirst(s0);
    var s1 := MakeMoveSpec(s0, 0, 0);
    CornerSecond(s1);
    var s2 := MakeMoveSpec(s1, 0, 1);
    CornerThird(s2);
    CornerFourth(MakeMoveSpec(s2, 2, 2));
  }

  lemma CornerSecond(s1: GameState)
    requires SmallBoardAt(s1, Board1(), false)
    requires s1.libs[0] == {1, 3}
    ensures var s2 := MakeMoveSpec(s1, 0, 1);
      SmallBoardAt(s2, CornerBoard2(), true) && s2.libs[0] == {3}
  {
    CornerSecondGrid(s1.cells);
    assert s1.libs[0] - {1} == {3};
    EnemyStep(s1, 0, 1, 0, 0, Black, CornerBoard2());
  }

  lemma CornerThird(s2: GameState)
    requires SmallBoardAt(s2, CornerBoard2(), true)
    requires s2.libs[0] == {3}
    ensures var s3 := MakeMoveSpec(s2, 2, 2);
      SmallBoardAt(s3, CornerBoard3(), false) && s3.libs[0] == {3}
  {
    CornerThirdGrid(s2.cells);
    QuietStep(s2, 2, 2, CornerBoard3());
  }

  lemma CornerFourth(s3: GameState)
    requires SmallBoardAt(s3, CornerBoard3(), false)
    requires s3.libs[0] == {3}
    ensures MakeMoveSpec(s3, 1, 0).cells == CornerBoard4()
  {
    CornerFourthGrid(s3.cells);
    assert s3.libs[0] - {3} == {};
    EnemyStep(s3, 1, 0, 0, 0, Empty, CornerBoard4());
  }

  /// `EnemyMove` given what the enemy cell is left holding and the grid the
  /// move leaves.
  lemma EnemyStep(g: GameState, row: nat, col: nat, er: nat, ec: nat, left: Stone, next: seq<seq<Stone>>)
    requires Consistent(g) && g.width == 3 && g.height == 3 && Discrete(g)
    requires row < 3 && col < 3 && g.cells[row][col] == Empty
    requires er < 3 && ec < 3 && Orthogonal((er, ec), (row, col)) && g.cells[er][ec] == Opponent(ToPlay(g.turn)).value
    requires forall r, c :: 0 <= r < 3 && 0 <= c < 3 && Orthogonal((r, c), (row, col)) && (r, c) != (er, ec) ==>
      g.cells[r][c] == Empty
    requires left == if g.libs[FlatIndex(er, ec, 3)] - {FlatIndex(row, col, 3)} == {} then Empty else g.cells[er][ec]
    requires SetCell(SetCell(g.cells, row, col, ToPlay(g.turn)), er, ec, left) == next
    ensures var res := MakeMoveSpec(g, row, col);
      && SmallBoardAt(res, next, !g.turn)
      && res.libs[FlatIndex(er, ec, 3)] == g.libs[FlatIndex(er, ec, 3)] - {FlatIndex(row, col, 3)}
  {
    EnemyMove(g, row, col, er, ec);
  }

  /// A move on a 3-by-3 board whose only occupied neighbour is one enemy
  /// stone at `(er, ec)` in a singleton group: the move's index leaves that
  /// stone's liberties, the stone is cleared exactly when none are left, and
  /// nothing else on the board changes.
  lemma EnemyMove(g: GameState, row: nat, col: nat, er: nat, ec: nat)
    requires Consistent(g) && g.width == 3 && g.height == 3 && Discrete(g)
    requires row < 3 && col < 3 && g.cells[row][col] == Empty
    requires er < 3 && ec < 3 && Orthogonal((er, ec), (row, col)) && g.cells[er][ec] == Opponent(ToPlay(g.turn)).value
    requires forall r, c :: 0 <= r < 3 && 0 <= c < 3 && Orthogonal((r, c), (row, col)) && (r, c) != (er, ec) ==>
      g.cells[r][c] == Empty
    ensures var res := MakeMoveSpec(g, row, col);
      var mvIdx := FlatIndex(row, col, 3);
      var enemyIdx := FlatIndex(er, ec, 3);
      && Consistent(res) && res.width == 3 && res.height == 3 && Discrete(res) && res.turn == !g.turn
      && res.libs[enemyIdx] == g.libs[enemyIdx] - {mvIdx}
      && res.cells == SetCell(SetCell(g.cells, row, col, ToPlay(g.turn)), er, ec,
                              if res.libs[enemyIdx] == {} then Empty else g.cells[er][ec])
  {
    var res := MakeMoveSpec(g, row, col);
    var stn := ToPlay(g.turn);
    var mvIdx := FlatIndex(row, col, 3);
    var enemyIdx := FlatIndex(er, ec, 3);
    assert mvIdx != enemyIdx;
    assert ChainRoot(g, er, ec) == enemyIdx by {
      FlatIndexInverse(er, ec, 3, 3);
    }
    assert res.libs[enemyIdx] == g.libs[enemyIdx] - {mvIdx}
              && (res.cells[er][ec] == Empty <==> res.libs[enemyIdx] == {})
              && Discrete(res) by {
      MakeMoveCaptures(g, row, col);
    }
    var left := if res.libs[enemyIdx] == {} then Empty else g.cells[er][ec];
    assert res.cells[er][ec] == left && res.turn == !g.turn by {
      MakeMoveCells(g, row, col);
    }
    EnemyCells(g, row, col, er, ec, left);
  }

  /// The grid after a move whose only occupied neighbour is the enemy stone
  /// at `(er, ec)`, given what that cell is left holding.
  lemma EnemyCells(g: GameState, row: nat, col: nat, er: nat, ec: nat, left: Stone)
    requires Consistent(g) && g.width == 3 && g.height == 3
    requires row < 3 && col < 3 && g.cells[row][col] == Empty
    requires er < 3 && ec < 3 && (er, ec) != (row, col)
    requires forall r, c :: 0 <= r < 3 && 0 <= c < 3 && Orthogonal((r, c), (row, col)) && (r, c) != (er, ec) ==>
      g.cells[r][c] == Empty
    requires MakeMoveSpec(g, row, col).cells[er][ec] == left
    ensures MakeMoveSpec(g, row, col).cells == SetCell(SetCell(g.cells, row, col, ToPlay(g.turn)), er, ec, left)
  {
    var res := MakeMoveSpec(g, row, col);
    var expected := SetCell(SetCell(g.cells, row, col, ToPlay(g.turn)), er, ec, left);
    MakeMoveCells(g, row, col);
    assert forall r, c :: 0 <= r < 3 && 0 <= c < 3 ==> res.cells[r][c] == expected[r][c];
    GridsEqual(res.cells, expected, 3, 3);
  }
}
