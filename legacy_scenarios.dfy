/// A game of the legacy engine (src/game.rs, src/board.rs) replayed move by
/// move on a 3-by-3 board: a captured chain stays in the chain list and
/// later takes over its old point.
module LegacyScenarios {
  import opened Stones
  import opened Grids
  import opened ChainValues
  import opened LegacyBoard
  import opened LegacyGame

  /// Black (0, 0), White (0, 1), Black (2, 0), White (1, 0), Black (1, 1),
  /// White (0, 0) from a new 3-by-3 game. White's last stone is taken off
  /// the board by its own move: the only chain holding (0, 0) is the dead
  /// Black chain captured on the fourth move.
  lemma LiveStoneSwept()
    ensures var s2 := MakeMoveSpec(MakeMoveSpec(NewGameState(3, 3), 0, 0), 0, 1);
      var s4 := MakeMoveSpec(MakeMoveSpec(s2, 2, 0), 1, 0);
      var s5 := MakeMoveSpec(s4, 1, 1);
      SweptByOwnMove(s5, MakeMoveSpec(s5, 0, 0))
  {
    NewGameAt(NewGameState(3, 3));
    Replay(NewGameState(3, 3));
  }

  /// The six moves from the empty 3-by-3 board.
  lemma Replay(s0: GameState)
    requires At(s0, Grid0(), [], true)
    ensures var s2 := MakeMoveSpec(MakeMoveSpec(s0, 0, 0), 0, 1);
      var s4 := MakeMoveSpec(MakeMoveSpec(s2, 2, 0), 1, 0);
      var s5 := MakeMoveSpec(s4, 1, 1);
      SweptByOwnMove(s5, MakeMoveSpec(s5, 0, 0))
  {
    Opening(s0);
    var s2 := MakeMoveSpec(MakeMoveSpec(s0, 0, 0), 0, 1);
    Capture(s2);
    Recapture(MakeMoveSpec(MakeMoveSpec(s2, 2, 0), 1, 0));
  }

  /// White is to move in `before`, (0, 0) is empty there, and after White's
  /// stone at (0, 0) the point is empty again, the grid is unchanged, and
  /// every chain holding the point is a dead Black one.
  predicate SweptByOwnMove(before: GameState, after: GameState)
  {
    && !before.turn && ToPlay(before.turn) == White
    && IsGrid(before.cells, 3, 3) && IsGrid(after.cells, 3, 3)
    && before.cells[0][0] == Empty
    && after.cells[0][0] == Empty
    && after.cells == before.cells
    && (forall k :: 0 <= k < |after.chains| && (0, 0) in after.chains[k].group ==>
          after.chains[k].color == Black && IsDeadChain(after.chains[k]))
  }

  lemma NewGameAt(s0: GameState)
    requires s0 == NewGameState(3, 3)
    ensures At(s0, Grid0(), [], true)
  {
    GridsEqual(s0.cells, Grid0(), 3, 3);
  }

  lemma Opening(s0: GameState)
    requires At(s0, Grid0(), [], true)
    ensures At(MakeMoveSpec(MakeMoveSpec(s0, 0, 0), 0, 1), Grid2(), Chains2(), true)
  {
    Move1(s0);
    Move2(MakeMoveSpec(s0, 0, 0));
  }

  lemma Capture(s2: GameState)
    requires At(s2, Grid2(), Chains2(), true)
    ensures At(MakeMoveSpec(MakeMoveSpec(s2, 2, 0), 1, 0), Grid4(), Chains4(), true)
  {
    Move3(s2);
    Move4(MakeMoveSpec(s2, 2, 0));
  }

  lemma Recapture(s4: GameState)
    requires At(s4, Grid4(), Chains4(), true)
    ensures var s5 := MakeMoveSpec(s4, 1, 1);
      SweptByOwnMove(s5, MakeMoveSpec(s5, 0, 0))
  {
    Move5(s4);
    Move6(MakeMoveSpec(s4, 1, 1));
  }

  /// The sixth move with captured chains pruned before the placement: White's
  /// stone forms the only chain holding (0, 0), breathes through (1, 0),
  /// and the sweep leaves it on the board.
  lemma PrunedSixthMoveKeepsStone()
    ensures var mv := GameMove(White, (0, 0), 6);
      var placed := Placed6();
      var r := PlacedChainsPruned(Chains5(), mv, LibertiesAround(placed, 3, 3, (0, 0)));
      && Holding(r, (0, 0)) == [ChainValue({(0, 0)}, {(1, 0)}, White)]
      && DeadStones(r) == {}
      && Swept(placed, 3, 3, DeadStones(r)) == placed
  {
    var mv := GameMove(White, (0, 0), 6);
    var placed := Placed6();
    GridMove6(Grid5());
    PrunedChains6(mv);
    SweptNothing(placed, 3, 3);
  }

  /// Sweeping with no dead stones leaves the grid as it is.
  lemma SweptNothing(cells: seq<seq<Stone>>, width: nat, height: nat)
    requires IsGrid(cells, width, height)
    ensures Swept(cells, width, height, {}) == cells
  {
    GridsEqual(Swept(cells, width, height, {}), cells, width, height);
  }

  /// With the dead chains pruned the White newcomer is the only holder of
  /// (0, 0) and stays in the list.
  lemma PrunedChains6(mv: GameMove)
    requires mv.stone == White && mv.pos == (0, 0)
    ensures var c5, w := Chains5(), ChainValue({(0, 0)}, {(1, 0)}, White);
      && PlacedChainsPruned(c5, mv, [(1, 0)]) == [c5[1], c5[2], c5[4], w]
      && Holding([c5[1], c5[2], c5[4], w], (0, 0)) == [w]
      && DeadStones([c5[1], c5[2], c5[4], w]) == {}
  {
    PrunedListed(mv);
    var c5, w := Chains5(), ChainValue({(0, 0)}, {(1, 0)}, White);
    var r := [c5[1], c5[2], c5[4], w];
    assert !IsDeadChain(r[0]) && !IsDeadChain(r[1]) && !IsDeadChain(r[2]) && !IsDeadChain(r[3]);
  }

  lemma PrunedListed(mv: GameMove)
    requires mv.stone == White && mv.pos == (0, 0)
    ensures var c5, w := Chains5(), ChainValue({(0, 0)}, {(1, 0)}, White);
      && PlacedChainsPruned(c5, mv, [(1, 0)]) == [c5[1], c5[2], c5[4], w]
      && Holding([c5[1], c5[2], c5[4], w], (0, 0)) == [w]
  {
    var c5 := Chains5();
    var a := [c5[1], c5[2], c5[4]];
    var w := ChainValue({(0, 0)}, {(1, 0)}, White);
    AliveChains5();
    PrunedListedNewcomer(mv);
    PrunedNewcomer(c5, mv, [(1, 0)], a, w);
  }

  /// When no living chain holds the point and the move's chain is appended
  /// to them, the pruned placement keeps that chain as the point's only
  /// holder.
  lemma PrunedNewcomer(chains: seq<ChainValue>, mv: GameMove, libs: seq<Pos>,
                       alive: seq<ChainValue>, w: ChainValue)
    requires Alive(chains) == alive && Listed(alive, mv, libs) == alive + [w]
    requires forall k :: 0 <= k < |alive| ==> mv.pos !in alive[k].group
    requires mv.pos in w.group
    ensures PlacedChainsPruned(chains, mv, libs) == alive + [w]
    ensures Holding(alive + [w], mv.pos) == [w]
  {
    MergeKeepsNewcomer(alive, w, mv.pos);
    SoleHolderLast(alive, w, mv.pos);
  }

  /// Among the living chains nobody breathes through (0, 0): the White
  /// stone becomes a new chain at the end of the list.
  lemma PrunedListedNewcomer(mv: GameMove)
    requires mv.stone == White && mv.pos == (0, 0)
    ensures var c5 := Chains5();
      Listed([c5[1], c5[2], c5[4]], mv, [(1, 0)]) ==
        [c5[1], c5[2], c5[4], ChainValue({(0, 0)}, {(1, 0)}, White)]
    ensures forall k :: 0 <= k < 3 ==> (0, 0) !in [Chains5()[1], Chains5()[2], Chains5()[4]][k].group
  {
    var c5 := Chains5();
    var a := [c5[1], c5[2], c5[4]];
    assert TouchAll(a, mv, [(1, 0)]) == a;
    assert !Joined(a, mv);
    assert NewChain(mv, [(1, 0)]) == ChainValue({(0, 0)}, {(1, 0)}, White);
  }

  /// The living chains after the fifth move.
  lemma AliveChains5()
    ensures Alive(Chains5()) == [Chains5()[1], Chains5()[2], Chains5()[4]]
  {
    var c := Chains5();
    AlivePrefix4();
    assert c[..5] == c;
    AliveStep(c, 4);
  }

  lemma AlivePrefix1()
    ensures Alive(Chains5()[..1]) == []
  {
    var c := Chains5();
    assert c[..0] == [];
    AliveStep(c, 0);
  }

  lemma AlivePrefix2()
    ensures Alive(Chains5()[..2]) == [Chains5()[1]]
  {
    AlivePrefix1();
    AliveStep(Chains5(), 1);
  }

  lemma AlivePrefix3()
    ensures Alive(Chains5()[..3]) == [Chains5()[1], Chains5()[2]]
  {
    AlivePrefix2();
    AliveStep(Chains5(), 2);
  }

  lemma AlivePrefix4()
    ensures Alive(Chains5()[..4]) == [Chains5()[1], Chains5()[2]]
  {
    AlivePrefix3();
    AliveStep(Chains5(), 3);
  }

  lemma AliveStep(chains: seq<ChainValue>, k: nat)
    requires k < |chains|
    ensures Alive(chains[..k + 1]) == Alive(chains[..k]) + (if IsDeadChain(chains[k]) then [] else [chains[k]])
  {
    assert chains[..k + 1][..k] == chains[..k];
  }

  /// A 3-by-3 legacy game showing `cells`, holding `chains`, `turn` to move.
  predicate At(g: GameState, cells: seq<seq<Stone>>, chains: seq<ChainValue>, turn: bool)
  {
    && Consistent(g) && g.width == 3 && g.height == 3
    && g.cells == cells && g.chains == chains && g.turn == turn
  }

  /// One move, given the placed grid, the liberty list, the chain list and
  /// the swept grid it produces.
  lemma Step(g: GameState, row: nat, col: nat, placed: seq<seq<Stone>>, libs: seq<Pos>,
             chains: seq<ChainValue>, cells: seq<seq<Stone>>)
    requires Consistent(g) && InBounds((row, col), g.width, g.height)
    requires SetCell(g.cells, row, col, ToPlay(g.turn)) == placed
    requires LibertiesAround(placed, g.width, g.height, (row, col)) == libs
    requires PlacedChains(g.chains, MoveOf(g, row, col), libs) == chains
    requires Swept(placed, g.width, g.height, DeadStones(chains)) == cells
    ensures var r := MakeMoveSpec(g, row, col);
      r.cells == cells && r.chains == chains && r.turn == !g.turn
  {
  }

  /// A new chain appended to a list where no chain holds its point is left
  /// where it is by the merge.
  lemma MergeKeepsNewcomer(others: seq<ChainValue>, last: ChainValue, pos: Pos)
    requires forall k :: 0 <= k < |others| ==> pos !in others[k].group
    requires pos in last.group
    ensures Merged(others + [last], pos) == others + [last]
  {
    var l := others + [last];
    assert l[..|l| - 1] == others;
    NoneHeld(others, pos);
    NoHolderKeepsList(others, pos);
    SoleHolderLast(others, last, pos);
  }

  // The grids of the game: `GridN` after move N, `PlacedN` after move N's
  // stone is set and before the sweep.

  function Grid0(): seq<seq<Stone>>
  {
    [[Empty, Empty, Empty], [Empty, Empty, Empty], [Empty, Empty, Empty]]
  }

  function Grid1(): seq<seq<Stone>>
  {
    [[Black, Empty, Empty], [Empty, Empty, Empty], [Empty, Empty, Empty]]
  }

  function Grid2(): seq<seq<Stone>>
  {
    [[Black, White, Empty], [Empty, Empty, Empty], [Empty, Empty, Empty]]
  }

  function Grid3(): seq<seq<Stone>>
  {
    [[Black, White, Empty], [Empty, Empty, Empty], [Black, Empty, Empty]]
  }

  function Placed4(): seq<seq<Stone>>
  {
    [[Black, White, Empty], [White, Empty, Empty], [Black, Empty, Empty]]
  }

  function Grid4(): seq<seq<Stone>>
  {
    [[Empty, White, Empty], [White, Empty, Empty], [Black, Empty, Empty]]
  }

  function Placed5(): seq<seq<Stone>>
  {
    [[Empty, White, Empty], [White, Black, Empty], [Black, Empty, Empty]]
  }

  function Grid5(): seq<seq<Stone>>
  {
    [[Empty, White, Empty], [Empty, Black, Empty], [Black, Empty, Empty]]
  }

  function Placed6(): seq<seq<Stone>>
  {
    [[White, White, Empty], [Empty, Black, Empty], [Black, Empty, Empty]]
  }

  // The chain lists of the game, `ChainsN` after move N.

  function Chains1(): seq<ChainValue>
  {
    [ChainValue({(0, 0)}, {(0, 1), (1, 0)}, Black)]
  }

  function Chains2(): seq<ChainValue>
  {
    [ChainValue({(0, 0)}, {(1, 0)}, Black), ChainValue({(0, 1)}, {(0, 2), (1, 1)}, White)]
  }

  function Chains3(): seq<ChainValue>
  {
    [ChainValue({(0, 0)}, {(1, 0)}, Black), ChainValue({(0, 1)}, {(0, 2), (1, 1)}, White),
     ChainValue({(2, 0)}, {(2, 1), (1, 0)}, Black)]
  }

  /// The Black stone at (0, 0) is dead but its chain is still listed.
  function Chains4(): seq<ChainValue>
  {
    [ChainValue({(0, 0)}, {}, Black), ChainValue({(0, 1)}, {(0, 2), (1, 1)}, White),
     ChainValue({(2, 0)}, {(2, 1)}, Black), ChainValue({(1, 0)}, {(1, 1)}, White)]
  }

  /// Two dead chains are still listed.
  function Chains5(): seq<ChainValue>
  {
    [ChainValue({(0, 0)}, {}, Black), ChainValue({(0, 1)}, {(0, 2)}, White),
     ChainValue({(2, 0)}, {(2, 1)}, Black), ChainValue({(1, 0)}, {}, White),
     ChainValue({(1, 1)}, {(1, 2), (2, 1)}, Black)]
  }

  /// The White chain is gone and the dead Black chain has moved to the end.
  function Chains6(): seq<ChainValue>
  {
    [ChainValue({(0, 1)}, {(0, 2)}, White), ChainValue({(2, 0)}, {(2, 1)}, Black),
     ChainValue({(1, 0)}, {}, White), ChainValue({(1, 1)}, {(1, 2), (2, 1)}, Black),
     ChainValue({(0, 0)}, {}, Black)]
  }

  // Move 1: Black at (0, 0).

  lemma Move1(g: GameState)
    requires At(g, Grid0(), [], true)
    ensures At(MakeMoveSpec(g, 0, 0), Grid1(), Chains1(), false)
  {
    GridMove1(g.cells);
    ChainsMove1(MoveOf(g, 0, 0));
    Step(g, 0, 0, Grid1(), [(0, 1), (1, 0)], Chains1(), Grid1());
  }

  lemma GridMove1(cells: seq<seq<Stone>>)
    requires cells == Grid0()
    ensures SetCell(cells, 0, 0, Black) == Grid1()
    ensures LibertiesAround(Grid1(), 3, 3, (0, 0)) == [(0, 1), (1, 0)]
    ensures Swept(Grid1(), 3, 3, {}) == Grid1()
  {
    GridsEqual(SetCell(cells, 0, 0, Black), Grid1(), 3, 3);
    SweptNothing(Grid1(), 3, 3);
  }

  lemma ChainsMove1(mv: GameMove)
    requires mv.stone == Black && mv.pos == (0, 0)
    ensures PlacedChains([], mv, [(0, 1), (1, 0)]) == Chains1()
    ensures DeadStones(Chains1()) == {}
  {
    var c := Chains1()[0];
    assert NewChain(mv, [(0, 1), (1, 0)]) == c;
    assert Listed([], mv, [(0, 1), (1, 0)]) == [c];
    MergeKeepsNewcomer([], c, (0, 0));
  }

  // Move 2: White at (0, 1).

  lemma Move2(g: GameState)
    requires At(g, Grid1(), Chains1(), false)
    ensures At(MakeMoveSpec(g, 0, 1), Grid2(), Chains2(), true)
  {
    GridMove2(g.cells);
    ChainsMove2(MoveOf(g, 0, 1));
    Step(g, 0, 1, Grid2(), [(0, 2), (1, 1)], Chains2(), Grid2());
  }

  lemma GridMove2(cells: seq<seq<Stone>>)
    requires cells == Grid1()
    ensures SetCell(cells, 0, 1, White) == Grid2()
    ensures LibertiesAround(Grid2(), 3, 3, (0, 1)) == [(0, 2), (1, 1)]
    ensures Swept(Grid2(), 3, 3, {}) == Grid2()
  {
    GridsEqual(SetCell(cells, 0, 1, White), Grid2(), 3, 3);
    SweptNothing(Grid2(), 3, 3);
  }

  lemma ChainsMove2(mv: GameMove)
    requires mv.stone == White && mv.pos == (0, 1)
    ensures PlacedChains(Chains1(), mv, [(0, 2), (1, 1)]) == Chains2()
    ensures DeadStones(Chains2()) == {}
  {
    var libs := [(0, 2), (1, 1)];
    var c1, c2 := Chains1(), Chains2();
    assert Touch(c1[0], mv, libs) == c2[0];
    assert TouchAll(c1, mv, libs) == [c2[0]];
    assert NewChain(mv, libs) == c2[1];
    assert !Joined(c1, mv);
    assert Listed(c1, mv, libs) == [c2[0]] + [c2[1]];
    MergeKeepsNewcomer([c2[0]], c2[1], (0, 1));
    assert !IsDeadChain(c2[0]) && !IsDeadChain(c2[1]);
  }

  // Move 3: Black at (2, 0).

  lemma Move3(g: GameState)
    requires At(g, Grid2(), Chains2(), true)
    ensures At(MakeMoveSpec(g, 2, 0), Grid3(), Chains3(), false)
  {
    GridMove3(g.cells);
    ChainsMove3(MoveOf(g, 2, 0));
    Step(g, 2, 0, Grid3(), [(2, 1), (1, 0)], Chains3(), Grid3());
  }

  lemma GridMove3(cells: seq<seq<Stone>>)
    requires cells == Grid2()
    ensures SetCell(cells, 2, 0, Black) == Grid3()
    ensures LibertiesAround(Grid3(), 3, 3, (2, 0)) == [(2, 1), (1, 0)]
    ensures Swept(Grid3(), 3, 3, {}) == Grid3()
  {
    GridsEqual(SetCell(cells, 2, 0, Black), Grid3(), 3, 3);
    SweptNothing(Grid3(), 3, 3);
  }

  lemma ChainsMove3(mv: GameMove)
    requires mv.stone == Black && mv.pos == (2, 0)
    ensures PlacedChains(Chains2(), mv, [(2, 1), (1, 0)]) == Chains3()
    ensures DeadStones(Chains3()) == {}
  {
    var libs := [(2, 1), (1, 0)];
    var c2, c3 := Chains2(), Chains3();
    assert TouchAll(c2, mv, libs) == c2;
    assert NewChain(mv, libs) == c3[2];
    assert !Joined(c2, mv);
    assert Listed(c2, mv, libs) == c2 + [c3[2]];
    MergeKeepsNewcomer(c2, c3[2], (2, 0));
    assert !IsDeadChain(c3[0]) && !IsDeadChain(c3[1]) && !IsDeadChain(c3[2]);
  }

  // Move 4: White at (1, 0) takes the last liberty of the Black stone at
  // (0, 0); the sweep clears it, but its chain stays in the list.

  lemma Move4(g: GameState)
    requires At(g, Grid3(), Chains3(), false)
    ensures At(MakeMoveSpec(g, 1, 0), Grid4(), Chains4(), true)
  {
    GridMove4(g.cells);
    ChainsMove4(MoveOf(g, 1, 0));
    Step(g, 1, 0, Placed4(), [(1, 1)], Chains4(), Grid4());
  }

  lemma GridMove4(cells: seq<seq<Stone>>)
    requires cells == Grid3()
    ensures SetCell(cells, 1, 0, White) == Placed4()
    ensures LibertiesAround(Placed4(), 3, 3, (1, 0)) == [(1, 1)]
    ensures Swept(Placed4(), 3, 3, {(0, 0)}) == Grid4()
  {
    GridsEqual(SetCell(cells, 1, 0, White), Placed4(), 3, 3);
    GridsEqual(Swept(Placed4(), 3, 3, {(0, 0)}), Grid4(), 3, 3);
  }

  lemma ChainsMove4(mv: GameMove)
    requires mv.stone == White && mv.pos == (1, 0)
    ensures PlacedChains(Chains3(), mv, [(1, 1)]) == Chains4()
    ensures DeadStones(Chains4()) == {(0, 0)}
  {
    var libs := [(1, 1)];
    var c3, c4 := Chains3(), Chains4();
    var t := c4[..3];
    assert Touch(c3[0], mv, libs) == t[0];
    assert Touch(c3[1], mv, libs) == t[1];
    assert Touch(c3[2], mv, libs) == t[2];
    assert TouchAll(c3, mv, libs) == t;
    assert NewChain(mv, libs) == c4[3];
    assert !Joined(c3, mv);
    assert Listed(c3, mv, libs) == t + [c4[3]];
    assert t + [c4[3]] == c4;
    MergeKeepsNewcomer(t, c4[3], (1, 0));
    DeadStones4();
  }

  lemma DeadStones4()
    ensures DeadStones(Chains4()) == {(0, 0)}
  {
    var c4 := Chains4();
    assert IsDeadChain(c4[0]) && (0, 0) in c4[0].group;
    assert forall k :: 0 <= k < |c4| && IsDeadChain(c4[k]) ==> k == 0;
  }

  // Move 5: Black at (1, 1) takes the last liberty of White's stone at
  // (1, 0); both captured chains stay in the list.

  lemma Move5(g: GameState)
    requires At(g, Grid4(), Chains4(), true)
    ensures At(MakeMoveSpec(g, 1, 1), Grid5(), Chains5(), false)
  {
    GridMove5(g.cells);
    ChainsMove5(MoveOf(g, 1, 1));
    Step(g, 1, 1, Placed5(), [(1, 2), (2, 1)], Chains5(), Grid5());
  }

  lemma GridMove5(cells: seq<seq<Stone>>)
    requires cells == Grid4()
    ensures SetCell(cells, 1, 1, Black) == Placed5()
    ensures LibertiesAround(Placed5(), 3, 3, (1, 1)) == [(1, 2), (2, 1)]
    ensures Swept(Placed5(), 3, 3, {(0, 0), (1, 0)}) == Grid5()
  {
    GridsEqual(SetCell(cells, 1, 1, Black), Placed5(), 3, 3);
    GridsEqual(Swept(Placed5(), 3, 3, {(0, 0), (1, 0)}), Grid5(), 3, 3);
  }

  lemma ChainsMove5(mv: GameMove)
    requires mv.stone == Black && mv.pos == (1, 1)
    ensures PlacedChains(Chains4(), mv, [(1, 2), (2, 1)]) == Chains5()
    ensures DeadStones(Chains5()) == {(0, 0), (1, 0)}
  {
    var libs := [(1, 2), (2, 1)];
    var c4, c5 := Chains4(), Chains5();
    var t := c5[..4];
    assert Touch(c4[0], mv, libs) == t[0];
    assert Touch(c4[1], mv, libs) == t[1];
    assert Touch(c4[2], mv, libs) == t[2];
    assert Touch(c4[3], mv, libs) == t[3];
    assert TouchAll(c4, mv, libs) == t;
    assert NewChain(mv, libs) == c5[4];
    assert !Joined(c4, mv);
    assert t + [c5[4]] == c5;
    MergeKeepsNewcomer(t, c5[4], (1, 1));
    DeadStones5();
  }

  lemma DeadStones5()
    ensures DeadStones(Chains5()) == {(0, 0), (1, 0)}
  {
    var c5 := Chains5();
    assert IsDeadChain(c5[0]) && (0, 0) in c5[0].group;
    assert IsDeadChain(c5[3]) && (1, 0) in c5[3].group;
    assert forall k :: 0 <= k < |c5| && IsDeadChain(c5[k]) ==> k == 0 || k == 3;
  }

  // Move 6: White plays on the point the captured Black chain once held.
  // Nobody breathes through it, so a new White chain is appended; the merge
  // takes the dead Black chain as head, fails to extend it with the White
  // one and drops the White chain; the sweep then clears the point White
  // just took.

  lemma Move6(g: GameState)
    requires At(g, Grid5(), Chains5(), false)
    ensures At(MakeMoveSpec(g, 0, 0), Grid5(), Chains6(), true)
    ensures SweptByOwnMove(g, MakeMoveSpec(g, 0, 0))
  {
    GridMove6(g.cells);
    ChainsMove6(MoveOf(g, 0, 0));
    Step(g, 0, 0, Placed6(), [(1, 0)], Chains6(), Grid5());
    OnlyDeadBlackHolds();
  }

  lemma GridMove6(cells: seq<seq<Stone>>)
    requires cells == Grid5()
    ensures SetCell(cells, 0, 0, White) == Placed6()
    ensures LibertiesAround(Placed6(), 3, 3, (0, 0)) == [(1, 0)]
    ensures Swept(Placed6(), 3, 3, {(1, 0), (0, 0)}) == Grid5()
  {
    GridsEqual(SetCell(cells, 0, 0, White), Placed6(), 3, 3);
    GridsEqual(Swept(Placed6(), 3, 3, {(1, 0), (0, 0)}), Grid5(), 3, 3);
  }

  lemma OnlyDeadBlackHolds()
    ensures forall k :: 0 <= k < |Chains6()| && (0, 0) in Chains6()[k].group ==>
      Chains6()[k].color == Black && IsDeadChain(Chains6()[k])
  {
    var c6 := Chains6();
    assert forall k :: 0 <= k < |c6| && (0, 0) in c6[k].group ==> k == 4;
  }

  lemma ChainsMove6(mv: GameMove)
    requires mv.stone == White && mv.pos == (0, 0)
    ensures PlacedChains(Chains5(), mv, [(1, 0)]) == Chains6()
    ensures DeadStones(Chains6()) == {(1, 0), (0, 0)}
  {
    var libs := [(1, 0)];
    var c5 := Chains5();
    var w := ChainValue({(0, 0)}, {(1, 0)}, White);
    assert TouchAll(c5, mv, libs) == c5;
    assert NewChain(mv, libs) == w;
    assert !Joined(c5, mv);
    assert Listed(c5, mv, libs) == c5 + [w];
    MergeDropsNewcomer(w);
    DeadStones6();
  }

  lemma DeadStones6()
    ensures DeadStones(Chains6()) == {(1, 0), (0, 0)}
  {
    var c6 := Chains6();
    assert IsDeadChain(c6[2]) && (1, 0) in c6[2].group;
    assert IsDeadChain(c6[4]) && (0, 0) in c6[4].group;
    assert forall k :: 0 <= k < |c6| && IsDeadChain(c6[k]) ==> k == 2 || k == 4;
  }

  /// The list the sixth move hands to the merge.
  function Listed6(): seq<ChainValue>
  {
    Chains5() + [ChainValue({(0, 0)}, {(1, 0)}, White)]
  }

  /// The dead Black chain still holds (0, 0), comes first among its holders
  /// and cannot be extended with the White newcomer, which is dropped.
  lemma MergeDropsNewcomer(w: ChainValue)
    requires w == ChainValue({(0, 0)}, {(1, 0)}, White)
    ensures Merged(Chains5() + [w], (0, 0)) == Chains6()
  {
    var c5 := Chains5();
    HoldingListed6();
    assert Listed6() == c5 + [w];
    assert Absorb(c5[0], [w]) == c5[0];
  }

  lemma HoldingListed6()
    ensures Holding(Listed6(), (0, 0)) == [Chains5()[0], Listed6()[5]]
    ensures NotHolding(Listed6(), (0, 0)) == Chains5()[1..]
  {
    var l := Listed6();
    HoldingListed6Prefix3();
    HoldingStep(l, 3, (0, 0));
    HoldingStep(l, 4, (0, 0));
    HoldingStep(l, 5, (0, 0));
    assert l[..6] == l;
    assert Chains5()[1..] == l[1..5];
  }

  lemma HoldingListed6Prefix3()
    ensures Holding(Listed6()[..3], (0, 0)) == [Listed6()[0]]
    ensures NotHolding(Listed6()[..3], (0, 0)) == [Listed6()[1], Listed6()[2]]
  {
    var l := Listed6();
    assert l[..0] == [];
    HoldingStep(l, 0, (0, 0));
    HoldingStep(l, 1, (0, 0));
    HoldingStep(l, 2, (0, 0));
  }
}
